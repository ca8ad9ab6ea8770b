# Verified models of the ECUBE service

This project models the parts of the service and its maintenance scripts where the logic is hardest to see from
reading it, and proves what they are for. Each module follows one source area; the code that loops over and updates
state is written as Dafny methods, tied by their contracts to functions about which the properties are proved.

| module | source area |
|---|---|
| `LogLines`, `AdminLogs`, `JobLogs`, `LogFamilies` | backward log readers, the rotated log family, paging, the failure lookup, and the order both readers use |
| `SetupProtocol`, `SetupAttempt` | first-run initialization: many requests in many processes, faults and crashes; one attempt alone |
| `ProgressCounters`, `CopyProgress`, `FileStatuses` | clamped counters, the aggregated progress writer, file statuses, bulk resets and the continuation decision |
| `PostmanPaths`, `PostmanSync`, `PostmanDrift` | the Postman collection generator and the drift check |
| `RedisSessions` | the Redis session middleware serving interleaved clients |
| `HardwareUpserts` | concurrent hub and port upserts |
| `DriveEject`, `MountInfo` | deepest-first unmounting; mount-table escapes and the dictionary read from the table |
| `QaSync` | the Markdown test guide, its spreadsheet, and the check between them |
| `DiscoveryWait` | the re-timable USB discovery wait |
| `Sequences`, `Strings`, `Options` | shared vocabulary |

Where the code does not meet a promise on all inputs, the model keeps the code as it is and proves exactly when the
promise is met:

- **Setup exclusion.** The recovery path takes any admin role it reads for one left over and deletes the lock row. So on
  a clean first run a request that passed both checks early deletes the row of the one that has just committed its
  role: two processes are inside together and both can report success, against app/routers/setup.py:8-10 and 321-322.
  Exclusion, and at most one success, hold in all runs exactly when only one process serves requests, or some admin has
  an account at the start, or there are no admin roles and a lock row is left over
  (`SetupProtocol.ExclusionHoldsExactly`, `SetupProtocol.OneSuccessExactly`, `SetupProtocol.CleanStartCollides`). As
  long as no role is committed it always holds (`SetupProtocol.AtMostOneInside`).
- **Setup retry.** The comment at app/routers/setup.py:443 calls a settings failure retryable. It is not on a clean
  database: the lock row stays (`SetupAttempt.SettingsFailureIsNotRetryable`). `SetupAttempt.StrandedExactly` and
  `SetupAttempt.KilledStrandsExactly` say which failures and which crashes do this.
- **Log search and log view.** The unfiltered view ends lines at CR, LF and CRLF, the search at LF only. Every search is
  a filter of the view exactly when nothing but blanks shares a part between LFs with a CR; in particular a search of a
  CRLF file shows lines with their CR (`LogLines.SearchIsAFilterOfTheView`).
- **Continuation decision.** SQL does not count a failed row without a message as incompatible, the copy engine does
  (`FileStatuses.DecisionsAgreeExactly`).
- **Counters.** A batch can end below the single updates it adds up, because those are clamped one at a time
  (`ProgressCounters.BatchAgainstSingles` says exactly when it does not). A flush keeps the job's bytes and its
  assignments' bytes in balance exactly when both sides are overdrawn by the same amount
  (`CopyProgress.FlushBalancesExactly`, over whole runs `CopyProgress.RunBalancesExactly`).
- **Unmounting.** Only the topmost mount of a point is looked at, and one that a later mount above hides is tried in
  vain, which counts as success. Reported success means that the device is gone exactly when each of its mounts was
  topmost at its point and not hidden (`DriveEject.SuccessMeansGoneExactly`; `DriveEject.HiddenMountSurvives`,
  `DriveEject.CoveredMountSurvives` and `DriveEject.StackedMountSurvives` are tables where it is not).
- **Upserts.** If only changed fields are written, an update from an outdated read is lost in part. At every point of a
  run the table is the calls merged in commit order exactly when every update that commits is up to date
  (`HardwareUpserts.AlwaysMergedExactly`; `HardwareUpserts.ChangedOnlyLosesAnUpdate` is a run where it is not).
- **Mount table.** Reading inverts writing exactly when the backslash and every ASCII blank are escaped; the kernel
  escapes fewer bytes (`MountInfo.TableRoundTripExactly`, `MountInfo.KernelEscapesTooLittle`).
- **Test-case identifiers.** They collide (`QaSync.IdsCollide`); writing, checking and reloading still agree.
- **Log order.** The viewer and the failure lookup can order a rotation numbered 0 differently
  (`LogFamilies.OrdersAgreeExactly`).

## What stands for the outside world

- Files are byte sequences, and `None` is a file that cannot be opened. Decoding, case folding, stripping and
  redaction of a log line are one predicate on the line's bytes, false on the empty line; where searches are compared
  with the view, they are texts found in a line's decoded, lower-case text.
- The database is a few maps and rows with atomic commits; a commit that fails has no effect. Redis is a map; a write
  that fails has no effect, and entries do not expire.
- The host of the setup protocol is a set of accounts. A failing account creation may leave the account behind, every
  other failing operation has no effect. A failing lookup counts as "initialized", as in the code.
- `realPath`, `parents`, `urlPath` and `other` stand for symbolic-link resolution, the slaves of a mapper device, the
  path component found by `urlsplit`, and Python's `int(text, 8)` outside of three octal digits. What is assumed of
  them is a precondition of the lemma that needs it: `urlsplit` finds a plain absolute path to be its own path, and
  `int("", 8)` raises.
- `fails` parameters say which operations raise, so a contract holds for every pattern of failures.

## Model

| member | source | states |
|---|---|---|
| AdminLogs.TailLines | app/routers/admin.py:381-407 | returns exactly the last n lines of the whole file for every file and block size, and has-more is exactly "more than n lines" |
| LogLines.TailSuffices | app/routers/admin.py:392-407 | stopping once the end of the file holds more than n newlines is enough to know its last n lines and whether there are more |
| AdminLogs.TailFilteredLines | app/routers/admin.py:410-460 | the backward carry-based scan returns the last n matching lines of the forward split, with an exact has-more, for every file and chunk size |
| AdminLogs.ScanStep | app/routers/admin.py:427-455 | one backward block with its carry moves exactly that block's complete lines out of the unread matches |
| AdminLogs.TailLogFamilyLines | app/routers/admin.py:463-502 | the window over the family is the first n of "all files newest first, each reversed and filtered", has-more is exact, and it fails exactly when an unreadable file is reached |
| AdminLogs.ViewLogLines | app/routers/admin.py:681-727 | the page is the slice from offset to offset plus limit of that list, in either direction, has-more exactly when the list is longer |
| AdminLogs.FileEntries | app/routers/admin.py:488-489 | a readable file contributes each of its selected lines once, the last one first, under its own name |
| AdminLogs.EntryAt | app/routers/admin.py:478-502 | the i-th line from the end of the k-th file, with that file's name, stands right after all selected lines of the files before |
| AdminLogs.ShownEntry | app/routers/admin.py:681-727 | and it is on the page whose window reaches that place |
| AdminLogs.PagesTile | app/routers/admin.py:713-727 | following has-more page by page shows every entry once, in order, without gap or overlap |
| AdminLogs.RestDoesNotMatter | app/routers/admin.py:479-502 | files after the point where the family reader stops change neither the window nor has-more nor availability |
| LogLines.SearchIsAFilterOfTheView | app/routers/admin.py:403-436 | every search for a stripped, non-blank needle shows exactly the matching lines of the unfiltered view, if and only if every part between LFs that has a CR is blank |
| JobLogs.FindRecentLogMatch | app/routers/jobs.py:101-139 | returns the last matching line of the first readable file that has one, and nothing if none has; for a needle that no empty line contains this is the line the log viewer shows first for the same search |
| JobLogs.FindInFile | app/routers/jobs.py:111-135 | the backward scan of one file finds the last line of the forward split that matches, for any needle, and nothing in an empty file |
| LogFamilies.SortsAgreeExactly | app/routers/admin.py:376-377 | a stable sort by key gives the order of a finer sort exactly when elements with equal keys already stand in that order |
| LogFamilies.OrdersAgreeExactly | app/routers/jobs.py:74-98 | the viewer's order and the files the lookup reads agree, with or without an active log, exactly when no rotation numbered 0 is listed before the active log and equal numbers are listed in path order |
| LogFamilies.NumberedFamiliesAgree | app/routers/admin.py:312-317 | with distinct positive rotation numbers both orders are the same however the directory is listed |
| LogFamilies.RotationZeroGoesFirst | app/routers/admin.py:312-317 | a concrete listing on which the two orders differ |
| LogFamilies.ViewerOrderIsByNumber | app/routers/admin.py:312-377 | the viewer's order has every member once, rotations by ascending number, and before the active log at most rotations numbered 0 |
| LogFamilies.LookupOrderIsByNumber | app/routers/jobs.py:74-98 | the lookup's order is the active log and then every rotation by ascending number and path |
| SetupProtocol.AtMostOneInside | app/routers/setup.py:355-398 | over every interleaving with faults and crashes one process never has two requests inside; while no admin role is committed at most one request is inside, and only a row's owner or the insert changes the row |
| SetupProtocol.ExclusionHoldsExactly | app/routers/setup.py:217-234 | at most one request is inside in every state of every run, if and only if the start is not one with requests of two processes, no admin with an account, and either admin roles or no lock row |
| SetupProtocol.OneSuccessExactly | app/routers/setup.py:387-398 | at most one request ever reports success in every run, if and only if the same holds of the start |
| SetupProtocol.Collision | app/routers/setup.py:217-234 | from every other start a run exists in which one request has committed its role and another one, of another process, has deleted its row and got in |
| SetupProtocol.CleanStartCollides | app/routers/setup.py:387-398 | on a clean first run of two processes this can happen, only after the first role is committed |
| SetupProtocol.OneSuccessPerProcess | app/routers/setup.py:355-398 | within one process at most one request ever reports success, in any run |
| SetupProtocol.OrphanAdminsBreakExclusion | app/routers/setup.py:217-234 | with admin roles and none usable, two processes can be inside together even before any further role is committed |
| SetupProtocol.UsableAdminKeepsAllOut | app/routers/setup.py:166-207 | with a usable admin before any request starts no request gets past the first check, and database and host stay as they are, in any run |
| SetupProtocol.UsableAdminKeepsOut | app/routers/setup.py:355-385 | from any state with a usable admin, a request that has not passed the check under the process lock never gets inside and never reports success |
| SetupProtocol.StaleRowBlocksAll | app/routers/setup.py:415-441 | with a lock row left over and no admin role nobody gets in and nothing changes, in any run |
| SetupProtocol.EffectIsSafe | app/routers/setup.py:401-510 | one operation of a request keeps its own invariant, touches no foreign row while there are no admins, and takes only a free process lock and gives up only its own |
| SetupProtocol.WalkIn | app/routers/setup.py:387-396 | a request past both checks commits its row when there are admin roles, whoever owns the row, or when there is no row |
| SetupProtocol.BusyProcessAnswersConflict | app/routers/setup.py:355-370 | a request that finds its process's lock taken ends in a conflict and changes nothing; one that finds it free takes it and checks again |
| SetupAttempt.FaultFreeAttempt | app/routers/setup.py:333-398 | a fault-free attempt ends with an admin that has both role row and account if and only if it did not start with the lock row and no admin rows; its outcome is determined by the start |
| SetupAttempt.StrandedExactly | app/routers/setup.py:443-510 | whichever operations fail, an attempt that ends leaves later ones blocked if and only if it was blocked itself, or there were no admin rows and saving the settings or releasing the row failed |
| SetupAttempt.KilledStrandsExactly | app/routers/setup.py:443-510 | an attempt killed at any point leaves later ones blocked if and only if it was blocked itself, or there are no admin roles and it is inside or one of these two operations failed |
| SetupAttempt.SuccessMeansUsable | app/routers/setup.py:484-496 | an attempt that reports success has made its user an admin with an account, whatever failed on the way |
| SetupAttempt.SuccessTookEveryStep | app/routers/setup.py:443-510 | an attempt that reports success has saved the settings and ensured the groups, and has put an account that was there before into the group and reset its password |
| SetupAttempt.RetryAfterFailure | app/routers/setup.py:634-655 | after any attempt a fault-free retry ends with a usable admin if and only if the attempt was neither blocked itself nor stranded the row |
| SetupAttempt.SettingsFailureIsNotRetryable | app/routers/setup.py:443-444 | on a clean database a settings failure leaves the row behind and a fault-free retry answers "conflict" |
| SetupAttempt.HandleRequest | app/routers/setup.py:307-398 | the whole handler: fault-free it ends usable exactly when not stuck at the start; success means a usable admin; only a settings or release failure without admins can leave it stuck |
| SetupAttempt.Attempt.InitializeSystem | app/routers/setup.py:333-398 | the code's run is a run of the protocol's request ending with the outcome it returns; the process lock is as before, and when another request holds it the answer is "conflict" unless the first check gives one, with nothing changed |
| SetupAttempt.Attempt.IsInitializedByOsState | app/routers/setup.py:166-207 | the loop over the admins is the protocol's lookups, fails closed, and decides by whether any admin has an account |
| SetupAttempt.Attempt.RecoverStaleInitLock | app/routers/setup.py:217-234 | follows the protocol's recovery: the row goes whenever admin rows exist |
| SetupAttempt.Attempt.DoInitialize | app/routers/setup.py:401-510 | follows the protocol from the row's insert to leaving: conflict when the row exists, otherwise as owner |
| SetupAttempt.Attempt.RunOsSetup | app/routers/setup.py:658-734 | follows the protocol's OS steps: groups, then a new account or the reconciliation of an existing one, otherwise the row is to be released |
| SetupAttempt.Attempt.ReleaseInitLock | app/routers/setup.py:634-655 | follows the protocol's release, which may itself fail and leave the row |
| ProgressCounters.ClosedForm | app/repositories/job_repository.py:609-751 | signed clamped updates from a non-negative counter give the larger of the plain sum and the largest sum of a run of updates at the end, never below zero |
| ProgressCounters.BatchAgainstSingles | app/repositories/job_repository.py:628-704 | one aggregated update is never above the single ones and equals them if and only if no run of updates at the end exceeds the aggregated result |
| ProgressCounters.NoDipNoClamp | app/repositories/job_repository.py:609-751 | if no running total dips below zero, singles and batch are both the plain sum |
| CopyProgress.BytesAreConserved | app/services/copy_engine.py:752-832 | over every run of records, completions and flushes, failing or not, job bytes equal the assignments' bytes plus the unassigned ones, committed and pending together, as long as nothing is overdrawn when a flush commits |
| CopyProgress.FlushBalancesExactly | app/repositories/job_repository.py:628-704 | a flush that commits keeps that balance if and only if the job is overdrawn by as much as its assignments together |
| CopyProgress.RunBalancesExactly | app/services/copy_engine.py:752-832 | over every run of events that name existing assignments job and assignments stay in balance if and only if every flush that commits overdraws both sides alike |
| CopyProgress.OverdraftUnbalances | app/repositories/job_repository.py:628-704 | a concrete rollback of one byte too many that leaves job and assignment unbalanced |
| CopyProgress.FlushedColumnsBalance | app/repositories/job_repository.py:628-704 | after a flush that commits the columns alone balance, and each assignment has what it started with plus what was recorded for it |
| CopyProgress.CompletionsAreCounted | app/services/copy_engine.py:763-832 | completed files are counted exactly once, however often a flush fails first |
| CopyProgress.ProgressStore.ApplyCopyProgressBatch | app/repositories/job_repository.py:628-704 | all three columns get their clamped deltas, or nothing changes |
| CopyProgress.ProgressStore.IncrementCopyProgress | app/repositories/job_repository.py:609-626 | job and assignment are raised by the size in one commit, or neither |
| CopyProgress.ProgressStore.DecrementCopyProgress | app/repositories/job_repository.py:724-751 | job and assignment are lowered by the size, never below zero, in one commit, or neither; from columns that are not negative this is the signed update of a batch |
| CopyProgress.ProgressStore.BumpRows | app/repositories/job_repository.py:663-701 | the updates per entry, in whatever order, are one simultaneous clamped update of the column |
| CopyProgress.CopyProgressWriter.RecordDelta | app/services/copy_engine.py:752-761 | a delta becomes pending for the job and for its assignment; a zero delta changes nothing |
| CopyProgress.CopyProgressWriter.RecordCompletion | app/services/copy_engine.py:763-770 | completed files become pending for their assignment; none, or no assignment, changes nothing |
| CopyProgress.CopyProgressWriter.FlushPending | app/services/copy_engine.py:804-832 | succeeds whenever the commit does or there is nothing to write; then every column has its pending delta and nothing is pending, otherwise all of it stays pending |
| FileStatuses.SqlDecision | app/repositories/job_repository.py:316-360 | what the three queries decide under SQL's three-valued logic, as a predicate on the rows |
| FileStatuses.InMemoryDecision | app/services/copy_engine.py:582-595 | what the copy engine decides from the listed incomplete rows, as a predicate on the rows |
| FileStatuses.DecisionsAgreeExactly | app/repositories/job_repository.py:302-360 | the two decisions agree unless, and only unless, the unfinished rows hold both a target-full failure and a failure without a message, and besides these only in-flight rows |
| FileStatuses.DecisionsCanDiffer | app/repositories/job_repository.py:343-360 | a concrete table on which the queries continue and the copy engine does not |
| FileStatuses.ResetEffect | app/repositories/job_repository.py:448-505 | every reset keeps all other rows row by row, makes the selected ones pending with a clean slate, takes them off their assignment only in the target-full case, and returns exactly their number |
| FileStatuses.SelectedRows | app/repositories/job_repository.py:448-505 | which rows each reset selects, by job, status and message |
| FileStatuses.ResetTwice | app/repositories/job_repository.py:448-505 | repeating a reset changes no row; it rewrites none, except that a restart rewrites the same ones again |
| FileStatuses.NoContinuationAfterReset | app/repositories/job_repository.py:486-505 | the continuation decision is "no" right after the target-full rows are reset |
| FileStatuses.ResetKeepsDone | app/repositories/job_repository.py:448-505 | no reset changes the number of rows finished on any assignment |
| FileStatuses.SaveCompletedExactly | app/repositories/job_repository.py:753-766 | saving a completed copy keeps every file count equal to its finished rows if and only if the row was not already finished on a counted assignment |
| FileStatuses.FileCountsStayRight | app/repositories/job_repository.py:753-766 | over every run of completions, worker updates and resets each assignment's file count is the number of rows finished on it |
| FileStatuses.FileRepository.SaveCompletedCopy | app/repositories/job_repository.py:753-766 | the row and the count are saved together or not at all, and the counts stay right for a row not yet finished |
| FileStatuses.FileRepository.ResetFiles | app/repositories/job_repository.py:448-505 | applies the reset to all rows, returns the number selected and keeps the counts right |
| PostmanPaths.BuiltPathMatches | scripts/check_postman_collection.py:42-53 | the pattern of every well-formed route, the root included, matches the path built for it |
| PostmanPaths.RouteMatchesExactly | scripts/check_postman_collection.py:42-53 | a route's pattern matches a path if and only if the path has as many pieces and each segment is in braces or equals its piece |
| PostmanPaths.VariableUrlNormalizes | scripts/check_postman_collection.py:55-76 | a variable in front and a query or fragment behind make no difference to the path of a URL |
| PostmanPaths.TrailingSlashNormalizes | scripts/check_postman_collection.py:55-76 | nor does a slash at the end |
| PostmanPaths.AbsoluteUrlNormalizes | scripts/check_postman_collection.py:55-76 | the path of an absolute URL is the one `urlsplit` finds |
| PostmanPaths.BuiltUrlNormalizes | scripts/sync_postman_collection.py:49-66 | the URL built for a route normalizes back to the route with double-braced parameters |
| PostmanPaths.KeysAgree | scripts/check_postman_collection.py:97-98 | the canonical form of a built path is the route itself, which is its own canonical form |
| PostmanSync.SyncThenCheckIsClean | scripts/sync_postman_collection.py:162-171 | for every collection with normalizable URLs and every well-formed schema the check reads the result and neither drift finder reports anything |
| PostmanSync.SyncSucceedsExactly | scripts/sync_postman_collection.py:128-159 | pruning succeeds if and only if every request it looks at has a URL that can be normalized |
| PostmanSync.SyncIsIdempotent | scripts/sync_postman_collection.py:162-171 | syncing twice equals syncing once |
| PostmanSync.PruneTwice | scripts/sync_postman_collection.py:128-159 | a pruned tree is a fixed point of pruning |
| PostmanSync.PruneKeepsExactly | scripts/sync_postman_collection.py:128-159 | what is left lists exactly the matching requests without generated, stale or method-less ancestor, in their folders and original order |
| PostmanSync.FolderIsInSync | scripts/sync_postman_collection.py:69-99 | the generated folder's requests all match their routes and have exactly the schema's keys |
| PostmanSync.NoDriftExactly | scripts/check_postman_collection.py:180-208 | the collection check reports nothing if and only if every request matches an operation |
| PostmanDrift.ReportedExactly | scripts/check_postman_collection.py:180-217 | a request is reported if and only if no operation has its method and a route its path fits, as a wrong method when some route fits and as an unknown route otherwise |
| PostmanDrift.EachIsReported | scripts/check_postman_collection.py:180-208 | every request is looked at on its own, in order |
| PostmanDrift.KeptExactly | scripts/sync_postman_collection.py:128-159 | a single request is kept as it is if and only if an operation has its upper-case method and a route its path fits |
| PostmanDrift.GeneratedDriftExactly | scripts/check_postman_collection.py:220-260 | the second finder reports exactly the operations no request of the folder stands for and the requests that stand for no operation |
| PostmanDrift.MissingFolderIsReported | scripts/check_postman_collection.py:171-178 | without a generated folder at the top level that is reported |
| PostmanDrift.FolderFollowsSchema | scripts/sync_postman_collection.py:69-99 | the generated folder has one named request per operation, sorted by path and then by method |
| PostmanDrift.SyncedCollection | scripts/sync_postman_collection.py:162-171 | a synced collection is its pruned items, then the generated folder, with a variable for every parameter behind the ones it had and the rest untouched |
| PostmanDrift.ParametersOfRoute | scripts/sync_postman_collection.py:46-47 | the parameters found in a route's path are those of its segments, in order |
| PostmanDrift.ParameterNamesExactly | scripts/sync_postman_collection.py:115 | the wanted names are those of some route, each once, in alphabetical order |
| PostmanDrift.DefaultValues | scripts/sync_postman_collection.py:35-42 | the default value of a variable by the ending of its name |
| PostmanSync.VariablesCoverParameters | scripts/sync_postman_collection.py:102-125 | every path parameter has a variable afterwards, existing variables stay in front unchanged, and doing it again adds none |
| PostmanSync.PruneStaleItems | scripts/sync_postman_collection.py:128-159 | the recursive loop computes the pruned tree, or raises exactly when that does |
| PostmanSync.Collection.EnsureCollectionVariables | scripts/sync_postman_collection.py:102-125 | the in-place loop appends exactly the missing variables, in order |
| RedisSessions.RequestsSeeTheLatestSession | app/session.py:69-169 | over every interleaving of clients with failing loads and writes, a request whose load works is given exactly the session left by its client's latest response that set a cookie |
| RedisSessions.OthersDoNotInterfere | app/session.py:69-169 | whatever other clients do, an idle client's session does not change |
| RedisSessions.ResponseIsLocal | app/session.py:105-169 | a response changes the store only under its own client's id or a new one |
| RedisSessions.ResponseGivesEntitled | app/session.py:105-169 | after a response the client would be given exactly what that response's cookie entitles it to |
| RedisSessions.RequestIsGiven | app/session.py:78-99 | a request that begins is given what its client's cookie stands for, nothing when loading fails, and changes nothing else |
| RedisSessions.SessionIsSaved | app/session.py:105-169 | when nothing fails, the session the application leaves is what the next request is given, stored under the cookie the client then has, with no cookie for an empty one |
| RedisSessions.SessionKeepsItsId | app/session.py:138-151 | a session that was there keeps its id, a new one gets the generated id, and other stored sessions stay |
| RedisSessions.NothingIsSaved | app/session.py:108-148 | an unserializable session, a non-empty one whose write fails, and an empty one that was given nothing leave store and cookies as they were |
| RedisSessions.ClearedSessionIsGone | app/session.py:120-128 | a cleared session loses its cookie even when deleting it fails, and nobody can reach it any more |
| RedisSessions.UnchangedSessionStays | app/session.py:153-168 | an unchanged session stays as it is, cookie and store alike |
| RedisSessions.RedisSessionMiddleware.LoadSession | app/session.py:69-103 | the id is kept only when it is valid and the store has a dictionary for it |
| RedisSessions.RedisSessionMiddleware.SendStart | app/session.py:105-169 | the store and the cookie after the start of the response, in each of its branches |
| HardwareUpserts.MergedInCommitOrder | app/repositories/hardware_repository.py:60-106 | over every interleaving with conflicts and failing commits the table equals the calls merged in commit order, when supplied fields are written or every update that commits is up to date |
| HardwareUpserts.AlwaysMergedExactly | app/repositories/hardware_repository.py:60-106 | when changed fields are written, the table is the merge in commit order at every point of the run if and only if every update that commits is up to date |
| HardwareUpserts.CommitMergesExactly | app/repositories/hardware_repository.py:93-104 | writing only changed fields, a commit does what its call would do alone if and only if the session's read is up to date |
| HardwareUpserts.ChangedOnlyIsEnoughExactly | app/repositories/hardware_repository.py:206-220 | writing changed fields equals writing all supplied ones if and only if no field regarded as unchanged has changed |
| HardwareUpserts.ChangedOnlyLosesAnUpdate | app/repositories/hardware_repository.py:93-104 | a run of two hub upserts from a stored hub, both saved, whose table is not the calls merged in commit order |
| HardwareUpserts.NothingIsErased | app/repositories/hardware_repository.py:60-106 | under any interleaving rows and stored fields stay, a field changes only to a supplied value, and only `set_enabled` changes the enabled flag |
| HardwareUpserts.SoloCallSaves | app/repositories/hardware_repository.py:167-222 | left alone, an upsert is saved as the merge of its call, and so is `set_enabled` of a port that is there; of one that is not, nothing changes |
| HardwareUpserts.HubColumns | app/repositories/hardware_repository.py:60-106 | each column of a hub after an upsert is the argument it is named after, or what it was when that is None |
| HardwareUpserts.PortColumns | app/repositories/hardware_repository.py:167-222 | the same for the optional columns of a port |
| HardwareUpserts.PortPlaceAndFlag | app/repositories/hardware_repository.py:167-222 | hub and port number are always written, a new port is disabled and an existing one keeps its flag |
| HardwareUpserts.EnabledColumn | app/repositories/hardware_repository.py:238-250 | `set_enabled` sets the flag of a row that is there and nothing else |
| HardwareUpserts.ConflictIsAlwaysRetried | app/repositories/hardware_repository.py:70-76 | after an insert that conflicts on the identifier the row is always found again, so the call goes on to its update |
| HardwareUpserts.Repository.UpsertRow | app/repositories/hardware_repository.py:167-222 | a successful upsert of a row not found at first is the merge of the call into the table at the commit, whether the insert conflicts or not; of a row found at first it is the merge if and only if all supplied fields are written or the read is up to date |
| HardwareUpserts.Repository.AssignFields | app/repositories/hardware_repository.py:206-215 | the conditional assignments are the merge of exactly the supplied fields |
| HardwareUpserts.Repository.SetPortEnabled | app/repositories/hardware_repository.py:238-250 | sets the flag of an existing port and nothing else; it is the merge if and only if the flag is always written or the read is up to date |
| DriveEject.BusyExactly | app/infrastructure/drive_eject.py:296-329 | deepest first, a mount is busy at its turn if and only if something mounted later below it cannot be taken off at all |
| DriveEject.Host.UnmountDevice | app/infrastructure/drive_eject.py:266-333 | success exactly when no point of the device is refused, the errors are exactly the refused points, each point that is neither refused nor hidden loses its topmost mount, and nothing else changes; after success no mount of the device that was in sight is left |
| DriveEject.Host.UnmountAll | app/infrastructure/drive_eject.py:299-333 | the loop over the sorted points leaves exactly that state and those errors |
| DriveEject.CleanUnmountExactly | app/infrastructure/drive_eject.py:279-333 | none of the device's sources is mounted any more if and only if each was topmost at its point, not hidden by a later mount above, did not raise, and everything mounted later below it was so too; mounts of other sources stay |
| DriveEject.SuccessMeansGoneExactly | app/infrastructure/drive_eject.py:331-333 | when success is reported the device is gone if and only if each of its mounts was topmost at its point and not hidden |
| DriveEject.HiddenMountSurvives | app/infrastructure/drive_eject.py:228-241 | a table on which a mount of the device under a foreign one at the same point is not listed at all and survives a reported success |
| DriveEject.CoveredMountSurvives | app/infrastructure/drive_eject.py:315-323 | a table on which a mount of the device hidden by a later mount above is tried in vain and survives a reported success |
| DriveEject.EarlierMountIsNoObstacle | app/infrastructure/drive_eject.py:296-329 | a foreign mount made earlier below the device's mount point does not keep the device |
| DriveEject.OutcomeAtTurn | app/infrastructure/drive_eject.py:296-329 | what each unmount answers when its turn comes is fixed by the table at the beginning |
| DriveEject.StackedMountSurvives | app/infrastructure/drive_eject.py:279-333 | two mounts of the device stacked on one point, of which one survives a reported success |
| DriveEject.FindDeviceMountpoints | app/infrastructure/drive_eject.py:198-263 | lists each point whose topmost mount belongs to the device, once |
| DriveEject.OwnNameExactly | app/infrastructure/drive_eject.py:240-248 | among the names that begin with the device's own exactly the device and its name followed by a number, or by a p and a number, belong to it |
| DriveEject.OtherNameExactly | app/infrastructure/drive_eject.py:249-259 | any other source belongs to it if and only if it is a mapper device with such a parent |
| DriveEject.NamesOfSdb | app/infrastructure/drive_eject.py:240-248 | /dev/sdb1 and /dev/sdbp2 belong to sdb, /dev/sdbc and /dev/sda1 do not |
| DriveEject.DevicePathExactly | app/infrastructure/device_path.py:11-16 | a device path is /dev/ and a name of letters and digits that begins with a letter |
| DriveEject.ReadMountTable | app/infrastructure/drive_eject.py:225-234 | the dictionary has every mounted point with the source mounted on it last, and its order lists each point once |
| MountInfo.UnescapeInvertsEscape | app/infrastructure/mount_info.py:33-53 | unescaping is a left inverse of octal escaping for every byte string and every set of escaped bytes with the backslash |
| MountInfo.InvertsExactly | app/infrastructure/mount_info.py:33-53 | it is a left inverse on all texts if and only if the backslash is escaped |
| MountInfo.SplitAround | app/infrastructure/mount_info.py:46 | escapes do not overlap: the split finds each one in any surrounding text |
| MountInfo.EscapeInContext | app/infrastructure/mount_info.py:44-53 | an escape and the text around it are decoded independently, and together or not at all |
| MountInfo.HighEscapeChangesNothing | app/infrastructure/mount_info.py:44-53 | any text with an escape above \377 comes back unchanged |
| MountInfo.TableRoundTripExactly | app/infrastructure/mount_info.py:56-74 | the table reads back as the mounts it was written from, for all mounts, if and only if the backslash and every blank are escaped |
| MountInfo.KernelEscapesTooLittle | app/infrastructure/mount_info.py:56-74 | with the bytes the kernel escapes some mounts do not read back |
| MountInfo.UnescapeMountpoint | app/infrastructure/mount_info.py:33-53 | the growing buffer ends as the decoded text, or the input is returned |
| MountInfo.ReadMountTable | app/infrastructure/mount_info.py:56-74 | the dictionary filled line by line is the one of the whole table, empty when it cannot be opened |
| QaSync.OneSectionPerHeader | scripts/sync_qa_test_cases.py:138-236 | exactly one section per section-header line, in order, with its number and label |
| QaSync.ParseMarkdown | scripts/sync_qa_test_cases.py:138-236 | the nested loops over one index terminate with the sections of the guide |
| QaSync.ParseTable | scripts/sync_qa_test_cases.py:165-211 | reads the first table before the next header and never passes a header |
| QaSync.SameIdExactly | scripts/sync_qa_test_cases.py:106-127 | two rows share an identifier if and only if section key plus row number are equal |
| QaSync.IdsCollide | scripts/sync_qa_test_cases.py:106-127 | row 11 of a section and row 1 of its next subsection share an identifier |
| QaSync.ShortTablesHaveUniqueIds | scripts/sync_qa_test_cases.py:106-127 | with at most ten rows and single-digit subsections identifiers are unique |
| QaSync.DocumentedKeys | scripts/sync_qa_test_cases.py:106-127 | the section keys and the identifier the documentation gives as examples |
| QaSync.LabelText | scripts/sync_qa_test_cases.py:120-123 | a label is the section's number and its short name |
| QaSync.StripMdExactly | scripts/sync_qa_test_cases.py:130-135 | of a cell's text surrounding spaces and backticks go and everything else stays |
| QaSync.CellsReachColumns | scripts/sync_qa_test_cases.py:176-207 | which cell of a table row reaches which column of the sheet, for tables of three, four and other numbers of columns |
| QaSync.RowReachesSheet | scripts/sync_qa_test_cases.py:138-318 | the whole way of a row from the guide to the sheet, between its section's label row and the total |
| QaSync.SectionWithoutTable | scripts/sync_qa_test_cases.py:213-234 | a section without a table has no test case, or the one that stands for the end-to-end workflow |
| QaSync.WriteXlsx | scripts/sync_qa_test_cases.py:270-329 | writes headings, each section's label and case rows, and the total, and returns the number of cases |
| QaSync.WriteThenCheck | scripts/sync_qa_test_cases.py:335-381 | after writing any guide the check finds no difference, colliding identifiers included, and reloading gives every identifier the tracking it had |
| QaSync.FieldsReload | scripts/sync_qa_test_cases.py:242-259 | status, tester, date and notes of an identifier each come back as they were |
| QaSync.DiffsExactly | scripts/sync_qa_test_cases.py:355-381 | the check reports as added what no row has, as deleted what the guide does not have, and as modified what differs |
| QaSync.SyncTwice | scripts/sync_qa_test_cases.py:242-318 | syncing again from the same guide writes the same sheet |
| QaSync.SheetPairs | scripts/sync_qa_test_cases.py:335-352 | a reading loop collects exactly the test cases of a written sheet, no label, blank or total row |
| QaSync.NoDiffsExactly | scripts/sync_qa_test_cases.py:355-381 | the check reports nothing if and only if both dictionaries are equal |
| DiscoveryWait.WaitForNextUsbDiscoveryCycle | app/main.py:268-300 | for every trace it stops at, and only at, the first reading where the last n readings were all n for a positive n, or at an earlier non-positive reading when it is to exit then; one second of sleep per reading; a setting that stays at n ends it within n readings |
| DiscoveryWait.FiresExactly | app/main.py:285-300 | the wait is over if and only if the current run of equal readings is as long as its interval |
| DiscoveryWait.ChangeRestarts | app/main.py:294-296 | after a change the full new interval has to pass |
| DiscoveryWait.ChangingIntervalNeverFires | app/main.py:285-300 | while every reading differs from the one before and none is one second, the wait never ends by itself |

## Left out

- Log readers: UTF-8 decoding, lower-casing, stripping and redaction (one predicate per line); a file that changes or fails in the middle of a read; the cap on the offset; `$` matching before a final newline in file-name patterns.
- LogFamilies.OrdersAgreeExactly: that the viewer skips links and unreadable entries, and the lookup does not, is not modelled.
- SetupProtocol: demo seeding, schema auto-migration, input validation, password rules and response texts. The lookup of one account is one atomic operation, and the sessions' reads see the latest commit.
- ProgressCounters: nullable counter columns and the width of BigInteger.
- CopyProgress.BytesAreConserved: requires that nothing is overdrawn when a flush commits, and that records name assignments that have a row; what an overdraft does is the subject of `CopyProgress.RunBalancesExactly`, and bytes recorded for a missing row reach the job alone.
- CopyProgress.CopyProgressWriter.FlushPending: the background writer, which keeps what it could not commit; the synchronous variant used for SQLite drops it and raises.
- FileStatuses: the remaining counting and listing queries, and the update of timestamps.
- PostmanSync: `urlsplit` is a parameter; files, JSON parsing and command-line handling; request keys other than method, URL and description are opaque.
- RedisSessions.RequestsSeeTheLatestSession: one request at a time per client, no expiry of stored sessions, and generated ids are new; the cookie's attributes and the fallback to signed cookies (`_SessionProxy`) are not modelled.
- HardwareUpserts.ConflictIsAlwaysRetried: integrity errors other than a taken identifier, such as a missing hub of a port, are failing commits.
- HardwareUpserts.Repository.SetPortEnabled: names the port by its system path, not by its row id.
- HardwareUpserts: `update_location_hint` and `update_friendly_label` are not modelled.
- DriveEject.OwnNameExactly: digits are the ASCII ones, and a final newline after a device name is not modelled.
- DriveEject.Host.UnmountDevice: lines stand in mount order, an unmount that raises or times out has no effect, and mounts change under the loop only by its own unmounts; the texts of `umount` messages and the rest of the eject are not modelled.
- MountInfo.TableRoundTripExactly: blanks are the ASCII ones; text is bytes, so Unicode spaces and the replacement of undecodable bytes when the table is read are not modelled.
- QaSync: regular expressions (lines come classified with their numbers and cells), spreadsheet styling, and the file format; a text cell that is empty is read back as no value.
- DiscoveryWait.WaitForNextUsbDiscoveryCycle: the clock (a sleep takes exactly its time); a trace that ends is reported as still waiting.
- HTTP routing, authentication, audit and logging calls, subprocesses and the schema are not part of this model.
