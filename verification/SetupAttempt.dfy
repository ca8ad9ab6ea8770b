/** One initialization attempt with nobody else running: what it achieves, and which faults strand it. */
module SetupAttempt {
  import opened SetupProtocol

  /** The lock row is there and there is no admin: every attempt answers "conflict" until the row is removed. */
  predicate Stuck(db: Shared) {
    db.row != NoRow && db.admins == {}
  }

  /** The operations of one request from the protocol, run alone from `Idle`. */
  function Alone(db: Shared, r: RequestId, user: User, choices: seq<Choice>): (Pc, Shared) {
    if choices == [] then (Idle, db)
    else
      var (pc, now) := Alone(db, r, user, choices[..|choices| - 1]);
      Next(pc, now, r, user, choices[|choices| - 1])
  }

  function Next(pc: Pc, db: Shared, r: RequestId, user: User, choice: Choice): (Pc, Shared) {
    var f := match choice
             case Works(pick) => Work(pc, db, r, user, true, pick)
             case Fails(partial) => Fail(pc, db, user, partial);
    (f.pc, f.shared)
  }

  lemma AloneNext(db: Shared, r: RequestId, user: User, choices: seq<Choice>, choice: Choice)
    ensures var (pc, now) := Alone(db, r, user, choices);
            Alone(db, r, user, choices + [choice]) == Next(pc, now, r, user, choice)
  {
    assert (choices + [choice])[..|choices|] == choices;
  }

  // ---------- Fault-free attempts ----------

  ghost predicate FaultFree(choices: seq<Choice>) {
    forall k :: 0 <= k < |choices| ==> choices[k].Works?
  }

  /** Setup is neither done nor blocked. */
  ghost predicate Open(db: Shared) {
    !Stuck(db) && !HasUsableAdmin(db)
  }

  /** Where a fault-free attempt can be and what it has done so far, starting from `was`. */
  ghost predicate OnTrack(was: Shared, pc: Pc, db: Shared, r: RequestId, user: User) {
    match pc
    case Idle => db == was
    case CheckAdmins(again) => db == was && (again ==> !HasUsableAdmin(was))
    case ReadNames(again) => db == was && was.admins != {} && (again ==> !HasUsableAdmin(was))
    case Lookup(again, todo, found) =>
      && db == was && todo <= was.admins && was.admins != {}
      && (found <==> exists u :: u in was.admins && u !in todo && u in was.accounts)
      && (again ==> !HasUsableAdmin(was))
    case TryProcessLock | RecoverRead => db == was && !HasUsableAdmin(was)
    case RecoverDelete => db == was && was.admins != {} && !HasUsableAdmin(was)
    case InsertRow =>
      && !HasUsableAdmin(was)
      && db == if was.admins == {} then was else was.(row := NoRow)
    case PersistSettings | EnsureGroups | CreateUser => db == was.(row := OwnedBy(r)) && Open(was)
    case AddToGroup | ResetPassword => db == was.(row := OwnedBy(r)) && user in was.accounts && Open(was)
    case SeedRole => db == was.(row := OwnedBy(r), accounts := was.accounts + {user}) && Open(was)
    case Audit | LeaveLock(Initialized) | Done(Initialized) =>
      db == Shared(OwnedBy(r), was.admins + {user}, was.accounts + {user}) && Open(was)
    case LeaveLock(AlreadyInitialized) | Done(AlreadyInitialized) => db == was && HasUsableAdmin(was)
    case LeaveLock(Conflict) | Done(Conflict) => db == was && Stuck(was)
    case _ => false
  }

  lemma StaysOnTrack(was: Shared, pc: Pc, db: Shared, r: RequestId, user: User, pick: User)
    requires OnTrack(was, pc, db, r, user)
    ensures var (pc', db') := Next(pc, db, r, user, Works(pick)); OnTrack(was, pc', db', r, user)
  {
    if pc.Lookup? && pick in pc.todo {
      assert forall u :: u in was.admins && u !in pc.todo - {pick} <==> (u in was.admins && u !in pc.todo) || u == pick;
    }
  }

  lemma {:induction false} AloneOnTrack(was: Shared, r: RequestId, user: User, choices: seq<Choice>)
    requires FaultFree(choices)
    ensures var (pc, db) := Alone(was, r, user, choices); OnTrack(was, pc, db, r, user)
  {
    if choices != [] {
      var before := choices[..|choices| - 1];
      AloneOnTrack(was, r, user, before);
      var (pc, db) := Alone(was, r, user, before);
      StaysOnTrack(was, pc, db, r, user, choices[|choices| - 1].pick);
    }
  }

  /** A fault-free attempt, whatever order the accounts are looked up in, ends with an admin that has both a role
      row and an account exactly when it did not start with the lock row and no admins. */
  lemma FaultFreeAttempt(was: Shared, r: RequestId, user: User, choices: seq<Choice>)
    requires FaultFree(choices) && Alone(was, r, user, choices).0.Done?
    ensures HasUsableAdmin(Alone(was, r, user, choices).1) <==> !Stuck(was)
    ensures Alone(was, r, user, choices).0 ==
            Done(if HasUsableAdmin(was) then AlreadyInitialized else if Stuck(was) then Conflict else Initialized)
  {
    AloneOnTrack(was, r, user, choices);
    var (pc, db) := Alone(was, r, user, choices);
    if pc == Done(Initialized) {
      assert user in db.admins && user in db.accounts;
    }
  }

  // ---------- Attempts with faults ----------

  /** An operation failed that leaves the committed row behind: saving the settings, or releasing the row. */
  predicate StrandingFault(pc: Pc, choice: Choice) {
    choice.Fails? && (pc.PersistSettings? || pc.ReleaseRow?)
  }

  ghost predicate HasStrandingFault(db: Shared, r: RequestId, user: User, choices: seq<Choice>) {
    exists k :: 0 <= k < |choices| && StrandingFault(Alone(db, r, user, choices[..k]).0, choices[k])
  }

  /** What holds at every point of an attempt with arbitrary faults that did not start stuck. */
  predicate FaultyTrack(was: Shared, pc: Pc, db: Shared, r: RequestId, stranded: bool) {
    && (Critical(pc) ==> db.row == OwnedBy(r) && !stranded)
    && (pc.Audit? || pc == LeaveLock(Initialized) || pc == Done(Initialized) ==> db.admins != {} && !stranded)
    && (db.admins == {} ==> was.admins == {})
    && (was.admins == {} && db.admins != {} ==>
          pc.Audit? || pc == LeaveLock(Initialized) || pc == Done(Initialized))
    && (pc.RecoverDelete? || pc.ReadNames? || pc.Lookup? ==> db.admins != {})
    && (stranded ==> db.row == OwnedBy(r) && (pc == LeaveLock(Failed) || pc == Done(Failed)))
    && (!stranded && !Critical(pc) ==> !Stuck(db))
  }

  lemma StaysOnFaultyTrack(was: Shared, pc: Pc, db: Shared, r: RequestId, user: User, stranded: bool, choice: Choice)
    requires FaultyTrack(was, pc, db, r, stranded)
    ensures var (pc', db') := Next(pc, db, r, user, choice);
            FaultyTrack(was, pc', db', r, stranded || StrandingFault(pc, choice))
  {
  }

  lemma {:induction false} AloneOnFaultyTrack(was: Shared, r: RequestId, user: User, choices: seq<Choice>)
    requires !Stuck(was)
    ensures var (pc, db) := Alone(was, r, user, choices);
            FaultyTrack(was, pc, db, r, HasStrandingFault(was, r, user, choices))
  {
    if choices != [] {
      var n := |choices| - 1;
      var before := choices[..n];
      AloneOnFaultyTrack(was, r, user, before);
      var (pc, db) := Alone(was, r, user, before);
      StaysOnFaultyTrack(was, pc, db, r, user, HasStrandingFault(was, r, user, before), choices[n]);
      LastFault(was, r, user, before, choices[n]);
      assert choices == before + [choices[n]];
    }
  }

  lemma LastFault(was: Shared, r: RequestId, user: User, before: seq<Choice>, choice: Choice)
    ensures HasStrandingFault(was, r, user, before + [choice]) <==>
              HasStrandingFault(was, r, user, before) || StrandingFault(Alone(was, r, user, before).0, choice)
  {
    var choices, n := before + [choice], |before|;
    forall k | 0 <= k <= n ensures choices[..k] == before[..k] {
    }
    assert choices[..n] == before;
    if HasStrandingFault(was, r, user, before) {
      var k :| 0 <= k < n && StrandingFault(Alone(was, r, user, before[..k]).0, before[k]);
      assert StrandingFault(Alone(was, r, user, choices[..k]).0, choices[k]);
    }
    if StrandingFault(Alone(was, r, user, before).0, choice) {
      assert StrandingFault(Alone(was, r, user, choices[..n]).0, choices[n]);
    }
  }

  /** An attempt that finds the lock row and no admins changes nothing and gets nowhere, whatever fails. */
  lemma {:induction false} StuckStays(was: Shared, r: RequestId, user: User, choices: seq<Choice>)
    requires Stuck(was)
    ensures var (pc, db) := Alone(was, r, user, choices); db == was && Blocked(pc)
  {
    if choices != [] {
      var before, choice := choices[..|choices| - 1], choices[|choices| - 1];
      StuckStays(was, r, user, before);
      EffectIsBlocked(Alone(was, r, user, before).0, was, r, user, true, choice);
    }
  }

  /** Whatever goes wrong, an attempt blocks later attempts exactly when it was blocked itself, or when there are no
      admins and saving the settings or releasing the row was what failed. */
  lemma StrandedExactly(was: Shared, r: RequestId, user: User, choices: seq<Choice>)
    requires Alone(was, r, user, choices).0.Done?
    ensures Stuck(Alone(was, r, user, choices).1) <==>
              Stuck(was) || (was.admins == {} && HasStrandingFault(was, r, user, choices))
  {
    if Stuck(was) {
      StuckStays(was, r, user, choices);
    } else {
      AloneOnFaultyTrack(was, r, user, choices);
    }
  }

  /** The same at any point of the attempt, so also when its process is killed there: what is left blocks later attempts
      exactly when it was blocked itself, or when there are no admins and the attempt is between committing the row and
      leaving, or one of those two operations failed. */
  lemma KilledStrandsExactly(was: Shared, r: RequestId, user: User, choices: seq<Choice>)
    ensures var (pc, db) := Alone(was, r, user, choices);
            Stuck(db) <==>
              Stuck(was) || (db.admins == {} && (Critical(pc) || HasStrandingFault(was, r, user, choices)))
  {
    if Stuck(was) {
      StuckStays(was, r, user, choices);
    } else {
      AloneOnFaultyTrack(was, r, user, choices);
    }
  }

  predicate UserTrack(pc: Pc, db: Shared, user: User) {
    && (pc.AddToGroup? || pc.ResetPassword? || pc.SeedRole? ==> user in db.accounts)
    && (pc.Audit? || pc == LeaveLock(Initialized) || pc == Done(Initialized) ==>
          user in db.admins && user in db.accounts)
  }

  lemma StaysOnUserTrack(pc: Pc, db: Shared, r: RequestId, user: User, choice: Choice)
    requires UserTrack(pc, db, user)
    ensures var (pc', db') := Next(pc, db, r, user, choice); UserTrack(pc', db', user)
  {
  }

  /** An attempt that reports success has made its user an admin with an account, whatever failed on the way. */
  lemma {:induction false} SuccessMeansUsable(was: Shared, r: RequestId, user: User, choices: seq<Choice>)
    ensures var (pc, db) := Alone(was, r, user, choices);
            UserTrack(pc, db, user)
  {
    if choices != [] {
      var n := |choices| - 1;
      SuccessMeansUsable(was, r, user, choices[..n]);
      var (pc, db) := Alone(was, r, user, choices[..n]);
      StaysOnUserTrack(pc, db, r, user, choices[n]);
    }
  }

  /** Some operation done at a place that `at` singles out worked. */
  ghost predicate Passed(was: Shared, r: RequestId, user: User, choices: seq<Choice>, at: Pc) {
    exists k :: 0 <= k < |choices| && choices[k].Works? && Alone(was, r, user, choices[..k]).0 == at
  }

  lemma PassedOn(was: Shared, r: RequestId, user: User, before: seq<Choice>, choice: Choice, at: Pc)
    ensures Passed(was, r, user, before + [choice], at) <==>
              Passed(was, r, user, before, at) || (choice.Works? && Alone(was, r, user, before).0 == at)
  {
    var choices, n := before + [choice], |before|;
    forall k | 0 <= k <= n ensures choices[..k] == before[..k] {
    }
    assert choices[..n] == before;
    if Passed(was, r, user, before, at) {
      var k :| 0 <= k < n && before[k].Works? && Alone(was, r, user, before[..k]).0 == at;
      assert choices[k].Works? && Alone(was, r, user, choices[..k]).0 == at;
    }
    if choice.Works? && Alone(was, r, user, before).0 == at {
      assert choices[n].Works? && Alone(was, r, user, choices[..n]).0 == at;
    }
  }

  predicate PastAccount(pc: Pc) {
    pc.SeedRole? || Committed(pc)
  }

  /** Where an attempt is says which steps it has behind it: the settings, the groups, and for an account that was there
      before its group and its password. */
  predicate StepsBehind(was: Shared, pc: Pc, db: Shared, user: User, settings: bool, groups: bool, group: bool,
                        password: bool)
  {
    && ((Critical(pc) && !pc.PersistSettings?) || Committed(pc) ==> settings)
    && (pc.CreateUser? || pc.AddToGroup? || pc.ResetPassword? || PastAccount(pc) ==> groups)
    && (pc.ResetPassword? ==> group)
    && (PastAccount(pc) && user in was.accounts ==> group && password)
    && was.accounts <= db.accounts
  }

  lemma StepsOn(was: Shared, pc: Pc, db: Shared, r: RequestId, user: User, choice: Choice,
                settings: bool, groups: bool, group: bool, password: bool)
    requires StepsBehind(was, pc, db, user, settings, groups, group, password)
    ensures var (pc', db') := Next(pc, db, r, user, choice);
            StepsBehind(was, pc', db', user,
                        settings || (choice.Works? && pc == PersistSettings),
                        groups || (choice.Works? && pc == EnsureGroups),
                        group || (choice.Works? && pc == AddToGroup),
                        password || (choice.Works? && pc == ResetPassword))
  {
  }

  /** No step is skipped on the way to success: the settings were saved and the groups ensured, and an account that was
      there before has been put into the group and given the password. */
  lemma {:induction false} SuccessTookEveryStep(was: Shared, r: RequestId, user: User, choices: seq<Choice>)
    ensures var (pc, db) := Alone(was, r, user, choices);
            StepsBehind(was, pc, db, user,
                        Passed(was, r, user, choices, PersistSettings), Passed(was, r, user, choices, EnsureGroups),
                        Passed(was, r, user, choices, AddToGroup), Passed(was, r, user, choices, ResetPassword))
  {
    if choices != [] {
      var n := |choices| - 1;
      var before, choice := choices[..n], choices[n];
      SuccessTookEveryStep(was, r, user, before);
      assert choices == before + [choice];
      AloneNext(was, r, user, before, choice);
      PassedOn(was, r, user, before, choice, PersistSettings);
      PassedOn(was, r, user, before, choice, EnsureGroups);
      PassedOn(was, r, user, before, choice, AddToGroup);
      PassedOn(was, r, user, before, choice, ResetPassword);
      var (pc, db) := Alone(was, r, user, before);
      StepsOn(was, pc, db, r, user, choice,
              Passed(was, r, user, before, PersistSettings), Passed(was, r, user, before, EnsureGroups),
              Passed(was, r, user, before, AddToGroup), Passed(was, r, user, before, ResetPassword));
    }
  }

  /** After any attempt a fault-free retry ends with a usable admin, unless, and only unless, the attempt was blocked
      itself or it stranded the row. */
  lemma RetryAfterFailure(was: Shared, r: RequestId, user: User, choices: seq<Choice>,
                          q: RequestId, retryUser: User, retry: seq<Choice>)
    requires Alone(was, r, user, choices).0.Done?
    requires var now := Alone(was, r, user, choices).1;
             FaultFree(retry) && Alone(now, q, retryUser, retry).0.Done?
    ensures HasUsableAdmin(Alone(Alone(was, r, user, choices).1, q, retryUser, retry).1) <==>
              !(Stuck(was) || (was.admins == {} && HasStrandingFault(was, r, user, choices)))
  {
    StrandedExactly(was, r, user, choices);
    FaultFreeAttempt(Alone(was, r, user, choices).1, q, retryUser, retry);
  }

  /** The comment above the settings step says failing there is retryable. It is not on a clean database: the row
      stays, and a fault-free retry ends in a conflict without an admin. */
  lemma SettingsFailureIsNotRetryable(accounts: set<User>, r: RequestId, user: User, q: RequestId)
    ensures var clean := Shared(NoRow, {}, accounts);
            var choices := Script(6) + [Fails(false), Works("")];
            var (pc, after) := Alone(clean, r, user, choices);
            && pc == Done(Failed) && Stuck(after)
            && Alone(after, q, user, Script(7)).0 == Done(Conflict)
  {
    var clean := Shared(NoRow, {}, accounts);
    var after := clean.(row := OwnedBy(r));
    ScriptTo(clean, r, user, 6);
    AloneNext(clean, r, user, Script(6), Fails(false));
    AloneNext(clean, r, user, Script(6) + [Fails(false)], Works(""));
    assert Script(6) + [Fails(false)] + [Works("")] == Script(6) + [Fails(false), Works("")];
    ScriptTo(after, q, user, 7);
  }

  function Script(n: nat): seq<Choice> {
    seq(n, _ => Works(""))
  }

  lemma ScriptTo(db: Shared, r: RequestId, user: User, n: nat)
    requires db.admins == {} && n <= 7
    ensures Alone(db, r, user, Script(n)) == Straight(db, r, n)
  {
    if n > 0 {
      ScriptTo(db, r, user, n - 1);
      assert Script(n)[..n - 1] == Script(n - 1);
    }
  }

  /** The first operations of an attempt that finds no admins. */
  function Straight(db: Shared, r: RequestId, n: nat): (Pc, Shared)
    requires n <= 7
  {
    if n == 0 then (Idle, db)
    else if n == 1 then (CheckAdmins(false), db)
    else if n == 2 then (TryProcessLock, db)
    else if n == 3 then (CheckAdmins(true), db)
    else if n == 4 then (RecoverRead, db)
    else if n == 5 then (InsertRow, db)
    else if n == 6 then
      if db.row == NoRow then (PersistSettings, db.(row := OwnedBy(r))) else (LeaveLock(Conflict), db)
    else if db.row == NoRow then (EnsureGroups, db.(row := OwnedBy(r))) else (Done(Conflict), db)
  }

  // ---------- The code of an attempt ----------

  datatype Verdict = Yes | No | Raised

  /** Every operation that failed is one of those `fails` singles out. */
  ghost predicate FailsOnlyWhere(fails: Pc -> bool, was: Shared, r: RequestId, user: User, log: seq<Choice>) {
    forall k :: 0 <= k < |log| && log[k].Fails? ==> fails(Alone(was, r, user, log[..k]).0)
  }

  /** The request handler with the database, the host and its process's lock as fields. The ghost `log` records how
      each operation went, and `Here` says where the protocol's request is after the operations logged so far. */
  class Attempt {
    const r: RequestId
    const username: User
    const fails: Pc -> bool
    const partial: bool
    var db: Shared
    var initLock: bool
    ghost const was: Shared
    ghost var log: seq<Choice>

    constructor (r: RequestId, username: User, db: Shared, initLock: bool, fails: Pc -> bool, partial: bool)
      ensures this.r == r && this.username == username && this.fails == fails && this.partial == partial
      ensures this.db == db && was == db && this.initLock == initLock && Here(Idle) && log == []
    {
      this.r, this.username, this.fails, this.partial := r, username, fails, partial;
      this.db, this.initLock, was, log := db, initLock, db, [];
    }

    ghost predicate Here(pc: Pc)
      reads this
    {
      Alone(was, r, username, log) == (pc, db) && FailsOnlyWhere(fails, was, r, username, log)
    }

    ghost method Note(pc: Pc, before: Shared, choice: Choice, next: Pc)
      requires Alone(was, r, username, log) == (pc, before) && FailsOnlyWhere(fails, was, r, username, log)
      requires choice.Fails? ==> fails(pc)
      requires Next(pc, before, r, username, choice) == (next, db)
      modifies this`log
      ensures Here(next)
    {
      AloneNext(was, r, username, log, choice);
      assert forall k :: 0 <= k < |log| ==> (log + [choice])[..k] == log[..k];
      assert (log + [choice])[..|log|] == log;
      log := log + [choice];
    }

    /** When another request of the process holds its lock, the answer is "conflict" unless the first check already
        gives one. */
    method InitializeSystem() returns (outcome: Outcome)
      requires Here(Idle)
      modifies this`db, this`initLock, this`log
      ensures initLock == old(initLock)
      ensures !initLock ==> Here(Done(outcome))
      ensures initLock ==> db == old(db)
      ensures initLock ==> Here(if outcome == Conflict then TryProcessLock else Done(outcome))
    {
      Note(Idle, db, Works(""), CheckAdmins(false));
      var initialized := IsSetupInitialized(false);
      if initialized == Raised {
        return Failed;
      } else if initialized == Yes {
        return AlreadyInitialized;
      }
      if initLock {
        return Conflict;
      }
      initLock := true;
      Note(TryProcessLock, db, Works(""), CheckAdmins(true));
      outcome := InitializeUnderLock();
      initLock := false;
      Note(LeaveLock(outcome), db, Works(""), Done(outcome));
    }

    method InitializeUnderLock() returns (outcome: Outcome)
      requires Here(CheckAdmins(true))
      modifies this`db, this`log
      ensures Here(LeaveLock(outcome))
    {
      var initialized := IsSetupInitialized(true);
      if initialized == Raised {
        return Failed;
      } else if initialized == Yes {
        return AlreadyInitialized;
      }
      var recovered := RecoverStaleInitLock();
      if !recovered {
        return Failed;
      }
      outcome := DoInitialize();
    }

    method IsSetupInitialized(again: bool) returns (v: Verdict)
      requires Here(CheckAdmins(again))
      modifies this`log
      ensures v == Raised ==> Here(if again then LeaveLock(Failed) else Done(Failed))
      ensures v == Yes ==> Here(if again then LeaveLock(AlreadyInitialized) else Done(AlreadyInitialized))
      ensures v == No ==> Here(NotInitialized(again))
    {
      ghost var left := if again then LeaveLock(Failed) else Done(Failed);
      if fails(CheckAdmins(again)) {
        Note(CheckAdmins(again), db, Fails(false), left);
        return Raised;
      }
      if db.admins == {} {
        Note(CheckAdmins(again), db, Works(""), NotInitialized(again));
        return No;
      }
      Note(CheckAdmins(again), db, Works(""), ReadNames(again));
      if fails(ReadNames(again)) {
        Note(ReadNames(again), db, Fails(false), left);
        return Raised;
      }
      var adminUsernames := db.admins;
      Note(ReadNames(again), db, Works(""), Lookup(again, adminUsernames, false));
      v := IsInitializedByOsState(again, adminUsernames);
    }

    method IsInitializedByOsState(again: bool, adminUsernames: set<User>) returns (v: Verdict)
      requires Here(Lookup(again, adminUsernames, false))
      modifies this`log
      ensures v == Yes ==> Here(if again then LeaveLock(AlreadyInitialized) else Done(AlreadyInitialized))
      ensures v == No ==> Here(NotInitialized(again))
      ensures v != Raised
    {
      ghost var left := if again then LeaveLock(AlreadyInitialized) else Done(AlreadyInitialized);
      var todo, existing := adminUsernames, false;
      while todo != {}
        invariant Here(Lookup(again, todo, existing))
      {
        var username :| username in todo;
        if fails(Lookup(again, todo, existing)) {
          Note(Lookup(again, todo, existing), db, Fails(false), left);
          return Yes;
        }
        ghost var pc := Lookup(again, todo, existing);
        existing := existing || username in db.accounts;
        todo := todo - {username};
        Note(pc, db, Works(username), Lookup(again, todo, existing));
      }
      Note(Lookup(again, {}, existing), db, Works(""), if existing then left else NotInitialized(again));
      v := if existing then Yes else No;
    }

    method RecoverStaleInitLock() returns (ok: bool)
      requires Here(RecoverRead)
      modifies this`db, this`log
      ensures Here(if ok then InsertRow else LeaveLock(Failed))
    {
      if fails(RecoverRead) {
        Note(RecoverRead, db, Fails(false), LeaveLock(Failed));
        return false;
      }
      if db.admins == {} {
        Note(RecoverRead, db, Works(""), InsertRow);
        return true;
      }
      Note(RecoverRead, db, Works(""), RecoverDelete);
      if fails(RecoverDelete) {
        Note(RecoverDelete, db, Fails(false), LeaveLock(Failed));
        return false;
      }
      ghost var before := db;
      db := db.(row := NoRow);
      Note(RecoverDelete, before, Works(""), InsertRow);
      ok := true;
    }

    method DoInitialize() returns (outcome: Outcome)
      requires Here(InsertRow)
      modifies this`db, this`log
      ensures Here(LeaveLock(outcome))
    {
      if fails(InsertRow) {
        Note(InsertRow, db, Fails(false), LeaveLock(Failed));
        return Failed;
      }
      if db.row != NoRow {
        Note(InsertRow, db, Works(""), LeaveLock(Conflict));
        return Conflict;
      }
      ghost var before := db;
      db := db.(row := OwnedBy(r));
      Note(InsertRow, before, Works(""), PersistSettings);
      outcome := InitializeAsOwner();
    }

    /** The part of `_do_initialize` after the row is committed. */
    method InitializeAsOwner() returns (outcome: Outcome)
      requires Here(PersistSettings)
      modifies this`db, this`log
      ensures Here(LeaveLock(outcome))
    {
      if fails(PersistSettings) {
        Note(PersistSettings, db, Fails(false), LeaveLock(Failed));
        return Failed;
      }
      Note(PersistSettings, db, Works(""), EnsureGroups);
      var ok := RunOsSetup();
      if ok {
        ok := SeedAdminRole();
      }
      if !ok {
        ReleaseInitLock();
        return Failed;
      }
      Note(Audit, db, Works(""), LeaveLock(Initialized));
      outcome := Initialized;
    }

    method RunOsSetup() returns (ok: bool)
      requires Here(EnsureGroups)
      modifies this`db, this`log
      ensures Here(if ok then SeedRole else ReleaseRow)
    {
      if fails(EnsureGroups) {
        Note(EnsureGroups, db, Fails(false), ReleaseRow);
        return false;
      }
      Note(EnsureGroups, db, Works(""), CreateUser);
      ghost var before := db;
      if fails(CreateUser) {
        if partial {
          db := db.(accounts := db.accounts + {username});
        }
        Note(CreateUser, before, Fails(partial), ReleaseRow);
        return false;
      }
      if username !in db.accounts {
        db := db.(accounts := db.accounts + {username});
        Note(CreateUser, before, Works(""), SeedRole);
        return true;
      }
      Note(CreateUser, db, Works(""), AddToGroup);
      ok := ReconcileExistingUser();
    }

    method ReconcileExistingUser() returns (ok: bool)
      requires Here(AddToGroup)
      modifies this`log
      ensures Here(if ok then SeedRole else ReleaseRow)
    {
      if fails(AddToGroup) {
        Note(AddToGroup, db, Fails(false), ReleaseRow);
        return false;
      }
      Note(AddToGroup, db, Works(""), ResetPassword);
      if fails(ResetPassword) {
        Note(ResetPassword, db, Fails(false), ReleaseRow);
        return false;
      }
      Note(ResetPassword, db, Works(""), SeedRole);
      ok := true;
    }

    method SeedAdminRole() returns (ok: bool)
      requires Here(SeedRole)
      modifies this`db, this`log
      ensures Here(if ok then Audit else ReleaseRow)
    {
      if fails(SeedRole) {
        Note(SeedRole, db, Fails(false), ReleaseRow);
        return false;
      }
      ghost var before := db;
      db := db.(admins := db.admins + {username});
      Note(SeedRole, before, Works(""), Audit);
      ok := true;
    }

    method ReleaseInitLock()
      requires Here(ReleaseRow)
      modifies this`db, this`log
      ensures Here(LeaveLock(Failed))
    {
      if fails(ReleaseRow) {
        Note(ReleaseRow, db, Fails(false), LeaveLock(Failed));
        return;
      }
      ghost var before := db;
      db := db.(row := NoRow);
      Note(ReleaseRow, before, Works(""), LeaveLock(Failed));
    }
  }

  /** The whole request: what the code achieves when nothing fails, what success means, and which failures can
      leave a stuck row. */
  method HandleRequest(r: RequestId, username: User, db: Shared, fails: Pc -> bool, partial: bool)
    returns (outcome: Outcome, after: Shared)
    ensures (forall at :: !fails(at)) ==> (HasUsableAdmin(after) <==> !Stuck(db))
    ensures outcome == Initialized ==> username in after.admins && username in after.accounts
    ensures !Stuck(db) && Stuck(after) ==> db.admins == {} && outcome == Failed
    ensures !Stuck(db) && Stuck(after) ==> exists at :: fails(at) && (at == PersistSettings || at == ReleaseRow)
  {
    var attempt := new Attempt(r, username, db, false, fails, partial);
    outcome := attempt.InitializeSystem();
    after := attempt.db;
    ghost var log := attempt.log;
    SuccessMeansUsable(db, r, username, log);
    if forall at :: !fails(at) {
      FaultFreeAttempt(db, r, username, log);
    }
    if !Stuck(db) {
      AloneOnFaultyTrack(db, r, username, log);
    }
  }
}
