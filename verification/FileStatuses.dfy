/** The export-file rows of `app/repositories/job_repository.py`: SQL conditions with NULLs, the continuation
    decision, the bulk resets, and completed files against the assignments' file counts. */
module FileStatuses {
  import opened CopyProgress
  import opened Options
  import opened Sequences

  type JobId = int

  datatype FileStatus = PENDING | COPYING | DONE | ERROR | RETRYING | TIMEOUT

  const TARGET_FULL := "Target storage is full"

  /** A row; nullable columns are options. */
  datatype ExportFile = ExportFile(
    jobId: JobId,
    status: Option<FileStatus>,
    message: Option<string>,
    retryAttempts: int,
    assignment: Option<AssignmentId>
  )

  // ---------- Three-valued conditions ----------

  datatype Tri = True | False | Unknown

  function Eq<V(==)>(column: Option<V>, value: V): Tri {
    if column.None? then Unknown else if column.value == value then True else False
  }

  function In<V(==)>(column: Option<V>, values: set<V>): Tri {
    if column.None? then Unknown else if column.value in values then True else False
  }

  function Not(a: Tri): Tri {
    match a case True => False case False => True case Unknown => Unknown
  }

  function And(a: Tri, b: Tri): Tri {
    if a == False || b == False then False else if a == True && b == True then True else Unknown
  }

  function Or(a: Tri, b: Tri): Tri {
    if a == True || b == True then True else if a == False && b == False then False else Unknown
  }

  /** WHERE keeps the rows for which the condition is true; unknown is not enough. */
  function Where(files: seq<ExportFile>, condition: ExportFile -> Tri): seq<ExportFile> {
    Filter(files, (f: ExportFile) => condition(f) == True)
  }

  lemma WhereIsEmptyOrNot(files: seq<ExportFile>, condition: ExportFile -> Tri)
    ensures Where(files, condition) != [] <==> exists f :: f in files && condition(f) == True
  {
    if files != [] {
      WhereIsEmptyOrNot(files[1..], condition);
      assert files == [files[0]] + files[1..];
    }
  }

  // ---------- The continuation decision, twice ----------

  function OfJob(job: JobId, f: ExportFile): Tri {
    if f.jobId == job then True else False
  }

  function Incomplete(job: JobId, f: ExportFile): Tri {
    And(OfJob(job, f), Not(Eq(f.status, DONE)))
  }

  function InFlight(f: ExportFile): Tri {
    In(f.status, {PENDING, COPYING, RETRYING})
  }

  function TargetFull(f: ExportFile): Tri {
    And(Eq(f.status, ERROR), Eq(f.message, TARGET_FULL))
  }

  /** `should_attempt_target_full_continuation`: three queries. */
  function DecideInSql(files: seq<ExportFile>, job: JobId): bool {
    if Where(files, f => Incomplete(job, f)) == [] then false
    else if Where(files, f => And(OfJob(job, f), TargetFull(f))) == [] then false
    else Where(files, f => And(Incomplete(job, f), Not(Or(InFlight(f), TargetFull(f))))) == []
  }

  /** `list_incomplete_by_job` followed by `_should_attempt_target_full_continuation` of the copy engine. */
  predicate DecideInMemory(files: seq<ExportFile>, job: JobId) {
    var incomplete := Where(files, f => Incomplete(job, f));
    && incomplete != []
    && (exists f :: f in incomplete && OverflowRetryable(f))
    && (forall f :: f in incomplete ==> Compatible(f))
  }

  predicate OverflowRetryable(f: ExportFile) {
    f.status == Some(ERROR) && f.message == Some(TARGET_FULL)
  }

  predicate Compatible(f: ExportFile) {
    f.status in {Some(PENDING), Some(COPYING), Some(RETRYING)} || OverflowRetryable(f)
  }

  /** A failed row without a message: no comparison with the message is true or false of it. */
  predicate FailedWithoutMessage(f: ExportFile) {
    f.status == Some(ERROR) && f.message == None
  }

  predicate Unfinished(job: JobId, f: ExportFile) {
    f.jobId == job && f.status.Some? && f.status != Some(DONE)
  }

  lemma WhereMembers(files: seq<ExportFile>, condition: ExportFile -> Tri)
    ensures forall f :: f in Where(files, condition) <==> f in files && condition(f) == True
  {
    if files != [] {
      WhereMembers(files[1..], condition);
      assert files == [files[0]] + files[1..];
    }
  }

  /** What the queries decide: some unfinished row is a target-full failure, and every other one is in flight, a
      target-full failure too, or a failure without a message. */
  lemma SqlDecision(files: seq<ExportFile>, job: JobId)
    ensures DecideInSql(files, job) <==>
              && (exists f :: f in files && Unfinished(job, f) && OverflowRetryable(f))
              && (forall f :: f in files && Unfinished(job, f) ==> Compatible(f) || FailedWithoutMessage(f))
  {
    var c1 := (f: ExportFile) => Incomplete(job, f);
    var c2 := (f: ExportFile) => And(OfJob(job, f), TargetFull(f));
    var c3 := (f: ExportFile) => And(Incomplete(job, f), Not(Or(InFlight(f), TargetFull(f))));
    WhereIsEmptyOrNot(files, c1);
    WhereIsEmptyOrNot(files, c2);
    WhereIsEmptyOrNot(files, c3);
    forall f: ExportFile
      ensures c1(f) == True <==> Unfinished(job, f)
      ensures c2(f) == True <==> Unfinished(job, f) && OverflowRetryable(f)
      ensures c3(f) == True <==> Unfinished(job, f) && !Compatible(f) && !FailedWithoutMessage(f)
    {
    }
  }

  lemma InMemoryDecision(files: seq<ExportFile>, job: JobId)
    ensures DecideInMemory(files, job) <==>
              && (exists f :: f in files && Unfinished(job, f) && OverflowRetryable(f))
              && (forall f :: f in files && Unfinished(job, f) ==> Compatible(f))
  {
    WhereMembers(files, f => Incomplete(job, f));
    forall f: ExportFile ensures Incomplete(job, f) == True <==> Unfinished(job, f) {
    }
  }

  /** The two decisions agree exactly unless the unfinished rows hold both a target-full failure and a failure
      without a message, and nothing else that is not in flight. */
  lemma DecisionsAgreeExactly(files: seq<ExportFile>, job: JobId)
    ensures DecideInSql(files, job) == DecideInMemory(files, job) <==>
              !(&& (exists f :: f in files && Unfinished(job, f) && OverflowRetryable(f))
                && (exists f :: f in files && Unfinished(job, f) && FailedWithoutMessage(f))
                && (forall f :: f in files && Unfinished(job, f) ==> Compatible(f) || FailedWithoutMessage(f)))
  {
    SqlDecision(files, job);
    InMemoryDecision(files, job);
  }

  /** The smallest table on which they differ: the queries go on, the copy engine does not. */
  lemma DecisionsCanDiffer(job: JobId)
    ensures var files := [ExportFile(job, Some(ERROR), Some(TARGET_FULL), 0, None),
                          ExportFile(job, Some(ERROR), None, 0, None)];
            DecideInSql(files, job) && !DecideInMemory(files, job)
  {
    var full, bare := ExportFile(job, Some(ERROR), Some(TARGET_FULL), 0, None),
                      ExportFile(job, Some(ERROR), None, 0, None);
    SqlDecision([full, bare], job);
    InMemoryDecision([full, bare], job);
    assert full in [full, bare] && bare in [full, bare];
    assert Unfinished(job, full) && OverflowRetryable(full) && Unfinished(job, bare) && !Compatible(bare);
  }

  // ---------- Bulk resets ----------

  datatype Reset = RetryFailed | RestartNonDone | RetryTargetFull

  function Selects(reset: Reset, job: JobId, f: ExportFile): Tri {
    match reset
    case RetryFailed => And(OfJob(job, f), In(f.status, {ERROR, TIMEOUT}))
    case RestartNonDone => And(OfJob(job, f), Not(Eq(f.status, DONE)))
    case RetryTargetFull => And(OfJob(job, f), TargetFull(f))
  }

  /** Which rows each reset selects, by their status and message. */
  lemma SelectedRows(reset: Reset, job: JobId, f: ExportFile)
    ensures Selects(reset, job, f) == True <==>
              && f.jobId == job
              && match reset
                 case RetryFailed => f.status == Some(ERROR) || f.status == Some(TIMEOUT)
                 case RestartNonDone => f.status.Some? && f.status != Some(DONE)
                 case RetryTargetFull => f.status == Some(ERROR) && f.message == Some("Target storage is full")
  {
  }

  function ResetRow(reset: Reset, f: ExportFile): ExportFile {
    var g := f.(status := Some(PENDING), retryAttempts := 0, message := None);
    if reset == RetryTargetFull then g.(assignment := None) else g
  }

  /** One UPDATE statement: the rows afterwards and the number rewritten. */
  function ApplyReset(reset: Reset, job: JobId, files: seq<ExportFile>): (seq<ExportFile>, nat) {
    if files == [] then ([], 0)
    else
      var (rest, n) := ApplyReset(reset, job, files[1..]);
      if Selects(reset, job, files[0]) == True then ([ResetRow(reset, files[0])] + rest, n + 1)
      else ([files[0]] + rest, n)
  }

  /** Every reset keeps the rows of other jobs and the finished rows as they are, row by row; a row it does change
      is pending again with a clean slate, and only the target-full reset takes it off its assignment; and the number
      returned is the number of rows it selected. */
  lemma {:induction false} ResetEffect(reset: Reset, job: JobId, files: seq<ExportFile>)
    ensures var (after, n) := ApplyReset(reset, job, files);
            && |after| == |files|
            && n == |Where(files, f => Selects(reset, job, f))|
            && (forall i :: 0 <= i < |files| ==>
                  if Selects(reset, job, files[i]) == True
                  then after[i].status == Some(PENDING) && after[i].message == None && after[i].retryAttempts == 0
                       && after[i].jobId == job && Unfinished(job, files[i])
                       && after[i].assignment == (if reset == RetryTargetFull then None else files[i].assignment)
                  else after[i] == files[i])
  {
    if files != [] {
      ResetEffect(reset, job, files[1..]);
    }
  }

  /** The failed rows a reset is for are all gone afterwards: repeating it rewrites nothing, except that a restart
      rewrites every unfinished row each time. */
  lemma {:induction false} ResetTwice(reset: Reset, job: JobId, files: seq<ExportFile>)
    ensures var (after, n) := ApplyReset(reset, job, files);
            var (again, m) := ApplyReset(reset, job, after);
            again == after && m == if reset == RestartNonDone then n else 0
  {
    if files != [] {
      ResetTwice(reset, job, files[1..]);
      var (rest, _) := ApplyReset(reset, job, files[1..]);
      var (after, _) := ApplyReset(reset, job, files);
      assert after[1..] == rest;
    }
  }

  /** Right after the target-full rows are reset there is nothing to continue for. */
  lemma NoContinuationAfterReset(job: JobId, files: seq<ExportFile>)
    ensures !DecideInSql(ApplyReset(RetryTargetFull, job, files).0, job)
  {
    var (after, _) := ApplyReset(RetryTargetFull, job, files);
    ResetEffect(RetryTargetFull, job, files);
    SqlDecision(after, job);
    forall f | f in after ensures !(Unfinished(job, f) && OverflowRetryable(f)) {
      var i :| 0 <= i < |after| && after[i] == f;
      assert Selects(RetryTargetFull, job, files[i]) == True || after[i] == files[i];
    }
  }

  // ---------- Finished files against file counts ----------

  function IsDoneOn(a: AssignmentId): ExportFile -> bool {
    (f: ExportFile) => f.status == Some(DONE) && f.assignment == Some(a)
  }

  /** The rows finished on an assignment. */
  function DoneOn(files: seq<ExportFile>, a: AssignmentId): nat {
    |Filter(files, IsDoneOn(a))|
  }

  lemma DoneOnAppend(x: seq<ExportFile>, y: seq<ExportFile>, a: AssignmentId)
    ensures DoneOn(x + y, a) == DoneOn(x, a) + DoneOn(y, a)
  {
    FilterAppend(x, y, IsDoneOn(a));
  }

  lemma DoneOnUpdate(files: seq<ExportFile>, i: nat, g: ExportFile, a: AssignmentId)
    requires i < |files|
    ensures DoneOn(files[i := g], a)
         == DoneOn(files, a) - (if IsDoneOn(a)(files[i]) then 1 else 0) + (if IsDoneOn(a)(g) then 1 else 0)
  {
    assert files == files[..i] + ([files[i]] + files[i + 1..]);
    assert files[i := g] == files[..i] + ([g] + files[i + 1..]);
    DoneOnAppend(files[..i], [files[i]] + files[i + 1..], a);
    DoneOnAppend(files[..i], [g] + files[i + 1..], a);
    DoneOnAppend([files[i]], files[i + 1..], a);
    DoneOnAppend([g], files[i + 1..], a);
  }

  lemma {:induction false} ResetKeepsDone(reset: Reset, job: JobId, files: seq<ExportFile>, a: AssignmentId)
    ensures DoneOn(ApplyReset(reset, job, files).0, a) == DoneOn(files, a)
  {
    if files != [] {
      ResetKeepsDone(reset, job, files[1..], a);
      var (rest, _) := ApplyReset(reset, job, files[1..]);
      var (after, _) := ApplyReset(reset, job, files);
      DoneOnAppend([after[0]], rest, a);
      DoneOnAppend([files[0]], files[1..], a);
      assert after == [after[0]] + rest && files == [files[0]] + files[1..];
    }
  }

  datatype Table = Table(files: seq<ExportFile>, fileCounts: map<AssignmentId, int>)

  /** What happens to a job's rows: a copy is saved as completed, a row that is not finished is rewritten to another
      unfinished state by a worker, or a bulk reset runs. */
  datatype Op =
    | SaveCompleted(i: nat, assignment: Option<AssignmentId>)
    | Work(i: nat, row: ExportFile)
    | Bulk(reset: Reset, job: JobId)

  function Completed(f: ExportFile, assignment: Option<AssignmentId>): ExportFile {
    f.(status := Some(DONE), assignment := assignment)
  }

  function Apply(t: Table, op: Op): Table {
    match op
    case SaveCompleted(i, assignment) =>
      if i >= |t.files| then t
      else Table(t.files[i := Completed(t.files[i], assignment)],
                 if assignment.Some? && assignment.value in t.fileCounts
                 then t.fileCounts[assignment.value := t.fileCounts[assignment.value] + 1] else t.fileCounts)
    case Work(i, row) => if i >= |t.files| then t else t.(files := t.files[i := row])
    case Bulk(reset, job) => t.(files := ApplyReset(reset, job, t.files).0)
  }

  function ApplyAll(t: Table, ops: seq<Op>): Table {
    if ops == [] then t else Apply(ApplyAll(t, ops[..|ops| - 1]), ops[|ops| - 1])
  }

  /** Each assignment's file count is the number of rows finished on it. */
  ghost predicate Consistent(t: Table) {
    forall a :: a in t.fileCounts ==> t.fileCounts[a] == DoneOn(t.files, a)
  }

  /** Saving a completed copy keeps the counts right exactly when the row was not already finished on an assignment
      that is still there. */
  lemma SaveCompletedExactly(t: Table, i: nat, assignment: Option<AssignmentId>)
    requires Consistent(t) && i < |t.files|
    ensures Consistent(Apply(t, SaveCompleted(i, assignment))) <==>
              !(t.files[i].status == Some(DONE) && t.files[i].assignment.Some?
                && t.files[i].assignment.value in t.fileCounts)
  {
    var next := Apply(t, SaveCompleted(i, assignment));
    forall a | a in t.fileCounts
      ensures DoneOn(next.files, a) == DoneOn(t.files, a) - (if IsDoneOn(a)(t.files[i]) then 1 else 0)
                                       + (if assignment == Some(a) then 1 else 0)
    {
      DoneOnUpdate(t.files, i, Completed(t.files[i], assignment), a);
    }
    if t.files[i].status == Some(DONE) && t.files[i].assignment.Some? && t.files[i].assignment.value in t.fileCounts {
      var b := t.files[i].assignment.value;
      assert IsDoneOn(b)(t.files[i]);
      assert next.fileCounts[b] == DoneOn(next.files, b) + 1;
    }
  }

  /** Completions are saved only for rows not yet finished, and workers leave finished rows alone. */
  predicate Proper(t: Table, op: Op) {
    match op
    case SaveCompleted(i, _) => i < |t.files| && t.files[i].status != Some(DONE)
    case Work(i, row) => i < |t.files| && t.files[i].status != Some(DONE) && row.status != Some(DONE)
    case Bulk(_, _) => true
  }

  ghost predicate ProperRun(t: Table, ops: seq<Op>) {
    forall k :: 0 <= k < |ops| ==> Proper(ApplyAll(t, ops[..k]), ops[k])
  }

  lemma ProperKeepsConsistent(t: Table, op: Op)
    requires Consistent(t) && Proper(t, op)
    ensures Consistent(Apply(t, op))
  {
    match op
    case SaveCompleted(i, assignment) => SaveCompletedExactly(t, i, assignment);
    case Work(i, row) =>
      forall a | a in t.fileCounts ensures DoneOn(Apply(t, op).files, a) == DoneOn(t.files, a) {
        DoneOnUpdate(t.files, i, row, a);
      }
    case Bulk(reset, job) =>
      forall a | a in t.fileCounts ensures DoneOn(Apply(t, op).files, a) == DoneOn(t.files, a) {
        ResetKeepsDone(reset, job, t.files, a);
      }
  }

  /** Over whole runs of completions, worker updates and resets in any order, every assignment's file count stays
      the number of rows finished on it. */
  lemma {:induction false} FileCountsStayRight(t: Table, ops: seq<Op>)
    requires Consistent(t) && ProperRun(t, ops)
    ensures Consistent(ApplyAll(t, ops))
  {
    if ops != [] {
      var n := |ops| - 1;
      forall k | 0 <= k < n ensures ops[..n][..k] == ops[..k] && Proper(ApplyAll(t, ops[..n][..k]), ops[..n][k]) {
        assert ops[..n][..k] == ops[..k];
      }
      FileCountsStayRight(t, ops[..n]);
      ProperKeepsConsistent(ApplyAll(t, ops[..n]), ops[n]);
    }
  }

  // ---------- The repository ----------

  /** `FileRepository` over the file rows and the assignments' file counts. */
  class FileRepository {
    var files: seq<ExportFile>
    var fileCounts: map<AssignmentId, int>

    constructor (files: seq<ExportFile>, fileCounts: map<AssignmentId, int>)
      ensures State() == Table(files, fileCounts)
    {
      this.files, this.fileCounts := files, fileCounts;
    }

    function State(): Table
      reads this
    {
      Table(files, fileCounts)
    }

    /** Persists a row its caller has set to DONE, together with the count, or neither. */
    method SaveCompletedCopy(i: nat, assignment: Option<AssignmentId>, commits: bool) returns (ok: bool)
      requires i < |files|
      modifies this
      ensures ok == commits
      ensures State() == if ok then Apply(old(State()), SaveCompleted(i, assignment)) else old(State())
      ensures ok && old(files[i]).status != Some(DONE) && Consistent(old(State())) ==> Consistent(State())
    {
      if !commits {
        return false;
      }
      ghost var before := State();
      files := files[i := Completed(files[i], assignment)];
      if assignment.Some? && assignment.value in fileCounts {
        fileCounts := fileCounts[assignment.value := fileCounts[assignment.value] + 1];
      }
      if Consistent(before) {
        SaveCompletedExactly(before, i, assignment);
      }
      ok := true;
    }

    method ResetFiles(reset: Reset, job: JobId) returns (updated: nat)
      modifies this`files
      ensures State() == Apply(old(State()), Bulk(reset, job))
      ensures updated == |Where(old(files), f => Selects(reset, job, f))|
      ensures Consistent(old(State())) ==> Consistent(State())
    {
      ghost var before := State();
      ResetEffect(reset, job, files);
      var (rows, n) := ApplyReset(reset, job, files);
      files, updated := rows, n;
      if Consistent(before) {
        ProperKeepsConsistent(before, Bulk(reset, job));
      }
    }
  }
}
