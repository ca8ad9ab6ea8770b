/** Copy-progress accounting: the aggregated writer of `app/services/copy_engine.py` over the counter columns that
    `app/repositories/job_repository.py` updates for one job and its drive assignments. */
module CopyProgress {
  import opened Options
  import opened ProgressCounters

  datatype AssignmentId = AssignmentId(key: int)

  /** The committed columns and what the writer still holds back. */
  datatype Ledger = Ledger(
    jobBytes: int,
    bytes: map<AssignmentId, int>,
    fileCounts: map<AssignmentId, int>,
    pendingJob: int,
    pendingBytes: map<AssignmentId, int>,
    pendingFiles: map<AssignmentId, int>
  )

  datatype Event =
    | Record(assignment: Option<AssignmentId>, delta: int)
    | Complete(assignment: Option<AssignmentId>, files: nat)
    | Flush(commits: bool)

  function Pending(pending: map<AssignmentId, int>, a: AssignmentId): int {
    if a in pending then pending[a] else 0
  }

  /** Every row a batch mentions is bumped by its delta; mentions of rows that do not exist change nothing. */
  function BumpEach(column: map<AssignmentId, int>, deltas: map<AssignmentId, int>): map<AssignmentId, int> {
    map a | a in column :: if a in deltas then Bump(column[a], deltas[a]) else column[a]
  }

  function Next(l: Ledger, e: Event): Ledger {
    match e
    case Record(Some(a), delta) =>
      if delta == 0 then l
      else l.(pendingJob := l.pendingJob + delta,
              pendingBytes := l.pendingBytes[a := Pending(l.pendingBytes, a) + delta])
    case Record(None, delta) => l.(pendingJob := l.pendingJob + delta)
    case Complete(Some(a), files) =>
      if files == 0 then l else l.(pendingFiles := l.pendingFiles[a := Pending(l.pendingFiles, a) + files])
    case Complete(None, _) => l
    case Flush(commits) =>
      if !commits then l
      else Ledger(Bump(l.jobBytes, l.pendingJob), BumpEach(l.bytes, l.pendingBytes),
                  BumpEach(l.fileCounts, l.pendingFiles), 0, map[], map[])
  }

  function Run(l: Ledger, events: seq<Event>): Ledger {
    if events == [] then l else Next(Run(l, events[..|events| - 1]), events[|events| - 1])
  }

  // ---------- Conservation over whole runs ----------

  /** What a run recorded for one assignment. */
  function Credit(events: seq<Event>, a: AssignmentId): int {
    if events == [] then 0
    else
      Credit(events[..|events| - 1], a) + Recorded(events[|events| - 1], Some(a))
  }

  /** What a run recorded without naming an assignment. */
  function Unassigned(events: seq<Event>): int {
    if events == [] then 0
    else
      Unassigned(events[..|events| - 1]) + Recorded(events[|events| - 1], None)
  }

  function Completions(events: seq<Event>, a: AssignmentId): nat {
    if events == [] then 0
    else
      var last := events[|events| - 1];
      Completions(events[..|events| - 1], a) + if last.Complete? && last.assignment == Some(a) then last.files else 0
  }

  /** Records name assignments that have a row. */
  predicate NamesRows(l: Ledger, e: Event) {
    (e.Record? || e.Complete?) && e.assignment.Some? ==>
      e.assignment.value in l.bytes && e.assignment.value in l.fileCounts
  }

  /** When a flush commits, no more has been rolled back, for an assignment or without one, than was there and recorded.
      Between flushes anything may be overdrawn. */
  ghost predicate NeverOverdrawn(l: Ledger, unassigned: int, events: seq<Event>) {
    forall k :: 0 <= k < |events| && events[k] == Flush(true) ==>
      && unassigned + Unassigned(events[..k]) >= 0
      && forall a :: a in l.bytes ==> l.bytes[a] + Credit(events[..k], a) >= 0
  }

  predicate Idle(l: Ledger) {
    l.pendingJob == 0 && l.pendingBytes == map[] && l.pendingFiles == map[]
  }

  /** Committed and pending bytes of each assignment together. */
  function Accounts(l: Ledger): map<AssignmentId, int> {
    map a | a in l.bytes :: l.bytes[a] + Pending(l.pendingBytes, a)
  }

  /** The job's bytes are those of its assignments and the unassigned ones, committed and pending together. */
  ghost predicate Balanced(l: Ledger, unassigned: int) {
    && l.pendingBytes.Keys <= l.bytes.Keys
    && l.jobBytes + l.pendingJob == Total(l.bytes.Keys, Accounts(l)) + unassigned
  }

  /** Nothing is overdrawn right now. */
  ghost predicate Covered(l: Ledger, unassigned: int) {
    unassigned >= 0 && forall a :: a in l.bytes ==> Accounts(l)[a] >= 0
  }

  lemma {:induction false} TotalNotNegative<K>(rows: set<K>, column: map<K, int>)
    requires rows <= column.Keys && forall r :: r in rows ==> column[r] >= 0
    ensures Total(rows, column) >= 0
    decreases |rows|
  {
    if rows != {} {
      var r :| r in rows;
      TotalWithout(rows, column, r);
      TotalNotNegative(rows - {r}, column);
    }
  }

  lemma RecordKeepsBalance(l: Ledger, unassigned: int, a: AssignmentId, delta: int)
    requires Balanced(l, unassigned) && a in l.bytes
    ensures Balanced(Next(l, Record(Some(a), delta)), unassigned)
    ensures Accounts(Next(l, Record(Some(a), delta))) == Accounts(l)[a := Accounts(l)[a] + delta]
  {
    assert Accounts(Next(l, Record(Some(a), delta))) == Accounts(l)[a := Accounts(l)[a] + delta];
    assert Accounts(l).Keys == l.bytes.Keys;
    TotalUpdate(Accounts(l), a, Accounts(l)[a] + delta);
  }

  lemma FlushKeepsBalance(l: Ledger, unassigned: int)
    requires Balanced(l, unassigned) && Covered(l, unassigned)
    ensures Balanced(Next(l, Flush(true)), unassigned)
    ensures Accounts(Next(l, Flush(true))) == Accounts(l)
  {
    var next := Next(l, Flush(true));
    TotalNotNegative(l.bytes.Keys, Accounts(l));
    forall a | a in l.bytes ensures next.bytes[a] == Accounts(l)[a] {
    }
    assert Accounts(next) == Accounts(l);
    assert next.bytes.Keys == l.bytes.Keys;
  }

  // ---------- Overdrafts ----------

  /** What a clamped update adds that was not in its delta. */
  function Overdraft(x: int, delta: int): (n: nat)
    ensures Bump(x, delta) == x + delta + n
  {
    if delta < 0 && x + delta < 0 then -(x + delta) else 0
  }

  /** The overdrafts of the assignments in the next flush. */
  function Overdrafts(l: Ledger): map<AssignmentId, int> {
    map a | a in l.bytes :: Overdraft(l.bytes[a], Pending(l.pendingBytes, a))
  }

  lemma {:induction false} TotalOfSum<K>(rows: set<K>, a: map<K, int>, b: map<K, int>, sum: map<K, int>)
    requires rows <= a.Keys && rows <= b.Keys && rows <= sum.Keys
    requires forall r :: r in rows ==> sum[r] == a[r] + b[r]
    ensures Total(rows, sum) == Total(rows, a) + Total(rows, b)
    decreases |rows|
  {
    if rows != {} {
      var r :| r in rows;
      TotalWithout(rows, a, r);
      TotalWithout(rows, b, r);
      TotalWithout(rows, sum, r);
      TotalOfSum(rows - {r}, a, b, sum);
    }
  }

  /** The next flush overdraws the job by as much as its assignments together. */
  ghost predicate EvenlyOverdrawn(l: Ledger) {
    Overdraft(l.jobBytes, l.pendingJob) == Total(l.bytes.Keys, Overdrafts(l))
  }

  /** A flush that commits keeps the balance if and only if the job is overdrawn by as much as its assignments together:
      they are clamped separately. */
  lemma FlushBalancesExactly(l: Ledger, unassigned: int)
    requires Balanced(l, unassigned)
    ensures Balanced(Next(l, Flush(true)), unassigned) <==> EvenlyOverdrawn(l)
  {
    var next := Next(l, Flush(true));
    assert next.bytes.Keys == l.bytes.Keys;
    assert Accounts(next) == next.bytes;
    forall a | a in l.bytes ensures next.bytes[a] == Accounts(l)[a] + Overdrafts(l)[a] {
      assert a in l.pendingBytes || Pending(l.pendingBytes, a) == 0;
    }
    TotalOfSum(l.bytes.Keys, Accounts(l), Overdrafts(l), next.bytes);
  }

  /** Rolling back one byte more than an assignment has takes it from the job alone. */
  lemma OverdraftUnbalances(a: AssignmentId)
    ensures var l := Ledger(1, map[a := 0], map[], 0, map[], map[]);
            var t := Run(l, [Record(Some(a), -1), Flush(true)]);
            Balanced(l, 1) && t.jobBytes == 0 && t.bytes == map[a := 0] && !Balanced(t, 1)
  {
    var l := Ledger(1, map[a := 0], map[], 0, map[], map[]);
    var events := [Record(Some(a), -1), Flush(true)];
    var next := Next(l, Record(Some(a), -1));
    assert events[..1] == [Record(Some(a), -1)] && events[..1][..0] == [];
    assert Run(l, events[..1]) == next;
    assert Run(l, events) == Next(next, Flush(true));
    assert next.pendingBytes == map[a := -1];
    var t := Next(next, Flush(true));
    assert Accounts(l) == map[a := 0] && Accounts(t) == map[a := 0] && t.bytes == map[a := 0];
    TotalWithout({a}, map[a := 0], a);
    assert {a} - {a} == {};
  }

  // ---------- Over whole runs ----------

  /** What one event recorded for an assignment, or without one. */
  function Recorded(e: Event, assignment: Option<AssignmentId>): int {
    if e.Record? && e.assignment == assignment then e.delta else 0
  }

  /** After the event the ledger balances again, with each assignment's account moved by what was recorded for it. */
  ghost predicate BalancedAfter(l: Ledger, unassigned: int, e: Event) {
    && Balanced(Next(l, e), unassigned + Recorded(e, None)) && Next(l, e).bytes.Keys == l.bytes.Keys
    && forall a :: a in l.bytes ==> Accounts(Next(l, e))[a] == Accounts(l)[a] + Recorded(e, Some(a))
  }

  lemma AssignedBalance(l: Ledger, unassigned: int, a: AssignmentId, delta: int)
    requires Balanced(l, unassigned) && a in l.bytes
    ensures BalancedAfter(l, unassigned, Record(Some(a), delta))
  {
    RecordKeepsBalance(l, unassigned, a, delta);
  }

  lemma UnassignedBalance(l: Ledger, unassigned: int, delta: int)
    requires Balanced(l, unassigned)
    ensures BalancedAfter(l, unassigned, Record(None, delta))
  {
    assert Accounts(Next(l, Record(None, delta))) == Accounts(l);
  }

  lemma CompleteBalance(l: Ledger, unassigned: int, a: Option<AssignmentId>, files: nat)
    requires Balanced(l, unassigned)
    ensures BalancedAfter(l, unassigned, Complete(a, files))
  {
    assert Accounts(Next(l, Complete(a, files))) == Accounts(l);
  }

  lemma FlushBalance(l: Ledger, unassigned: int, commits: bool)
    requires Balanced(l, unassigned) && (commits ==> Covered(l, unassigned))
    ensures BalancedAfter(l, unassigned, Flush(commits))
  {
    if commits {
      FlushKeepsBalance(l, unassigned);
    }
  }

  lemma EventKeepsBalance(l: Ledger, unassigned: int, e: Event)
    requires Balanced(l, unassigned) && (e == Flush(true) ==> Covered(l, unassigned))
    requires e.Record? && e.assignment.Some? ==> e.assignment.value in l.bytes
    ensures BalancedAfter(l, unassigned, e)
  {
    match e
    case Record(Some(a), delta) => AssignedBalance(l, unassigned, a, delta);
    case Record(None, delta) => UnassignedBalance(l, unassigned, delta);
    case Complete(a, files) => CompleteBalance(l, unassigned, a, files);
    case Flush(commits) => FlushBalance(l, unassigned, commits);
  }

  /** Bytes are conserved over every run of records, completions and flushes, whether flushes commit or not: as long
      as nothing is overdrawn when a flush commits, the job's bytes, committed and pending, are those of its assignments
      plus the unassigned ones, and each assignment has exactly what it started with plus what was recorded for it. */
  lemma {:induction false} BytesAreConserved(l: Ledger, unassigned: int, events: seq<Event>)
    requires Idle(l) && l.jobBytes == Total(l.bytes.Keys, l.bytes) + unassigned
    requires forall e :: e in events ==> NamesRows(l, e)
    requires NeverOverdrawn(l, unassigned, events)
    ensures Balanced(Run(l, events), unassigned + Unassigned(events))
    ensures Run(l, events).bytes.Keys == l.bytes.Keys
    ensures forall a :: a in l.bytes ==> Accounts(Run(l, events))[a] == l.bytes[a] + Credit(events, a)
  {
    if events == [] {
      assert Accounts(l) == l.bytes;
    } else {
      var n := |events| - 1;
      var before, e := events[..n], events[n];
      forall k | 0 <= k <= n ensures before[..k] == events[..k] {
      }
      BytesAreConserved(l, unassigned, before);
      assert e in events;
      EventKeepsBalance(Run(l, before), unassigned + Unassigned(before), e);
    }
  }

  /** In balance at every point of the run. */
  ghost predicate AlwaysBalanced(l: Ledger, unassigned: int, events: seq<Event>) {
    && Balanced(Run(l, events), unassigned + Unassigned(events))
    && (events == [] || AlwaysBalanced(l, unassigned, events[..|events| - 1]))
  }

  /** Every flush of the run that commits overdraws the job by as much as its assignments together. */
  ghost predicate FlushesEvenly(l: Ledger, events: seq<Event>) {
    events == []
    || (&& FlushesEvenly(l, events[..|events| - 1])
        && (events[|events| - 1] == Flush(true) ==> EvenlyOverdrawn(Run(l, events[..|events| - 1]))))
  }

  lemma {:induction false} RowsStay(l: Ledger, events: seq<Event>)
    ensures Run(l, events).bytes.Keys == l.bytes.Keys
  {
    if events != [] {
      RowsStay(l, events[..|events| - 1]);
    }
  }

  lemma LastEventExactly(l: Ledger, unassigned: int, e: Event)
    requires Balanced(l, unassigned) && (e.Record? && e.assignment.Some? ==> e.assignment.value in l.bytes)
    ensures Balanced(Next(l, e), unassigned + Recorded(e, None)) <==> (e == Flush(true) ==> EvenlyOverdrawn(l))
  {
    if e == Flush(true) {
      FlushBalancesExactly(l, unassigned);
    } else {
      EventKeepsBalance(l, unassigned, e);
    }
  }

  lemma BalancedAtStart(l: Ledger, unassigned: int)
    requires Idle(l) && l.jobBytes == Total(l.bytes.Keys, l.bytes) + unassigned
    ensures Balanced(l, unassigned)
  {
    assert Accounts(l) == l.bytes;
  }

  /** Over a whole run job and assignments stay in balance if and only if every flush that commits overdraws the job by
      as much as its assignments together. */
  lemma {:induction false} RunBalancesExactly(l: Ledger, unassigned: int, events: seq<Event>)
    requires Idle(l) && l.jobBytes == Total(l.bytes.Keys, l.bytes) + unassigned
    requires forall e :: e in events ==> NamesRows(l, e)
    ensures AlwaysBalanced(l, unassigned, events) <==> FlushesEvenly(l, events)
  {
    if events == [] {
      BalancedAtStart(l, unassigned);
    } else {
      var before, e := events[..|events| - 1], events[|events| - 1];
      RunBalancesExactly(l, unassigned, before);
      RowsStay(l, before);
      assert e in events;
      if AlwaysBalanced(l, unassigned, before) {
        LastEventExactly(Run(l, before), unassigned + Unassigned(before), e);
      }
    }
  }

  /** In particular, after a flush that commits, the columns alone balance: no byte is lost or counted twice. */
  lemma FlushedColumnsBalance(l: Ledger, unassigned: int, events: seq<Event>)
    requires Idle(l) && l.jobBytes == Total(l.bytes.Keys, l.bytes) + unassigned
    requires forall e :: e in events ==> NamesRows(l, e)
    requires NeverOverdrawn(l, unassigned, events + [Flush(true)])
    ensures var t := Run(l, events + [Flush(true)]);
            && t.jobBytes == Total(t.bytes.Keys, t.bytes) + unassigned + Unassigned(events)
            && forall a :: a in l.bytes ==> a in t.bytes && t.bytes[a] == l.bytes[a] + Credit(events, a)
  {
    var all := events + [Flush(true)];
    BytesAreConserved(l, unassigned, all);
    assert all[..|events|] == events;
    assert Accounts(Run(l, all)) == Run(l, all).bytes;
  }

  /** Completed files are counted exactly once, however often a flush fails before one commits. */
  lemma {:induction false} CompletionsAreCounted(l: Ledger, events: seq<Event>, a: AssignmentId)
    requires Idle(l) && a in l.fileCounts && l.fileCounts[a] >= 0
    ensures var t := Run(l, events);
            && a in t.fileCounts && t.fileCounts[a] >= 0 && Pending(t.pendingFiles, a) >= 0
            && t.fileCounts[a] + Pending(t.pendingFiles, a) == l.fileCounts[a] + Completions(events, a)
  {
    if events != [] {
      CompletionsAreCounted(l, events[..|events| - 1], a);
    }
  }

  // ---------- The code ----------

  /** `CASE WHEN x > size THEN x - size ELSE 0 END`. */
  function Lowered(x: int, size: int): (r: int)
    requires size >= 0
    ensures r >= 0
  {
    if x > size then x - size else 0
  }

  /** The session with the job's counter columns. A commit that fails is rolled back and raises. */
  class ProgressStore {
    var jobBytes: int
    var bytes: map<AssignmentId, int>
    var fileCounts: map<AssignmentId, int>

    constructor (jobBytes: int, bytes: map<AssignmentId, int>, fileCounts: map<AssignmentId, int>)
      ensures this.jobBytes == jobBytes && this.bytes == bytes && this.fileCounts == fileCounts
    {
      this.jobBytes, this.bytes, this.fileCounts := jobBytes, bytes, fileCounts;
    }

    method ApplyCopyProgressBatch(jobDelta: int, byteDeltas: map<AssignmentId, int>,
                                  countDeltas: map<AssignmentId, int>, commits: bool) returns (ok: bool)
      modifies this
      ensures ok == (commits || (jobDelta == 0 && byteDeltas == map[] && countDeltas == map[]))
      ensures ok ==> jobBytes == Bump(old(jobBytes), jobDelta)
      ensures ok ==> bytes == BumpEach(old(bytes), byteDeltas)
      ensures ok ==> fileCounts == BumpEach(old(fileCounts), countDeltas)
      ensures !ok ==> jobBytes == old(jobBytes) && bytes == old(bytes) && fileCounts == old(fileCounts)
    {
      if jobDelta == 0 && byteDeltas == map[] && countDeltas == map[] {
        assert BumpEach(bytes, map[]) == bytes && BumpEach(fileCounts, map[]) == fileCounts;
        return true;
      }
      var savedBytes, savedCounts := bytes, fileCounts;
      var newJobBytes := jobBytes;
      if jobDelta > 0 {
        newJobBytes := jobBytes + jobDelta;
      } else if jobDelta < 0 {
        newJobBytes := if jobBytes > -jobDelta then jobBytes + jobDelta else 0;
      }
      var newBytes := BumpRows(bytes, byteDeltas);
      var newCounts := BumpRows(fileCounts, countDeltas);
      if !commits {
        return false;
      }
      jobBytes, bytes, fileCounts := newJobBytes, newBytes, newCounts;
      ok := true;
    }

    /** The single updates, outside a batch: a rollback never goes below zero. */
    method IncrementCopyProgress(assignment: Option<AssignmentId>, size: nat, commits: bool) returns (ok: bool)
      modifies this`jobBytes, this`bytes
      ensures ok == commits
      ensures ok ==> jobBytes == Bump(old(jobBytes), size)
      ensures ok ==> bytes == if assignment.None? then old(bytes)
                              else BumpEach(old(bytes), map[assignment.value := size as int])
      ensures !ok ==> jobBytes == old(jobBytes) && bytes == old(bytes)
    {
      if !commits {
        return false;
      }
      jobBytes := jobBytes + size;
      if assignment.Some? && assignment.value in bytes {
        bytes := bytes[assignment.value := bytes[assignment.value] + size];
      }
      ok := true;
    }

    method DecrementCopyProgress(assignment: Option<AssignmentId>, size: int, commits: bool) returns (ok: bool)
      requires size >= 0
      modifies this`jobBytes, this`bytes
      ensures ok == commits
      ensures ok ==> 0 <= jobBytes == Lowered(old(jobBytes), size)
      ensures ok ==> bytes == if assignment.None? || assignment.value !in old(bytes) then old(bytes)
                              else old(bytes)[assignment.value := Lowered(old(bytes)[assignment.value], size)]
      ensures ok && old(jobBytes) >= 0 ==> jobBytes == Bump(old(jobBytes), -size)
      ensures ok && (forall a :: a in old(bytes) ==> old(bytes)[a] >= 0) ==>
                bytes == if assignment.None? then old(bytes) else BumpEach(old(bytes), map[assignment.value := -size])
      ensures !ok ==> jobBytes == old(jobBytes) && bytes == old(bytes)
    {
      if !commits {
        return false;
      }
      jobBytes := Lowered(jobBytes, size);
      if assignment.Some? && assignment.value in bytes {
        var a := assignment.value;
        bytes := bytes[a := Lowered(bytes[a], size)];
      }
      ok := true;
    }

    /** One UPDATE per entry of a delta dictionary, in whatever order its entries come. */
    method BumpRows(column: map<AssignmentId, int>, deltas: map<AssignmentId, int>)
      returns (next: map<AssignmentId, int>)
      ensures next == BumpEach(column, deltas)
    {
      next := column;
      var todo := deltas.Keys;
      while todo != {}
        invariant todo <= deltas.Keys
        invariant next == BumpEach(column, map a | a in deltas && a !in todo :: deltas[a])
      {
        var a :| a in todo;
        ghost var done := map b | b in deltas && b !in todo :: deltas[b];
        if a in next {
          if deltas[a] > 0 {
            next := next[a := next[a] + deltas[a]];
          } else if deltas[a] < 0 {
            next := next[a := if next[a] > -deltas[a] then next[a] + deltas[a] else 0];
          }
        }
        todo := todo - {a};
        BumpOne(column, done, a, deltas[a]);
        assert (map b | b in deltas && b !in todo :: deltas[b]) == done[a := deltas[a]];
      }
      assert (map b | b in deltas && b !in todo :: deltas[b]) == deltas;
    }
  }

  lemma BumpOne(column: map<AssignmentId, int>, done: map<AssignmentId, int>, a: AssignmentId, delta: int)
    requires a !in done
    ensures BumpEach(column, done[a := delta]) ==
            if a in column then BumpEach(column, done)[a := Bump(column[a], delta)] else BumpEach(column, done)
    ensures a in column ==> BumpEach(column, done)[a] == column[a]
  {
  }

  /** The aggregated writer: it sums up signed deltas and hands them to the store in batches; what could not be
      committed stays pending. */
  class CopyProgressWriter {
    const store: ProgressStore
    var pendingJobDelta: int
    var pendingAssignmentDeltas: map<AssignmentId, int>
    var pendingAssignmentFileCounts: map<AssignmentId, int>

    constructor (store: ProgressStore)
      ensures this.store == store
      ensures State() == Ledger(store.jobBytes, store.bytes, store.fileCounts, 0, map[], map[])
    {
      this.store := store;
      pendingJobDelta, pendingAssignmentDeltas, pendingAssignmentFileCounts := 0, map[], map[];
    }

    ghost function State(): Ledger
      reads this, store
    {
      Ledger(store.jobBytes, store.bytes, store.fileCounts,
             pendingJobDelta, pendingAssignmentDeltas, pendingAssignmentFileCounts)
    }

    method RecordDelta(assignment: Option<AssignmentId>, delta: int)
      modifies this
      ensures State() == Next(old(State()), Record(assignment, delta))
    {
      if delta == 0 {
        return;
      }
      pendingJobDelta := pendingJobDelta + delta;
      if assignment.Some? {
        var a := assignment.value;
        pendingAssignmentDeltas := pendingAssignmentDeltas[a := Pending(pendingAssignmentDeltas, a) + delta];
      }
    }

    method RecordCompletion(assignment: Option<AssignmentId>, completedFiles: nat)
      modifies this
      ensures State() == Next(old(State()), Complete(assignment, completedFiles))
    {
      if assignment.None? || completedFiles == 0 {
        return;
      }
      var a := assignment.value;
      pendingAssignmentFileCounts :=
        pendingAssignmentFileCounts[a := Pending(pendingAssignmentFileCounts, a) + completedFiles];
    }

    /** It fails only when there is something to write and the commit fails; otherwise every pending delta has reached
        its column and nothing is pending any more. */
    method FlushPending(commits: bool) returns (ok: bool)
      modifies this, store
      ensures State() == Next(old(State()), Flush(ok))
      ensures ok == (commits || (old(pendingJobDelta) == 0 && NonZero(old(pendingAssignmentDeltas)) == map[]
                                 && NonZero(old(pendingAssignmentFileCounts)) == map[]))
      ensures ok ==> pendingJobDelta == 0 && pendingAssignmentDeltas == map[] && pendingAssignmentFileCounts == map[]
      ensures ok ==> store.jobBytes == Bump(old(store.jobBytes), old(pendingJobDelta))
      ensures ok ==> store.bytes.Keys == old(store.bytes).Keys && store.fileCounts.Keys == old(store.fileCounts).Keys
      ensures ok ==> forall a :: a in old(store.bytes) ==>
                store.bytes[a] == Bump(old(store.bytes)[a], Pending(old(pendingAssignmentDeltas), a))
      ensures ok ==> forall a :: a in old(store.fileCounts) ==>
                store.fileCounts[a] == Bump(old(store.fileCounts)[a], Pending(old(pendingAssignmentFileCounts), a))
    {
      if pendingJobDelta == 0 && pendingAssignmentDeltas == map[] && pendingAssignmentFileCounts == map[] {
        assert BumpEach(store.bytes, map[]) == store.bytes && BumpEach(store.fileCounts, map[]) == store.fileCounts;
        return true;
      }
      var byteDeltas := NonZero(pendingAssignmentDeltas);
      var countDeltas := NonZero(pendingAssignmentFileCounts);
      SkippingZeros(store.bytes, pendingAssignmentDeltas);
      SkippingZeros(store.fileCounts, pendingAssignmentFileCounts);
      ok := store.ApplyCopyProgressBatch(pendingJobDelta, byteDeltas, countDeltas, commits);
      if ok {
        pendingJobDelta, pendingAssignmentDeltas, pendingAssignmentFileCounts := 0, map[], map[];
      }
    }
  }

  function NonZero(deltas: map<AssignmentId, int>): map<AssignmentId, int> {
    map a | a in deltas && deltas[a] != 0 :: deltas[a]
  }

  lemma SkippingZeros(column: map<AssignmentId, int>, deltas: map<AssignmentId, int>)
    ensures BumpEach(column, NonZero(deltas)) == BumpEach(column, deltas)
  {
    var some, all := BumpEach(column, NonZero(deltas)), BumpEach(column, deltas);
    assert some.Keys == all.Keys;
    forall a | a in column ensures some[a] == all[a] {
    }
  }
}
