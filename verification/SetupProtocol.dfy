/** First-run initialization of `app/routers/setup.py` as interleaved steps of many requests.

    Requests run in worker processes. They share one database (the lock row and the admin-role rows) and
    one host (the OS accounts); requests of one process also share that process's `_init_lock`. */
module SetupProtocol {

  type User = string
  type Process = nat
  type RequestId = nat

  datatype Request = Request(process: Process, username: User)

  datatype Outcome = Initialized | AlreadyInitialized | Conflict | Failed

  /** Where a request is. `again` tells the re-check under the process lock from the first check. */
  datatype Pc =
    | Idle
    | CheckAdmins(again: bool)
    | ReadNames(again: bool)
    | Lookup(again: bool, todo: set<User>, found: bool)
    | TryProcessLock
    | RecoverRead
    | RecoverDelete
    | InsertRow
    | PersistSettings
    | EnsureGroups
    | CreateUser
    | AddToGroup
    | ResetPassword
    | SeedRole
    | Audit
    | ReleaseRow
    | LeaveLock(outcome: Outcome)
    | Done(outcome: Outcome)

  /** The lock row, with the request that committed it; a `Stale` row was there before any request ran. */
  datatype Row = NoRow | Stale | OwnedBy(r: RequestId)

  /** The database and the host. */
  datatype Shared = Shared(row: Row, admins: set<User>, accounts: set<User>)

  datatype State = State(
    shared: Shared,
    processLocks: map<Process, RequestId>,
    requests: map<RequestId, Request>,
    pcs: map<RequestId, Pc>
  )

  /** How the next operation of a request goes: it works (a lookup takes `pick` next) or it raises. A failing
      `create_user` may leave the account behind (`partial`), every other failing operation has no effect. */
  datatype Choice = Works(pick: User) | Fails(partial: bool)

  datatype Event = Act(r: RequestId, choice: Choice) | Crash(p: Process)

  // ---------- One operation of one request ----------

  datatype LockUse = Keep | Acquire | Release

  datatype Effect = Effect(pc: Pc, shared: Shared, lock: LockUse)

  function To(pc: Pc, shared: Shared): Effect {
    Effect(pc, shared, Keep)
  }

  /** A request that has the process lock leaves through the `finally` that releases it. */
  function Leave(locked: bool, outcome: Outcome, shared: Shared): Effect {
    To(if locked then LeaveLock(outcome) else Done(outcome), shared)
  }

  function NotInitialized(again: bool): Pc {
    if again then RecoverRead else TryProcessLock
  }

  function Work(pc: Pc, db: Shared, r: RequestId, user: User, lockFree: bool, pick: User): Effect {
    match pc
    case Idle => To(CheckAdmins(false), db)
    case CheckAdmins(again) => To(if db.admins == {} then NotInitialized(again) else ReadNames(again), db)
    case ReadNames(again) => To(Lookup(again, db.admins, false), db)
    case Lookup(again, todo, found) =>
      if todo == {} then
        if found then Leave(again, AlreadyInitialized, db) else To(NotInitialized(again), db)
      else if pick in todo then To(Lookup(again, todo - {pick}, found || pick in db.accounts), db)
      else To(pc, db)
    case TryProcessLock => if lockFree then Effect(CheckAdmins(true), db, Acquire) else To(Done(Conflict), db)
    case RecoverRead => To(if db.admins == {} then InsertRow else RecoverDelete, db)
    case RecoverDelete => To(InsertRow, db.(row := NoRow))
    case InsertRow =>
      if db.row != NoRow then To(LeaveLock(Conflict), db) else To(PersistSettings, db.(row := OwnedBy(r)))
    case PersistSettings => To(EnsureGroups, db)
    case EnsureGroups => To(CreateUser, db)
    case CreateUser =>
      if user in db.accounts then To(AddToGroup, db) else To(SeedRole, db.(accounts := db.accounts + {user}))
    case AddToGroup => To(ResetPassword, db)
    case ResetPassword => To(SeedRole, db)
    case SeedRole => To(Audit, db.(admins := db.admins + {user}))
    case Audit => To(LeaveLock(Initialized), db)
    case ReleaseRow => To(LeaveLock(Failed), db.(row := NoRow))
    case LeaveLock(outcome) => Effect(Done(outcome), db, Release)
    case Done(_) => To(pc, db)
  }

  function Fail(pc: Pc, db: Shared, user: User, partial: bool): Effect {
    match pc
    case CheckAdmins(again) => Leave(again, Failed, db)
    case ReadNames(again) => Leave(again, Failed, db)
    // A failing OS lookup counts as "initialized"; with nothing left to look up there is no call to fail.
    case Lookup(again, todo, _) => if todo == {} then To(pc, db) else Leave(again, AlreadyInitialized, db)
    case RecoverRead => To(LeaveLock(Failed), db)
    case RecoverDelete => To(LeaveLock(Failed), db)
    case InsertRow => To(LeaveLock(Failed), db)
    // Outside the try block that releases the row: the row stays.
    case PersistSettings => To(LeaveLock(Failed), db)
    case EnsureGroups => To(ReleaseRow, db)
    case CreateUser => To(ReleaseRow, if partial then db.(accounts := db.accounts + {user}) else db)
    case AddToGroup => To(ReleaseRow, db)
    case ResetPassword => To(ReleaseRow, db)
    case SeedRole => To(ReleaseRow, db)
    case ReleaseRow => To(LeaveLock(Failed), db)
    // A failing audit write is swallowed.
    case Audit => To(LeaveLock(Initialized), db)
    case _ => To(pc, db)
  }

  // ---------- The whole system ----------

  predicate WellFormed(s: State) {
    s.pcs.Keys == s.requests.Keys
  }

  predicate Fresh(s: State) {
    && WellFormed(s)
    && s.processLocks == map[]
    && (s.shared.row == NoRow || s.shared.row == Stale)
    && forall r :: r in s.pcs ==> s.pcs[r] == Idle
  }

  function EffectOf(s: State, r: RequestId, choice: Choice): Effect
    requires r in s.pcs && r in s.requests
  {
    var me := s.requests[r];
    match choice
    case Works(pick) => Work(s.pcs[r], s.shared, r, me.username, me.process !in s.processLocks, pick)
    case Fails(partial) => Fail(s.pcs[r], s.shared, me.username, partial)
  }

  function UseLock(locks: map<Process, RequestId>, p: Process, r: RequestId, use: LockUse): map<Process, RequestId> {
    match use
    case Keep => locks
    case Acquire => locks[p := r]
    case Release => locks - {p}
  }

  function Apply(s: State, r: RequestId, f: Effect): State
    requires r in s.requests
  {
    State(f.shared, UseLock(s.processLocks, s.requests[r].process, r, f.lock), s.requests, s.pcs[r := f.pc])
  }

  /** A killed process takes its running requests and its in-memory lock with it; rows and accounts stay. */
  function CrashProcess(s: State, p: Process): State
    requires WellFormed(s)
  {
    s.(processLocks := s.processLocks - {p},
       pcs := map r | r in s.pcs :: if s.requests[r].process == p then Killed(s.pcs[r]) else s.pcs[r])
  }

  function Killed(pc: Pc): Pc {
    if pc == Idle || pc.Done? then pc else Done(Failed)
  }

  /** Any request may move next, any operation may fail, any process may be killed. */
  function Step(s: State, e: Event): (t: State)
    requires WellFormed(s)
    ensures WellFormed(t) && t.requests == s.requests
  {
    match e
    case Crash(p) => CrashProcess(s, p)
    case Act(r, choice) => if r in s.pcs then Apply(s, r, EffectOf(s, r, choice)) else s
  }

  function Run(s: State, events: seq<Event>): (t: State)
    requires WellFormed(s)
    ensures WellFormed(t) && t.requests == s.requests
  {
    if events == [] then s else Step(Run(s, events[..|events| - 1]), events[|events| - 1])
  }

  lemma {:induction false} RunAppend(s: State, a: seq<Event>, b: seq<Event>)
    requires WellFormed(s)
    ensures Run(s, a + b) == Run(Run(s, a), b)
  {
    if b == [] {
      assert a + b == a;
    } else {
      RunAppend(s, a, b[..|b| - 1]);
      assert (a + b)[..|a + b| - 1] == a + b[..|b| - 1];
    }
  }

  // ---------- Safety: who is inside _do_initialize ----------

  /** Between committing the lock row and leaving `_do_initialize`. */
  predicate Critical(pc: Pc) {
    || pc.PersistSettings? || pc.EnsureGroups? || pc.CreateUser? || pc.AddToGroup?
    || pc.ResetPassword? || pc.SeedRole? || pc.Audit? || pc.ReleaseRow?
  }

  predicate HoldsProcessLock(pc: Pc) {
    || Critical(pc) || pc.RecoverRead? || pc.RecoverDelete? || pc.InsertRow? || pc.LeaveLock?
    || (pc.CheckAdmins? && pc.again) || (pc.ReadNames? && pc.again) || (pc.Lookup? && pc.again)
  }

  predicate InCritical(s: State, r: RequestId) {
    r in s.pcs && Critical(s.pcs[r])
  }

  predicate SameProcess(s: State, r: RequestId, q: RequestId) {
    r in s.requests && q in s.requests && s.requests[r].process == s.requests[q].process
  }

  ghost predicate Exclusive(s: State) {
    forall r, q :: InCritical(s, r) && InCritical(s, q) ==> r == q
  }

  ghost predicate ExclusivePerProcess(s: State) {
    forall r, q :: InCritical(s, r) && InCritical(s, q) && SameProcess(s, r, q) ==> r == q
  }

  /** What a request's position says about the database. */
  predicate RowInv(pc: Pc, db: Shared, r: RequestId) {
    && (pc.RecoverDelete? || pc.Audit? ==> db.admins != {})
    && (db.admins == {} && Critical(pc) ==> db.row == OwnedBy(r))
  }

  /** The lock row was changed by its owner, or inserted where there was none. */
  predicate OwnRowOnly(before: Row, after: Row, r: RequestId) {
    after == before || (before == OwnedBy(r) && after == NoRow) || (before == NoRow && after == OwnedBy(r))
  }

  /** One operation keeps its own invariant, touches no foreign row while there are no admins, and takes only a
      process lock that is free and gives up only one it has. */
  lemma EffectIsSafe(pc: Pc, db: Shared, r: RequestId, user: User, lockFree: bool, choice: Choice)
    requires RowInv(pc, db, r)
    ensures var f := if choice.Works? then Work(pc, db, r, user, lockFree, choice.pick)
                     else Fail(pc, db, user, choice.partial);
            && RowInv(f.pc, f.shared, r)
            && db.admins <= f.shared.admins && db.accounts <= f.shared.accounts
            && (db.admins == {} ==> OwnRowOnly(db.row, f.shared.row, r))
            && (f.lock == Keep ==> HoldsProcessLock(f.pc) == HoldsProcessLock(pc))
            && (f.lock == Acquire ==> lockFree && HoldsProcessLock(f.pc))
            && (f.lock == Release ==> HoldsProcessLock(pc) && !HoldsProcessLock(f.pc))
  {
  }

  predicate RequestInv(s: State, r: RequestId)
    requires WellFormed(s)
  {
    r in s.pcs ==>
      var p := s.requests[r].process;
      && (HoldsProcessLock(s.pcs[r]) ==> p in s.processLocks && s.processLocks[p] == r)
      && RowInv(s.pcs[r], s.shared, r)
  }

  ghost predicate Inv(s: State) {
    WellFormed(s) && forall r :: RequestInv(s, r)
  }

  lemma StepKeepsRequestInv(s: State, e: Event, q: RequestId)
    requires Inv(s)
    ensures RequestInv(Step(s, e), q)
  {
    assert RequestInv(s, q);
    if e.Act? && e.r in s.pcs {
      var me := s.requests[e.r];
      assert RequestInv(s, e.r);
      EffectIsSafe(s.pcs[e.r], s.shared, e.r, me.username, me.process !in s.processLocks, e.choice);
    }
  }

  lemma StepEffects(s: State, e: Event)
    requires Inv(s)
    ensures s.shared.admins <= Step(s, e).shared.admins && s.shared.accounts <= Step(s, e).shared.accounts
    ensures s.shared.admins == {} && Step(s, e).shared.row != s.shared.row ==>
              e.Act? && OwnRowOnly(s.shared.row, Step(s, e).shared.row, e.r)
  {
    if e.Act? && e.r in s.pcs {
      var me := s.requests[e.r];
      assert RequestInv(s, e.r);
      EffectIsSafe(s.pcs[e.r], s.shared, e.r, me.username, me.process !in s.processLocks, e.choice);
    }
  }

  lemma {:induction false} RunKeepsInv(s: State, events: seq<Event>)
    requires Fresh(s)
    ensures Inv(Run(s, events))
    ensures s.shared.admins <= Run(s, events).shared.admins && s.shared.accounts <= Run(s, events).shared.accounts
  {
    if events != [] {
      var before := Run(s, events[..|events| - 1]);
      RunKeepsInv(s, events[..|events| - 1]);
      StepEffects(before, events[|events| - 1]);
      var after := Step(before, events[|events| - 1]);
      forall q ensures RequestInv(after, q) {
        StepKeepsRequestInv(before, events[|events| - 1], q);
      }
    }
  }

  /** Over every run, faults and crashes included: one process never has two requests inside; and as long as no
      admin role is committed, at most one request is inside at all, and the lock row is only ever inserted by
      the request it then belongs to and deleted by the request it belongs to. */
  lemma AtMostOneInside(s: State, events: seq<Event>, e: Event)
    requires Fresh(s)
    ensures ExclusivePerProcess(Run(s, events))
    ensures Run(s, events).shared.admins == {} ==> Exclusive(Run(s, events))
    ensures var now, next := Run(s, events), Step(Run(s, events), e);
            now.shared.admins == {} && next.shared.row != now.shared.row ==>
              e.Act? && OwnRowOnly(now.shared.row, next.shared.row, e.r)
  {
    RunKeepsInv(s, events);
    StepEffects(Run(s, events), e);
    InvExcludes(Run(s, events));
  }

  lemma InvExcludes(s: State)
    requires Inv(s)
    ensures ExclusivePerProcess(s)
    ensures s.shared.admins == {} ==> Exclusive(s)
  {
    forall r, q | InCritical(s, r) && InCritical(s, q) && (SameProcess(s, r, q) || s.shared.admins == {})
      ensures r == q
    {
      assert RequestInv(s, r) && RequestInv(s, q);
    }
  }

  // ---------- Runs that exist ----------

  /** Some admin role belongs to an account that exists: the state in which setup counts as done. */
  ghost predicate HasUsableAdmin(db: Shared) {
    exists u :: u in db.admins && u in db.accounts
  }

  ghost predicate Leads(s: State, t: State)
    requires WellFormed(s)
  {
    exists events :: Run(s, events) == t
  }

  lemma LeadsTransitive(a: State, b: State, c: State)
    requires WellFormed(a) && WellFormed(b) && Leads(a, b) && Leads(b, c)
    ensures Leads(a, c)
  {
    var first :| Run(a, first) == b;
    var second :| Run(b, second) == c;
    RunAppend(a, first, second);
  }

  lemma OneStep(s: State, e: Event)
    requires WellFormed(s)
    ensures Leads(s, Step(s, e))
  {
    assert [e][..0] == [];
    assert Run(s, [e]) == Step(s, e);
  }

  /** `s` with request `r` at another place. */
  function At(s: State, r: RequestId, pc: Pc): State {
    s.(pcs := s.pcs[r := pc])
  }

  /** `s` with another database and host. */
  function With(s: State, shared: Shared): State {
    s.(shared := shared)
  }

  /** An operation that works and keeps the process lock as it is. */
  lemma Advance(s: State, r: RequestId, pc: Pc, pick: User, next: Pc, shared: Shared)
    requires WellFormed(s) && r in s.pcs
    requires Work(pc, s.shared, r, s.requests[r].username, s.requests[r].process !in s.processLocks, pick)
          == To(next, shared)
    ensures Leads(At(s, r, pc), At(With(s, shared), r, next))
  {
    var e := Act(r, Works(pick));
    assert At(At(s, r, pc), r, next) == At(s, r, next);
    assert Step(At(s, r, pc), e) == At(With(s, shared), r, next);
    OneStep(At(s, r, pc), e);
  }

  /** The same, when the operation only moves its request. */
  lemma Move(s: State, r: RequestId, pc: Pc, pick: User, next: Pc)
    requires WellFormed(s) && r in s.pcs
    requires Work(pc, s.shared, r, s.requests[r].username, s.requests[r].process !in s.processLocks, pick)
          == To(next, s.shared)
    ensures Leads(At(s, r, pc), At(s, r, next))
  {
    Advance(s, r, pc, pick, next, s.shared);
    assert With(s, s.shared) == s;
  }

  /** The OS lookups, when no remaining admin has an account. */
  lemma WalkLookups(s: State, r: RequestId, again: bool, todo: set<User>)
    requires WellFormed(s) && r in s.pcs
    requires todo !! s.shared.accounts
    ensures Leads(At(s, r, Lookup(again, todo, false)), At(s, r, NotInitialized(again)))
    decreases |todo|
  {
    if todo == {} {
      Move(s, r, Lookup(again, todo, false), "", NotInitialized(again));
    } else {
      var u :| u in todo;
      Move(s, r, Lookup(again, todo, false), u, Lookup(again, todo - {u}, false));
      WalkLookups(s, r, again, todo - {u});
      LeadsTransitive(At(s, r, Lookup(again, todo, false)), At(s, r, Lookup(again, todo - {u}, false)),
                      At(s, r, NotInitialized(again)));
    }
  }

  /** One of the two checks, when no admin has an account. */
  lemma WalkCheck(s: State, r: RequestId, again: bool)
    requires WellFormed(s) && r in s.pcs && !HasUsableAdmin(s.shared)
    ensures Leads(At(s, r, CheckAdmins(again)), At(s, r, NotInitialized(again)))
  {
    if s.shared.admins == {} {
      Move(s, r, CheckAdmins(again), "", NotInitialized(again));
    } else {
      var read, lookup := ReadNames(again), Lookup(again, s.shared.admins, false);
      Move(s, r, CheckAdmins(again), "", read);
      Move(s, r, read, "", lookup);
      WalkLookups(s, r, again, s.shared.admins);
      LeadsTransitive(At(s, r, CheckAdmins(again)), At(s, r, read), At(s, r, lookup));
      LeadsTransitive(At(s, r, CheckAdmins(again)), At(s, r, lookup), At(s, r, NotInitialized(again)));
    }
  }

  /** `s` with the process lock of `r` taken by `r`. */
  function Locked(s: State, r: RequestId): State
    requires r in s.requests
  {
    s.(processLocks := s.processLocks[s.requests[r].process := r])
  }

  lemma TakeProcessLock(s: State, r: RequestId)
    requires WellFormed(s) && r in s.pcs && s.requests[r].process !in s.processLocks
    ensures Leads(At(s, r, TryProcessLock), At(Locked(s, r), r, CheckAdmins(true)))
  {
    assert At(At(s, r, TryProcessLock), r, CheckAdmins(true)) == At(s, r, CheckAdmins(true));
    OneStep(At(s, r, TryProcessLock), Act(r, Works("")));
  }

  /** A request that can take its process's lock passes both checks while no admin has an account. */
  lemma WalkToRecovery(s: State, r: RequestId)
    requires WellFormed(s) && r in s.pcs && s.pcs[r] == Idle && s.requests[r].process !in s.processLocks
    requires !HasUsableAdmin(s.shared)
    ensures Leads(s, At(Locked(s, r), r, RecoverRead))
  {
    assert At(s, r, Idle) == s;
    Move(s, r, Idle, "", CheckAdmins(false));
    WalkCheck(s, r, false);
    LeadsTransitive(s, At(s, r, CheckAdmins(false)), At(s, r, TryProcessLock));
    TakeProcessLock(s, r);
    LeadsTransitive(s, At(s, r, TryProcessLock), At(Locked(s, r), r, CheckAdmins(true)));
    WalkCheck(Locked(s, r), r, true);
    LeadsTransitive(s, At(Locked(s, r), r, CheckAdmins(true)), At(Locked(s, r), r, RecoverRead));
  }

  /** The database once `r` has committed the lock row. */
  function Taken(db: Shared, r: RequestId): Shared {
    db.(row := OwnedBy(r))
  }

  /** The recovery path: the row goes when there are admins. */
  lemma WalkRecovery(s: State, r: RequestId)
    requires WellFormed(s) && r in s.pcs
    ensures var cleared := if s.shared.admins == {} then s else With(s, s.shared.(row := NoRow));
            Leads(At(s, r, RecoverRead), At(cleared, r, InsertRow))
  {
    if s.shared.admins == {} {
      Move(s, r, RecoverRead, "", InsertRow);
    } else {
      var cleared := With(s, s.shared.(row := NoRow));
      Move(s, r, RecoverRead, "", RecoverDelete);
      Advance(s, r, RecoverDelete, "", InsertRow, cleared.shared);
      LeadsTransitive(At(s, r, RecoverRead), At(s, r, RecoverDelete), At(cleared, r, InsertRow));
    }
  }

  /** Past both checks a request gets in when there are admins, whoever holds the row, or when there is no row. */
  lemma WalkIn(s: State, r: RequestId)
    requires WellFormed(s) && r in s.pcs && (s.shared.admins != {} || s.shared.row == NoRow)
    ensures Leads(At(s, r, RecoverRead), At(With(s, Taken(s.shared, r)), r, PersistSettings))
  {
    var cleared := if s.shared.admins == {} then s else With(s, s.shared.(row := NoRow));
    var inside := With(s, Taken(s.shared, r));
    WalkRecovery(s, r);
    Advance(cleared, r, InsertRow, "", PersistSettings, Taken(s.shared, r));
    assert With(cleared, Taken(s.shared, r)) == inside;
    LeadsTransitive(At(s, r, RecoverRead), At(cleared, r, InsertRow), At(inside, r, PersistSettings));
  }

  /** The database and the host once `user` has an account and the admin role. */
  function SetUp(db: Shared, user: User): Shared {
    Shared(db.row, db.admins + {user}, db.accounts + {user})
  }

  lemma WalkToAccount(s: State, r: RequestId)
    requires WellFormed(s) && r in s.pcs
    ensures Leads(At(s, r, PersistSettings), At(s, r, CreateUser))
  {
    Move(s, r, PersistSettings, "", EnsureGroups);
    Move(s, r, EnsureGroups, "", CreateUser);
    LeadsTransitive(At(s, r, PersistSettings), At(s, r, EnsureGroups), At(s, r, CreateUser));
  }

  lemma WalkExistingAccount(s: State, r: RequestId)
    requires WellFormed(s) && r in s.pcs && s.requests[r].username in s.shared.accounts
    ensures Leads(At(s, r, CreateUser), At(s, r, SeedRole))
  {
    Move(s, r, CreateUser, "", AddToGroup);
    WalkReconciliation(s, r);
    LeadsTransitive(At(s, r, CreateUser), At(s, r, AddToGroup), At(s, r, SeedRole));
  }

  lemma WalkReconciliation(s: State, r: RequestId)
    requires WellFormed(s) && r in s.pcs
    ensures Leads(At(s, r, AddToGroup), At(s, r, SeedRole))
  {
    Move(s, r, AddToGroup, "", ResetPassword);
    Move(s, r, ResetPassword, "", SeedRole);
    LeadsTransitive(At(s, r, AddToGroup), At(s, r, ResetPassword), At(s, r, SeedRole));
  }

  /** The database and the host once `user` has an account. */
  function Created(db: Shared, user: User): Shared {
    db.(accounts := db.accounts + {user})
  }

  lemma WalkAccount(s: State, r: RequestId)
    requires WellFormed(s) && r in s.pcs
    ensures Leads(At(s, r, CreateUser), At(With(s, Created(s.shared, s.requests[r].username)), r, SeedRole))
  {
    var user := s.requests[r].username;
    if user in s.shared.accounts {
      WalkExistingAccount(s, r);
      assert s.shared.accounts + {user} == s.shared.accounts;
      assert With(s, Created(s.shared, user)) == s;
    } else {
      Advance(s, r, CreateUser, "", SeedRole, Created(s.shared, user));
    }
  }

  lemma WalkRole(s: State, r: RequestId)
    requires WellFormed(s) && r in s.pcs
    ensures var user := s.requests[r].username;
            Leads(At(With(s, Created(s.shared, user)), r, SeedRole), At(With(s, SetUp(s.shared, user)), r, Audit))
  {
    var user := s.requests[r].username;
    var created := With(s, Created(s.shared, user));
    Advance(created, r, SeedRole, "", Audit, SetUp(s.shared, user));
    assert With(created, SetUp(s.shared, user)) == With(s, SetUp(s.shared, user));
  }

  /** With nothing failing, a request that is inside makes its user an admin with an account. */
  lemma WalkSetup(s: State, r: RequestId)
    requires WellFormed(s) && r in s.pcs
    ensures Leads(At(s, r, PersistSettings), At(With(s, SetUp(s.shared, s.requests[r].username)), r, Audit))
  {
    var user := s.requests[r].username;
    var created := At(With(s, Created(s.shared, user)), r, SeedRole);
    var ready := At(With(s, SetUp(s.shared, user)), r, Audit);
    WalkToAccount(s, r);
    WalkAccount(s, r);
    LeadsTransitive(At(s, r, PersistSettings), At(s, r, CreateUser), created);
    WalkRole(s, r);
    LeadsTransitive(At(s, r, PersistSettings), created, ready);
  }

  /** A request that has committed its user's role reports success. */
  lemma WalkOut(s: State, r: RequestId)
    requires WellFormed(s) && r in s.pcs && s.pcs[r] == Audit
    ensures var out := s.(processLocks := s.processLocks - {s.requests[r].process});
            Leads(s, At(out, r, Done(Initialized)))
  {
    var out := s.(processLocks := s.processLocks - {s.requests[r].process});
    var leave := LeaveLock(Initialized);
    assert At(s, r, Audit) == s;
    Move(s, r, Audit, "", leave);
    LeaveLocked(s, r);
    LeadsTransitive(s, At(s, r, leave), At(out, r, Done(Initialized)));
  }

  lemma LeaveLocked(s: State, r: RequestId)
    requires WellFormed(s) && r in s.pcs
    ensures var out := s.(processLocks := s.processLocks - {s.requests[r].process});
            Leads(At(s, r, LeaveLock(Initialized)), At(out, r, Done(Initialized)))
  {
    var now, out := At(s, r, LeaveLock(Initialized)), s.(processLocks := s.processLocks - {s.requests[r].process});
    assert now.pcs[r := Done(Initialized)] == s.pcs[r := Done(Initialized)];
    assert Step(now, Act(r, Works(""))) == At(out, r, Done(Initialized));
    OneStep(now, Act(r, Works("")));
  }

  // ---------- Where two requests get in ----------

  /** `q` has passed both checks when `r` starts; `r` commits its user's role, and `q` then takes that for a role left
      over, deletes `r`'s row and commits its own: both are inside. */
  function Overtaken(s: State, r: RequestId, q: RequestId): State
    requires r in s.requests && q in s.requests
  {
    var locked := Locked(Locked(s, q), r);
    At(At(With(locked, Taken(SetUp(Taken(s.shared, r), s.requests[r].username), q)), r, Audit), q, PersistSettings)
  }

  /** Both of them can also get there when no row is in the way of the first, or admins without accounts are left. */
  lemma WalkTogether(s: State, r: RequestId, q: RequestId)
    requires Fresh(s) && r in s.pcs && q in s.pcs && s.requests[r].process != s.requests[q].process
    requires !HasUsableAdmin(s.shared) && (s.shared.admins != {} || s.shared.row == NoRow)
    ensures Leads(s, Overtaken(s, r, q))
  {
    var waiting := At(Locked(s, q), q, RecoverRead);
    WalkToRecovery(s, q);
    WalkToRecovery(waiting, r);
    var both := Locked(waiting, r);
    WalkIn(both, r);
    var inside := With(both, Taken(s.shared, r));
    WalkSetup(inside, r);
    var done := With(inside, SetUp(inside.shared, s.requests[r].username));
    assert done == With(both, done.shared);
    LeadsTransitive(s, waiting, At(both, r, RecoverRead));
    LeadsTransitive(s, At(both, r, RecoverRead), At(inside, r, PersistSettings));
    LeadsTransitive(s, At(inside, r, PersistSettings), At(done, r, Audit));
    WalkOver(s, r, q, At(done, r, Audit));
  }

  lemma WalkOver(s: State, r: RequestId, q: RequestId, now: State)
    requires WellFormed(s) && r in s.pcs && q in s.pcs && r != q && Leads(s, now)
    requires now == At(With(Locked(At(Locked(s, q), q, RecoverRead), r),
                            SetUp(Taken(s.shared, r), s.requests[r].username)), r, Audit)
    ensures Leads(s, Overtaken(s, r, q))
  {
    var next := At(With(now, Taken(now.shared, q)), q, PersistSettings);
    assert At(now, q, RecoverRead) == now;
    WalkIn(now, q);
    LeadsTransitive(s, now, next);
    OvertakenIs(s, r, q, now);
  }

  lemma OvertakenIs(s: State, r: RequestId, q: RequestId, now: State)
    requires WellFormed(s) && r in s.pcs && q in s.pcs && r != q
    requires now == At(With(Locked(At(Locked(s, q), q, RecoverRead), r),
                            SetUp(Taken(s.shared, r), s.requests[r].username)), r, Audit)
    ensures At(With(now, Taken(now.shared, q)), q, PersistSettings) == Overtaken(s, r, q)
  {
    assert s.pcs[q := RecoverRead][r := Audit][q := PersistSettings] == s.pcs[r := Audit][q := PersistSettings];
  }

  /** From there both can go on and report success. */
  lemma WalkToTwoSuccesses(s: State, r: RequestId, q: RequestId) returns (t: State)
    requires WellFormed(s) && r in s.pcs && q in s.pcs && r != q && s.requests[r].process != s.requests[q].process
    requires s.pcs[r] == Audit && s.pcs[q] == PersistSettings
    ensures Leads(s, t) && t.pcs.Keys == s.pcs.Keys && Won(t, r) && Won(t, q)
  {
    var user := s.requests[q].username;
    var ready := At(With(s, SetUp(s.shared, user)), q, Audit);
    assert At(s, q, PersistSettings) == s;
    WalkSetup(s, q);
    WalkOut(ready, r);
    var first := At(ready.(processLocks := ready.processLocks - {ready.requests[r].process}), r, Done(Initialized));
    WalkOut(first, q);
    t := At(first.(processLocks := first.processLocks - {first.requests[q].process}), q, Done(Initialized));
    LeadsTransitive(s, ready, first);
    LeadsTransitive(s, first, t);
  }

  // ---------- Where nobody gets in, or one at most ----------

  /** A request that a usable admin `u` keeps out: it has not passed the check under the process lock, and the lookups
      it is in the middle of can still find `u`. */
  predicate KeptOut(pc: Pc, u: User) {
    match pc
    case Idle | CheckAdmins(_) | ReadNames(_) | TryProcessLock => true
    case Lookup(again, todo, found) => !again || found || u in todo
    case LeaveLock(outcome) => outcome != Initialized
    case Done(outcome) => outcome != Initialized
    case _ => false
  }

  lemma EffectKeepsOut(pc: Pc, db: Shared, r: RequestId, user: User, lockFree: bool, choice: Choice, u: User)
    requires KeptOut(pc, u) && u in db.admins && u in db.accounts
    ensures var f := if choice.Works? then Work(pc, db, r, user, lockFree, choice.pick)
                     else Fail(pc, db, user, choice.partial);
            f.shared == db && KeptOut(f.pc, u)
  {
  }

  lemma StepGrows(s: State, e: Event)
    requires WellFormed(s)
    ensures s.shared.admins <= Step(s, e).shared.admins && s.shared.accounts <= Step(s, e).shared.accounts
  {
  }

  lemma StepKeepsOut(s: State, e: Event, u: User, r: RequestId)
    requires WellFormed(s) && u in s.shared.admins && u in s.shared.accounts && r in s.pcs && KeptOut(s.pcs[r], u)
    ensures KeptOut(Step(s, e).pcs[r], u)
  {
    if e.Act? && e.r == r {
      var me := s.requests[r];
      EffectKeepsOut(s.pcs[r], s.shared, r, me.username, me.process !in s.processLocks, e.choice, u);
    }
  }

  /** From any state with a usable admin, in any run: a request that has not yet passed the check under the process
      lock never gets inside and never reports success. */
  lemma {:induction false} UsableAdminKeepsOut(s: State, events: seq<Event>, u: User, r: RequestId)
    requires WellFormed(s) && u in s.shared.admins && u in s.shared.accounts && r in s.pcs && KeptOut(s.pcs[r], u)
    ensures var t := Run(s, events);
            u in t.shared.admins && u in t.shared.accounts && r in t.pcs && KeptOut(t.pcs[r], u)
  {
    if events != [] {
      UsableAdminKeepsOut(s, events[..|events| - 1], u, r);
      StepGrows(Run(s, events[..|events| - 1]), events[|events| - 1]);
      StepKeepsOut(Run(s, events[..|events| - 1]), events[|events| - 1], u, r);
    }
  }

  /** Not past the first check, which can still find `u`. */
  predicate AtFirstCheck(pc: Pc, u: User) {
    match pc
    case Idle | CheckAdmins(false) | ReadNames(false) | Done(_) => true
    case Lookup(again, todo, found) => !again && (found || u in todo)
    case _ => false
  }

  lemma EffectAtFirstCheck(pc: Pc, db: Shared, r: RequestId, user: User, lockFree: bool, choice: Choice, u: User)
    requires AtFirstCheck(pc, u) && u in db.admins && u in db.accounts
    ensures var f := if choice.Works? then Work(pc, db, r, user, lockFree, choice.pick)
                     else Fail(pc, db, user, choice.partial);
            f.shared == db && AtFirstCheck(f.pc, u)
  {
  }

  /** When there is a usable admin before any request starts, no request gets past the first check, and neither the
      database nor the host changes. */
  lemma {:induction false} UsableAdminKeepsAllOut(s: State, events: seq<Event>, u: User)
    requires Fresh(s) && u in s.shared.admins && u in s.shared.accounts
    ensures var t := Run(s, events);
            t.shared == s.shared && forall r :: r in t.pcs ==> AtFirstCheck(t.pcs[r], u)
  {
    if events != [] {
      var before, e := Run(s, events[..|events| - 1]), events[|events| - 1];
      UsableAdminKeepsAllOut(s, events[..|events| - 1], u);
      if e.Act? && e.r in before.pcs {
        var me := before.requests[e.r];
        EffectAtFirstCheck(before.pcs[e.r], before.shared, e.r, me.username, me.process !in before.processLocks,
                           e.choice, u);
      }
    }
  }

  /** Nobody gets past a lock row while there are no admins. */
  predicate Blocked(pc: Pc) {
    match pc
    case Idle | CheckAdmins(_) | TryProcessLock | RecoverRead | InsertRow => true
    case LeaveLock(outcome) => outcome != Initialized
    case Done(outcome) => outcome != Initialized
    case _ => false
  }

  lemma EffectIsBlocked(pc: Pc, db: Shared, r: RequestId, user: User, lockFree: bool, choice: Choice)
    requires Blocked(pc) && db.admins == {} && db.row != NoRow
    ensures var f := if choice.Works? then Work(pc, db, r, user, lockFree, choice.pick)
                     else Fail(pc, db, user, choice.partial);
            f.shared == db && Blocked(f.pc)
  {
  }

  lemma {:induction false} StaleRowBlocksAll(s: State, events: seq<Event>)
    requires Fresh(s) && s.shared.admins == {} && s.shared.row == Stale
    ensures var t := Run(s, events);
            t.shared == s.shared && forall r :: r in t.pcs ==> Blocked(t.pcs[r])
  {
    if events != [] {
      var before, e := Run(s, events[..|events| - 1]), events[|events| - 1];
      StaleRowBlocksAll(s, events[..|events| - 1]);
      if e.Act? && e.r in before.pcs {
        var me := before.requests[e.r];
        EffectIsBlocked(before.pcs[e.r], before.shared, e.r, me.username, me.process !in before.processLocks, e.choice);
      }
    }
  }

  predicate Won(s: State, r: RequestId) {
    r in s.pcs && s.pcs[r] == Done(Initialized)
  }

  ghost predicate OneSuccess(s: State) {
    forall r, q :: Won(s, r) && Won(s, q) ==> r == q
  }

  /** The role is committed: the request reports success, or will if its process lives. */
  predicate Committed(pc: Pc) {
    pc.Audit? || pc == LeaveLock(Initialized) || pc == Done(Initialized)
  }

  /** What request `r` means for request `q` of the same process once `r` has committed its user's role. */
  predicate PairInv(s: State, r: RequestId, q: RequestId)
    requires WellFormed(s)
  {
    r in s.pcs && q in s.pcs && r != q && SameProcess(s, r, q) && Committed(s.pcs[r]) ==>
      KeptOut(s.pcs[q], s.requests[r].username)
  }

  predicate HasAccount(pc: Pc) {
    pc.AddToGroup? || pc.ResetPassword? || pc.SeedRole?
  }

  predicate OwnInv(s: State, r: RequestId)
    requires WellFormed(s)
  {
    r in s.pcs ==>
      var user := s.requests[r].username;
      && (HasAccount(s.pcs[r]) || Committed(s.pcs[r]) ==> user in s.shared.accounts)
      && (Committed(s.pcs[r]) ==> user in s.shared.admins)
  }

  ghost predicate SuccessInv(s: State) {
    WellFormed(s) && (forall r :: OwnInv(s, r)) && forall r, q :: PairInv(s, r, q)
  }

  lemma StepKeepsOwn(s: State, e: Event, r: RequestId)
    requires SuccessInv(s)
    ensures OwnInv(Step(s, e), r)
  {
    StepGrows(s, e);
    assert OwnInv(s, r);
  }

  lemma StepKeepsPair(s: State, e: Event, r: RequestId, q: RequestId)
    requires Inv(s) && SuccessInv(s)
    ensures PairInv(Step(s, e), r, q)
  {
    var t := Step(s, e);
    if r in t.pcs && q in t.pcs && r != q && SameProcess(t, r, q) && Committed(t.pcs[r]) {
      if Committed(s.pcs[r]) {
        assert OwnInv(s, r) && PairInv(s, r, q);
        StepKeepsOut(s, e, s.requests[r].username, q);
      } else {
        assert RequestInv(s, r) && RequestInv(s, q) && PairInv(s, q, r);
        assert s.pcs[r] == SeedRole && t.pcs[q] == s.pcs[q];
      }
    }
  }

  lemma {:induction false} RunKeepsSuccessInv(s: State, events: seq<Event>)
    requires Fresh(s)
    ensures Inv(Run(s, events)) && SuccessInv(Run(s, events))
  {
    RunKeepsInv(s, events);
    if events != [] {
      var before, e := Run(s, events[..|events| - 1]), events[|events| - 1];
      RunKeepsSuccessInv(s, events[..|events| - 1]);
      forall r ensures OwnInv(Step(before, e), r) {
        StepKeepsOwn(before, e, r);
      }
      forall r, q ensures PairInv(Step(before, e), r, q) {
        StepKeepsPair(before, e, r, q);
      }
    }
  }

  /** Within one process at most one request ever reports success. */
  lemma OneSuccessPerProcess(s: State, events: seq<Event>, r: RequestId, q: RequestId)
    requires Fresh(s) && Won(Run(s, events), r) && Won(Run(s, events), q) && SameProcess(s, r, q)
    ensures r == q
  {
    RunKeepsSuccessInv(s, events);
    assert PairInv(Run(s, events), r, q);
  }

  // ---------- The process lock ----------

  /** A request that finds its process's lock taken ends in a conflict and changes nothing else; one that finds it free
      takes it and checks again. */
  lemma BusyProcessAnswersConflict(s: State, r: RequestId, pick: User)
    requires WellFormed(s) && r in s.pcs && s.pcs[r] == TryProcessLock
    ensures var t, p := Step(s, Act(r, Works(pick))), s.requests[r].process;
            && t.shared == s.shared && t.requests == s.requests
            && (forall q :: q in s.pcs && q != r ==> t.pcs[q] == s.pcs[q])
            && t.pcs[r] == (if p in s.processLocks then Done(Conflict) else CheckAdmins(true))
            && t.processLocks == (if p in s.processLocks then s.processLocks else s.processLocks[p := r])
  {
  }

  // ---------- Exactly when exclusion holds ----------

  ghost predicate TwoProcesses(s: State) {
    exists r, q :: r in s.pcs && q in s.pcs && !SameProcess(s, r, q)
  }

  /** Requests of two processes meet a host where no admin has an account, and either admin roles are left over or
      there is neither an admin role nor a lock row: in particular on a clean first run. */
  ghost predicate MayCollide(s: State) {
    TwoProcesses(s) && !HasUsableAdmin(s.shared) && (s.shared.admins != {} || s.shared.row == NoRow)
  }

  lemma UsableAdminExcludes(s: State, events: seq<Event>, r: RequestId)
    requires Fresh(s) && HasUsableAdmin(s.shared) && r in s.pcs
    ensures !InCritical(Run(s, events), r) && !Won(Run(s, events), r)
  {
    var u :| u in s.shared.admins && u in s.shared.accounts;
    UsableAdminKeepsOut(s, events, u, r);
  }

  lemma StaleRowExcludes(s: State, events: seq<Event>, r: RequestId)
    requires Fresh(s) && s.shared.admins == {} && s.shared.row == Stale && r in s.pcs
    ensures !InCritical(Run(s, events), r) && !Won(Run(s, events), r)
  {
    StaleRowBlocksAll(s, events);
    var t := Run(s, events);
    if r in t.pcs {
      assert Blocked(t.pcs[r]);
    }
  }

  /** Otherwise no request of one process gets in or reports success beside one of another. */
  lemma NoCollision(s: State, events: seq<Event>, r: RequestId, q: RequestId)
    requires Fresh(s) && !MayCollide(s)
    requires r in s.pcs && q in s.pcs && !SameProcess(s, r, q)
    ensures !InCritical(Run(s, events), r) && !Won(Run(s, events), r)
  {
    if HasUsableAdmin(s.shared) {
      UsableAdminExcludes(s, events, r);
    } else {
      assert TwoProcesses(s);
      StaleRowExcludes(s, events, r);
    }
  }

  /** A collision: one request has committed its user's role and not left yet, another one has overtaken it. */
  lemma Collision(s: State) returns (events: seq<Event>, r: RequestId, q: RequestId)
    requires Fresh(s) && MayCollide(s)
    ensures var t := Run(s, events);
            && r in t.pcs && q in t.pcs && !SameProcess(s, r, q)
            && t.pcs[r] == Audit && t.pcs[q] == PersistSettings && t.shared.row == OwnedBy(q)
            && s.requests[r].username in t.shared.admins && s.requests[r].username in t.shared.accounts
  {
    r, q :| r in s.pcs && q in s.pcs && !SameProcess(s, r, q);
    WalkTogether(s, r, q);
    events :| Run(s, events) == Overtaken(s, r, q);
  }

  /** At most one request at a time is inside, in every state of every run, if and only if the start is not one where
      requests may collide: only one process is used, or some admin has an account, or there are no admin roles and a
      lock row is left over. */
  lemma ExclusionHoldsExactly(s: State)
    requires Fresh(s)
    ensures (forall events :: Exclusive(Run(s, events))) <==> !MayCollide(s)
  {
    if MayCollide(s) {
      var events, r, q := Collision(s);
      assert InCritical(Run(s, events), r) && InCritical(Run(s, events), q);
      assert !Exclusive(Run(s, events));
    } else {
      forall events ensures Exclusive(Run(s, events)) {
        RunKeepsInv(s, events);
        InvExcludes(Run(s, events));
        forall r, q | InCritical(Run(s, events), r) && InCritical(Run(s, events), q) ensures r == q {
          if !SameProcess(s, r, q) {
            NoCollision(s, events, r, q);
          }
        }
      }
    }
  }

  /** At most one request ever reports success, in every run, if and only if the same holds: on a clean first run of
      two processes two requests can both initialize the system. */
  lemma OneSuccessExactly(s: State)
    requires Fresh(s)
    ensures (forall events :: OneSuccess(Run(s, events))) <==> !MayCollide(s)
  {
    if MayCollide(s) {
      var events, r, q := Collision(s);
      var t := WalkToTwoSuccesses(Run(s, events), r, q);
      assert Leads(s, Run(s, events));
      LeadsTransitive(s, Run(s, events), t);
      var longer :| Run(s, longer) == t;
      assert !OneSuccess(Run(s, longer));
    } else {
      forall events ensures OneSuccess(Run(s, events)) {
        forall r, q | Won(Run(s, events), r) && Won(Run(s, events), q) ensures r == q {
          if SameProcess(s, r, q) {
            OneSuccessPerProcess(s, events, r, q);
          } else {
            NoCollision(s, events, r, q);
          }
        }
      }
    }
  }

  /** On a clean first run this happens after the first role is committed, and not before. */
  lemma CleanStartCollides(s: State)
    requires Fresh(s) && TwoProcesses(s) && s.shared.admins == {} && s.shared.row == NoRow
    ensures exists events :: !Exclusive(Run(s, events)) && HasUsableAdmin(Run(s, events).shared)
    ensures forall events :: Run(s, events).shared.admins == {} ==> Exclusive(Run(s, events))
  {
    var events, r, q := Collision(s);
    assert InCritical(Run(s, events), r) && InCritical(Run(s, events), q);
    assert !Exclusive(Run(s, events)) && HasUsableAdmin(Run(s, events).shared);
    forall events | Run(s, events).shared.admins == {} ensures Exclusive(Run(s, events)) {
      RunKeepsInv(s, events);
      InvExcludes(Run(s, events));
    }
  }

  /** With admin roles left over and none of them usable, a request gets in from the start, whatever the lock row
      says. */
  lemma OrphanAdminsLetIn(s: State, r: RequestId) returns (t: State)
    requires WellFormed(s) && r in s.pcs && s.pcs[r] == Idle && s.requests[r].process !in s.processLocks
    requires s.shared.admins != {} && !HasUsableAdmin(s.shared)
    ensures t == At(With(Locked(s, r), Taken(s.shared, r)), r, PersistSettings) && Leads(s, t)
  {
    WalkToRecovery(s, r);
    WalkIn(Locked(s, r), r);
    t := At(With(Locked(s, r), Taken(s.shared, r)), r, PersistSettings);
    LeadsTransitive(s, At(Locked(s, r), r, RecoverRead), t);
  }

  /** Then two of them can be inside at once, before any further role is committed. */
  lemma OrphanAdminsBreakExclusion(s: State, r: RequestId, q: RequestId)
    requires Fresh(s) && r in s.pcs && q in s.pcs && !SameProcess(s, r, q)
    requires s.shared.admins != {} && !HasUsableAdmin(s.shared)
    ensures exists events :: !Exclusive(Run(s, events)) && Run(s, events).shared.admins == s.shared.admins
  {
    var one := OrphanAdminsLetIn(s, r);
    var two := OrphanAdminsLetIn(one, q);
    LeadsTransitive(s, one, two);
    var events :| Run(s, events) == two;
    assert InCritical(two, r) && InCritical(two, q) && r != q;
    assert !Exclusive(Run(s, events)) && Run(s, events).shared.admins == s.shared.admins;
  }
}
