/** Concurrent hub and port upserts of `app/repositories/hardware_repository.py`. */
module HardwareUpserts {
  import opened Options

  datatype Field =
    | Name | LocationHint | VendorId | ProductId
    | HubId | PortNumber | FriendlyLabel | Speed | Enabled

  datatype Value = Text(text: string) | Number(number: int) | Flag(flag: bool)

  /** A row's columns that are not NULL. */
  type Row = map<Field, Value>

  /** Rows by their unique identifier: a hub's system identifier, a port's system path. */
  type Table = map<string, Row>

  /** A hub upsert carries a name, a port upsert a hub and a port number; the rest is optional. */
  datatype Args =
    | HubArgs(name: string, locationHint: Option<string>, vendorId: Option<string>, productId: Option<string>)
    | PortArgs(hubId: int, portNumber: int, friendlyLabel: Option<string>, vendorId: Option<string>,
               productId: Option<string>, speed: Option<string>)

  function Maybe(field: Field, value: Option<string>): Row {
    if value.None? then map[] else map[field := Text(value.value)]
  }

  /** The fields a call supplies: an argument that is None supplies nothing. */
  function Supplied(args: Args): Row {
    match args
    case HubArgs(name, hint, vendor, product) =>
      map[Name := Text(name)] + Maybe(LocationHint, hint) + Maybe(VendorId, vendor) + Maybe(ProductId, product)
    case PortArgs(hub, number, friendly, vendor, product, speed) =>
      map[HubId := Number(hub), PortNumber := Number(number)] + Maybe(FriendlyLabel, friendly)
      + Maybe(VendorId, vendor) + Maybe(ProductId, product) + Maybe(Speed, speed)
  }

  /** A new row: what the call supplies, and ports start out disabled. */
  function NewRow(args: Args): Row {
    Supplied(args) + if args.PortArgs? then map[Enabled := Flag(false)] else map[]
  }

  datatype Call = Upsert(key: string, args: Args) | SetEnabled(key: string, enabled: bool)

  function Changes(call: Call): Row {
    match call
    case Upsert(_, args) => Supplied(args)
    case SetEnabled(_, enabled) => map[Enabled := Flag(enabled)]
  }

  /** What one call does on its own: insert or merge for an upsert, merge into an existing row for `set_enabled`. */
  function Merge(t: Table, call: Call): Table {
    if call.key in t then t[call.key := t[call.key] + Changes(call)]
    else if call.Upsert? then t[call.key := NewRow(call.args)]
    else t
  }

  /** What a column holds after an upsert: the argument if one is given, otherwise what it held, if anything. */
  predicate Holds(t: Table, key: string, after: Row, field: Field, value: Option<string>) {
    match value
    case Some(text) => field in after && after[field] == Text(text)
    case None =>
      if key in t && field in t[key] then field in after && after[field] == t[key][field] else field !in after
  }

  /** Whether the call supplies the field, and with what. */
  predicate Gives(supplied: Row, field: Field, value: Option<string>) {
    (field in supplied <==> value.Some?) && (value.Some? ==> supplied[field] == Text(value.value))
  }

  lemma HubGives(name: string, hint: Option<string>, vendor: Option<string>, product: Option<string>)
    ensures var supplied := Supplied(HubArgs(name, hint, vendor, product));
            && Gives(supplied, Name, Some(name)) && Gives(supplied, LocationHint, hint)
            && Gives(supplied, VendorId, vendor) && Gives(supplied, ProductId, product)
  {
  }

  lemma PortGivesPlace(hub: int, number: int, friendly: Option<string>, vendor: Option<string>,
                       product: Option<string>, speed: Option<string>)
    ensures var supplied := Supplied(PortArgs(hub, number, friendly, vendor, product, speed));
            && HubId in supplied && supplied[HubId] == Number(hub)
            && PortNumber in supplied && supplied[PortNumber] == Number(number) && Enabled !in supplied
  {
  }

  lemma PortGives(hub: int, number: int, friendly: Option<string>, vendor: Option<string>, product: Option<string>,
                  speed: Option<string>)
    ensures var supplied := Supplied(PortArgs(hub, number, friendly, vendor, product, speed));
            && Gives(supplied, FriendlyLabel, friendly) && Gives(supplied, Speed, speed)
            && Gives(supplied, VendorId, vendor) && Gives(supplied, ProductId, product)
  {
  }

  /** The row of an upsert: what it held, overwritten by what is supplied. */
  lemma UpsertedRow(t: Table, key: string, args: Args)
    ensures var merged := Merge(t, Upsert(key, args));
            && merged.Keys == t.Keys + {key} && (forall k :: k in t && k != key ==> merged[k] == t[k])
            && merged[key] == if key in t then t[key] + Supplied(args) else NewRow(args)
  {
  }

  lemma ColumnHolds(t: Table, key: string, after: Row, supplied: Row, field: Field, value: Option<string>)
    requires Gives(supplied, field, value)
    requires key in t ==> after == t[key] + supplied
    requires key !in t ==>
               (field in after <==> field in supplied) && (field in after ==> after[field] == supplied[field])
    ensures Holds(t, key, after, field, value)
  {
  }

  /** Every column of a hub after an upsert, by the argument it is named after. */
  lemma HubColumns(t: Table, key: string, name: string, locationHint: Option<string>, vendorId: Option<string>,
                   productId: Option<string>)
    ensures var merged := Merge(t, Upsert(key, HubArgs(name, locationHint, vendorId, productId)));
            && key in merged
            && Holds(t, key, merged[key], Name, Some(name)) && Holds(t, key, merged[key], LocationHint, locationHint)
            && Holds(t, key, merged[key], VendorId, vendorId) && Holds(t, key, merged[key], ProductId, productId)
  {
    var args := HubArgs(name, locationHint, vendorId, productId);
    var supplied, after := Supplied(args), Merge(t, Upsert(key, args))[key];
    HubGives(name, locationHint, vendorId, productId);
    UpsertedRow(t, key, args);
    assert key !in t ==> after == supplied;
    ColumnHolds(t, key, after, supplied, Name, Some(name));
    ColumnHolds(t, key, after, supplied, LocationHint, locationHint);
    ColumnHolds(t, key, after, supplied, VendorId, vendorId);
    ColumnHolds(t, key, after, supplied, ProductId, productId);
  }

  /** Every column of a port after an upsert. */
  lemma PortColumns(t: Table, key: string, hubId: int, portNumber: int, friendlyLabel: Option<string>,
                    vendorId: Option<string>, productId: Option<string>, speed: Option<string>)
    ensures var args := PortArgs(hubId, portNumber, friendlyLabel, vendorId, productId, speed);
            var merged := Merge(t, Upsert(key, args));
            && key in merged
            && Holds(t, key, merged[key], FriendlyLabel, friendlyLabel) && Holds(t, key, merged[key], Speed, speed)
            && Holds(t, key, merged[key], VendorId, vendorId) && Holds(t, key, merged[key], ProductId, productId)
  {
    var args := PortArgs(hubId, portNumber, friendlyLabel, vendorId, productId, speed);
    var supplied, after := Supplied(args), Merge(t, Upsert(key, args))[key];
    PortGives(hubId, portNumber, friendlyLabel, vendorId, productId, speed);
    UpsertedRow(t, key, args);
    assert key !in t ==> after == supplied + map[Enabled := Flag(false)];
    ColumnHolds(t, key, after, supplied, FriendlyLabel, friendlyLabel);
    ColumnHolds(t, key, after, supplied, Speed, speed);
    ColumnHolds(t, key, after, supplied, VendorId, vendorId);
    ColumnHolds(t, key, after, supplied, ProductId, productId);
  }

  /** Its place and its flag: a new port is disabled, and the flag of an existing one stays. */
  lemma PortPlaceAndFlag(t: Table, key: string, args: Args)
    requires args.PortArgs?
    ensures var merged := Merge(t, Upsert(key, args));
            && key in merged
            && HubId in merged[key] && merged[key][HubId] == Number(args.hubId)
            && PortNumber in merged[key] && merged[key][PortNumber] == Number(args.portNumber)
            && (key !in t ==> Enabled in merged[key] && merged[key][Enabled] == Flag(false))
            && (key in t && Enabled in t[key] ==> Enabled in merged[key] && merged[key][Enabled] == t[key][Enabled])
  {
    PortGivesPlace(args.hubId, args.portNumber, args.friendlyLabel, args.vendorId, args.productId, args.speed);
    UpsertedRow(t, key, args);
  }

  /** `set_enabled` sets the flag of a row that is there, and nothing else. */
  lemma EnabledColumn(t: Table, key: string, enabled: bool)
    ensures var merged := Merge(t, SetEnabled(key, enabled));
            && merged.Keys == t.Keys && (forall k :: k in t && k != key ==> merged[k] == t[k])
            && (key in t ==> merged[key] == t[key][Enabled := Flag(enabled)])
  {
    if key in t {
      assert t[key] + map[Enabled := Flag(enabled)] == t[key][Enabled := Flag(enabled)];
    }
  }

  function MergeAll(t: Table, calls: seq<Call>): Table {
    if calls == [] then t else Merge(MergeAll(t, calls[..|calls| - 1]), calls[|calls| - 1])
  }

  // ---------- Interleaved calls ----------

  /** An update writes all supplied fields, or only those that differ from what the session had read. */
  datatype WritePolicy = AllSupplied | ChangedOnly

  datatype Outcome = Saved | NotFound | Raised

  datatype Pc = Start | WillInsert | ReRead | WillUpdate(read: Row) | Done(outcome: Outcome)

  /** `commits` records the calls in the order their commits took effect. */
  datatype State = State(table: Table, calls: map<nat, Call>, pcs: map<nat, Pc>, commits: seq<Call>)

  function Written(changes: Row, read: Row, policy: WritePolicy): Row {
    match policy
    case AllSupplied => changes
    case ChangedOnly => map f | f in changes && !(f in read && read[f] == changes[f]) :: changes[f]
  }

  function Goto(s: State, id: nat, pc: Pc): State {
    s.(pcs := s.pcs[id := pc])
  }

  function Commit(s: State, id: nat, table: Table): State
    requires id in s.calls
  {
    State(table, s.calls, s.pcs[id := Done(Saved)], s.commits + [s.calls[id]])
  }

  /** The next database operation of call `id`: a read, or a commit that may fail and be rolled back. */
  function Step(s: State, id: nat, fails: bool, policy: WritePolicy): State {
    if id !in s.calls || id !in s.pcs then s
    else
      var call := s.calls[id];
      match s.pcs[id]
      case Start =>
        if call.key in s.table then Goto(s, id, WillUpdate(s.table[call.key]))
        else Goto(s, id, if call.Upsert? then WillInsert else Done(NotFound))
      case WillInsert =>
        if fails || call.SetEnabled? then Goto(s, id, Done(Raised))
        else if call.key in s.table then Goto(s, id, ReRead)
        else Commit(s, id, s.table[call.key := NewRow(call.args)])
      case ReRead =>
        Goto(s, id, if call.key in s.table then WillUpdate(s.table[call.key]) else Done(Raised))
      case WillUpdate(read) =>
        if fails || call.key !in s.table then Goto(s, id, Done(Raised))
        else Commit(s, id, s.table[call.key := s.table[call.key] + Written(Changes(call), read, policy)])
      case Done(_) => s
  }

  datatype Event = Event(id: nat, fails: bool)

  function Run(s: State, events: seq<Event>, policy: WritePolicy): State {
    if events == [] then s
    else
      var last := events[|events| - 1];
      Step(Run(s, events[..|events| - 1], policy), last.id, last.fails, policy)
  }

  ghost predicate Fresh(s: State) {
    && s.pcs.Keys == s.calls.Keys && s.commits == []
    && forall id :: id in s.pcs ==> s.pcs[id] == Start
  }

  predicate CallInv(s: State, id: nat) {
    id in s.pcs ==>
      && id in s.calls
      && (s.pcs[id].WillInsert? || s.pcs[id].ReRead? ==> s.calls[id].Upsert?)
      && (s.pcs[id].ReRead? || s.pcs[id].WillUpdate? ==> s.calls[id].key in s.table)
  }

  ghost predicate Inv(s: State) {
    forall id :: CallInv(s, id)
  }

  lemma StepKeepsInv(s: State, id: nat, fails: bool, policy: WritePolicy)
    requires Inv(s)
    ensures Inv(Step(s, id, fails, policy))
    ensures Step(s, id, fails, policy).calls == s.calls && s.table.Keys <= Step(s, id, fails, policy).table.Keys
  {
    assert CallInv(s, id);
    var t := Step(s, id, fails, policy);
    forall q ensures CallInv(t, q) {
      assert CallInv(s, q);
    }
  }

  lemma {:induction false} RunKeepsInv(s: State, events: seq<Event>, policy: WritePolicy)
    requires Fresh(s)
    ensures Inv(Run(s, events, policy)) && Run(s, events, policy).calls == s.calls
    ensures s.table.Keys <= Run(s, events, policy).table.Keys
  {
    if events != [] {
      var last := events[|events| - 1];
      RunKeepsInv(s, events[..|events| - 1], policy);
      StepKeepsInv(Run(s, events[..|events| - 1], policy), last.id, last.fails, policy);
    }
  }

  /** After an insert that conflicts with a row of the same identifier that row is always there to be read again. */
  lemma ConflictIsAlwaysRetried(s: State, events: seq<Event>, id: nat, fails: bool, policy: WritePolicy)
    requires Fresh(s) && id in Run(s, events, policy).pcs && Run(s, events, policy).pcs[id] == ReRead
    ensures Step(Run(s, events, policy), id, fails, policy).pcs[id].WillUpdate?
  {
    RunKeepsInv(s, events, policy);
    assert CallInv(Run(s, events, policy), id);
  }

  /** Left alone, a call that does not fail is saved as it is: an upsert after at most two operations, and so is
      `set_enabled` of a row that is there. */
  lemma SoloCallSaves(s: State, id: nat, policy: WritePolicy)
    requires id in s.calls && id in s.pcs && s.pcs[id] == Start
    ensures var call, one := s.calls[id], Step(s, id, false, policy);
            var two := Step(one, id, false, policy);
            if call.Upsert? || call.key in s.table
            then && two.pcs == s.pcs[id := Done(Saved)] && two.table == Merge(s.table, call)
                 && two.commits == s.commits + [call]
            else one == State(s.table, s.calls, s.pcs[id := Done(NotFound)], s.commits)
  {
    var call := s.calls[id];
    var one := Step(s, id, false, policy);
    if call.key in s.table {
      var row := s.table[call.key];
      ChangedOnlyIsEnoughExactly(row, row, Changes(call));
      assert one.pcs[id] == WillUpdate(row) && one.table == s.table;
      assert one.pcs[id := Done(Saved)] == s.pcs[id := Done(Saved)];
    } else if call.Upsert? {
      assert one.pcs[id] == WillInsert && one.table == s.table;
      assert one.pcs[id := Done(Saved)] == s.pcs[id := Done(Saved)];
    }
  }

  /** What an operation may change: rows stay; stored fields stay; a field gets a new value only from a call that
      supplies it with that value; and only `set_enabled` changes the enabled flag of an existing row. */
  ghost predicate Careful(before: Table, after: Table, call: Call) {
    forall k :: k in before ==>
      && k in after && before[k].Keys <= after[k].Keys
      && (forall f :: f in after[k] && !(f in before[k] && before[k][f] == after[k][f]) ==>
            k == call.key && f in Changes(call) && after[k][f] == Changes(call)[f])
      && (call.Upsert? && Enabled in before[k] ==> after[k][Enabled] == before[k][Enabled])
  }

  lemma SuppliedIsNotEnabled(args: Args)
    ensures Enabled !in Supplied(args)
    ensures args.PortArgs? ==> NewRow(args)[Enabled] == Flag(false)
  {
  }

  lemma UpdateIsCareful(t: Table, call: Call, read: Row, policy: WritePolicy)
    requires call.key in t
    ensures Careful(t, t[call.key := t[call.key] + Written(Changes(call), read, policy)], call)
  {
    if call.Upsert? {
      SuppliedIsNotEnabled(call.args);
    }
  }

  /** No argument left at None ever erases a stored field, under either policy and any interleaving. */
  lemma NothingIsErased(s: State, events: seq<Event>, id: nat, fails: bool, policy: WritePolicy)
    requires Fresh(s) && id in s.calls
    ensures var now := Run(s, events, policy);
            Careful(now.table, Step(now, id, fails, policy).table, s.calls[id])
  {
    var now := Run(s, events, policy);
    RunKeepsInv(s, events, policy);
    assert CallInv(now, id);
    if id in now.pcs && now.pcs[id].WillUpdate? && now.calls[id].key in now.table {
      UpdateIsCareful(now.table, now.calls[id], now.pcs[id].read, policy);
    }
  }

  /** The stored row still holds every supplied value the session saw when it read: nothing it regards as unchanged
      has been changed by someone else. */
  predicate UpToDate(row: Row, read: Row, changes: Row) {
    forall f :: f in changes && f in read && read[f] == changes[f] ==> f in row && row[f] == changes[f]
  }

  /** Writing only changed fields amounts to writing all supplied ones exactly when the session is up to date. */
  lemma ChangedOnlyIsEnoughExactly(row: Row, read: Row, changes: Row)
    ensures row + Written(changes, read, ChangedOnly) == row + changes <==> UpToDate(row, read, changes)
  {
    var partly, fully := row + Written(changes, read, ChangedOnly), row + changes;
    if UpToDate(row, read, changes) {
      assert partly.Keys == fully.Keys;
      assert partly == fully;
    }
    if partly == fully {
      forall f | f in changes && f in read && read[f] == changes[f] ensures f in row && row[f] == changes[f] {
        assert f in fully;
        assert partly[f] == fully[f];
      }
    }
  }

  /** Every update of the run that commits is up to date when it does. */
  ghost predicate AlwaysUpToDate(s: State, events: seq<Event>, policy: WritePolicy) {
    events == []
    || (var before, last := events[..|events| - 1], events[|events| - 1];
        AlwaysUpToDate(s, before, policy) && (last.fails || CommitsUpToDate(Run(s, before, policy), last.id)))
  }

  predicate CommitsUpToDate(s: State, id: nat) {
    id in s.calls && id in s.pcs && s.pcs[id].WillUpdate? && s.calls[id].key in s.table ==>
      UpToDate(s.table[s.calls[id].key], s.pcs[id].read, Changes(s.calls[id]))
  }

  lemma RunOn(s: State, events: seq<Event>, e: Event, policy: WritePolicy)
    ensures Run(s, events + [e], policy) == Step(Run(s, events, policy), e.id, e.fails, policy)
  {
    assert (events + [e])[..|events|] == events;
  }

  /** A step that commits nothing, or commits and merges its call, keeps the table merged. */
  lemma MergedOn(t: Table, before: State, after: State, call: Call)
    requires before.table == MergeAll(t, before.commits)
    requires || (after.commits == before.commits && after.table == before.table)
             || (after.commits == before.commits + [call] && after.table == Merge(before.table, call))
    ensures after.table == MergeAll(t, after.commits)
  {
    if after.commits != before.commits {
      assert after.commits[..|after.commits| - 1] == before.commits;
    }
  }

  /** The table always equals the calls merged in the order of their commits: whatever the interleaving, the failing
      commits and the conflicts, when updates write all supplied fields; and also when they write only changed
      fields, provided every committing update is up to date. */
  lemma {:induction false} MergedInCommitOrder(s: State, events: seq<Event>, policy: WritePolicy)
    requires Fresh(s)
    requires policy == ChangedOnly ==> AlwaysUpToDate(s, events, policy)
    ensures Run(s, events, policy).table == MergeAll(s.table, Run(s, events, policy).commits)
  {
    if events != [] {
      var n := |events| - 1;
      var before, e := events[..n], events[n];
      MergedInCommitOrder(s, before, policy);
      RunKeepsInv(s, before, policy);
      StepIsMerge(s, Run(s, before, policy), e, policy);
    }
  }

  lemma StepIsMerge(s: State, now: State, e: Event, policy: WritePolicy)
    requires Inv(now) && now.table == MergeAll(s.table, now.commits)
    requires policy == ChangedOnly ==> e.fails || CommitsUpToDate(now, e.id)
    ensures var next := Step(now, e.id, e.fails, policy); next.table == MergeAll(s.table, next.commits)
  {
    assert CallInv(now, e.id);
    StepMerges(now, e.id, e.fails, policy);
    if e.id in now.calls {
      MergedOn(s.table, now, Step(now, e.id, e.fails, policy), now.calls[e.id]);
    }
  }

  lemma StepMerges(s: State, id: nat, fails: bool, policy: WritePolicy)
    requires CallInv(s, id)
    requires policy == ChangedOnly ==> fails || CommitsUpToDate(s, id)
    ensures var t := Step(s, id, fails, policy);
            || (t.commits == s.commits && t.table == s.table)
            || (id in s.calls && t.commits == s.commits + [s.calls[id]] && t.table == Merge(s.table, s.calls[id]))
  {
    if id in s.calls && id in s.pcs && s.pcs[id].WillUpdate? && s.calls[id].key in s.table && policy == ChangedOnly {
      ChangedOnlyIsEnoughExactly(s.table[s.calls[id].key], s.pcs[id].read, Changes(s.calls[id]));
    }
  }

  /** At every point of the run the table is the calls committed so far, merged in that order. */
  ghost predicate AlwaysMerged(s: State, events: seq<Event>, policy: WritePolicy) {
    && Run(s, events, policy).table == MergeAll(s.table, Run(s, events, policy).commits)
    && (events == [] || AlwaysMerged(s, events[..|events| - 1], policy))
  }

  /** When updates write only changed fields, this holds if and only if every update that commits is up to date. */
  lemma {:induction false} AlwaysMergedExactly(s: State, events: seq<Event>)
    requires Fresh(s)
    ensures AlwaysMerged(s, events, ChangedOnly) <==> AlwaysUpToDate(s, events, ChangedOnly)
  {
    if events == [] {
      MergedInCommitOrder(s, events, ChangedOnly);
    } else {
      var before, e := events[..|events| - 1], events[|events| - 1];
      AlwaysMergedExactly(s, before);
      if AlwaysMerged(s, before, ChangedOnly) {
        LastStepExactly(s, before, e);
      }
    }
  }

  lemma LastStepExactly(s: State, events: seq<Event>, e: Event)
    requires Fresh(s)
    requires var now := Run(s, events, ChangedOnly); now.table == MergeAll(s.table, now.commits)
    ensures var now := Run(s, events, ChangedOnly);
            var next := Step(now, e.id, e.fails, ChangedOnly);
            next.table == MergeAll(s.table, next.commits) <==> e.fails || CommitsUpToDate(now, e.id)
  {
    var now := Run(s, events, ChangedOnly);
    RunKeepsInv(s, events, ChangedOnly);
    if e.fails || CommitsUpToDate(now, e.id) {
      StepIsMerge(s, now, e, ChangedOnly);
    } else {
      CommitMergesExactly(now, e.id);
      var next := Step(now, e.id, false, ChangedOnly);
      assert next.commits[..|next.commits| - 1] == now.commits;
    }
  }

  /** When updates write only changed fields, a committing update does what its call would do on its own exactly when
      it is up to date; otherwise the update is lost in part. */
  lemma CommitMergesExactly(s: State, id: nat)
    requires id in s.calls && id in s.pcs && s.pcs[id].WillUpdate? && s.calls[id].key in s.table
    ensures var t := Step(s, id, false, ChangedOnly);
            && t.commits == s.commits + [s.calls[id]]
            && (t.table == Merge(s.table, s.calls[id]) <==> CommitsUpToDate(s, id))
  {
    var call, read := s.calls[id], s.pcs[id].read;
    var row := s.table[call.key];
    ChangedOnlyIsEnoughExactly(row, read, Changes(call));
    var t := Step(s, id, false, ChangedOnly);
    assert t.table[call.key] == row + Written(Changes(call), read, ChangedOnly);
    assert Merge(s.table, call)[call.key] == row + Changes(call);
  }

  /** A hub upsert that supplies a name only. */
  function Rename(key: string, name: string): Call {
    Upsert(key, HubArgs(name, None, None, None))
  }

  function Named(name: string): Row {
    map[Name := Text(name)]
  }

  /** One stored hub and two upserts of it: call 0 gives it a new name, call 1 the name it has. */
  function TwoRenames(key: string, oldName: string, newName: string): State {
    Renaming(key, oldName, newName, oldName, Start, Start, [])
  }

  /** Its later states: the hub's current name, where the two calls are, and the commits so far. */
  function Renaming(key: string, oldName: string, newName: string, current: string, pc0: Pc, pc1: Pc,
                    commits: seq<Call>): State {
    State(map[key := Named(current)], map[0 := Rename(key, newName), 1 := Rename(key, oldName)],
          map[0 := pc0, 1 := pc1], commits)
  }

  lemma RenameWrites(key: string, name: string, read: string, stored: string)
    ensures Changes(Rename(key, name)) == Named(name)
    ensures Named(stored) + Written(Named(name), Named(read), ChangedOnly)
         == Named(if name == read then stored else name)
  {
  }

  lemma BothRead(key: string, oldName: string, newName: string)
    ensures var s, read := TwoRenames(key, oldName, newName), WillUpdate(Named(oldName));
            Step(Step(s, 1, false, ChangedOnly), 0, false, ChangedOnly)
              == Renaming(key, oldName, newName, oldName, read, read, [])
  {
    var s, read := TwoRenames(key, oldName, newName), WillUpdate(Named(oldName));
    var one := Step(s, 1, false, ChangedOnly);
    assert one == Renaming(key, oldName, newName, oldName, Start, read, []);
    assert one.pcs[0 := read] == map[0 := read, 1 := read];
  }

  lemma NewNameCommits(key: string, oldName: string, newName: string, read: Pc)
    requires oldName != newName && read == WillUpdate(Named(oldName))
    ensures Step(Renaming(key, oldName, newName, oldName, read, read, []), 0, false, ChangedOnly)
         == Renaming(key, oldName, newName, newName, Done(Saved), read, [Rename(key, newName)])
  {
    RenameWrites(key, newName, oldName, oldName);
  }

  lemma OldNameCommits(key: string, oldName: string, newName: string, read: Pc)
    requires oldName != newName && read == WillUpdate(Named(oldName))
    ensures Step(Renaming(key, oldName, newName, newName, Done(Saved), read, [Rename(key, newName)]),
                 1, false, ChangedOnly)
         == Renaming(key, oldName, newName, newName, Done(Saved), Done(Saved),
                     [Rename(key, newName), Rename(key, oldName)])
  {
    RenameWrites(key, oldName, oldName, newName);
    var done := Done(Saved);
    assert map[0 := done, 1 := read][1 := done] == map[0 := done, 1 := done];
    assert [Rename(key, newName)] + [Rename(key, oldName)] == [Rename(key, newName), Rename(key, oldName)];
  }

  lemma RunOfFour(s: State, a: Event, b: Event, c: Event, d: Event, policy: WritePolicy)
    ensures Run(s, [a, b, c, d], policy)
         == Step(Step(Step(Step(s, a.id, a.fails, policy), b.id, b.fails, policy), c.id, c.fails, policy),
                 d.id, d.fails, policy)
  {
    RunOn(s, [], a, policy);
    RunOn(s, [a], b, policy);
    RunOn(s, [a, b], c, policy);
    RunOn(s, [a, b, c], d, policy);
    assert [] + [a] == [a] && [a] + [b] == [a, b] && [a, b] + [c] == [a, b, c] && [a, b, c] + [d] == [a, b, c, d];
  }

  /** A run in which an update is lost when only changed fields are written: both calls read, call 0 commits its new
      name, and then call 1 commits nothing. Merged in commit order the hub would have its old name again. */
  lemma ChangedOnlyLosesAnUpdate(key: string, oldName: string, newName: string)
    requires oldName != newName
    ensures var s := TwoRenames(key, oldName, newName);
            var t := Run(s, [Event(1, false), Event(0, false), Event(0, false), Event(1, false)], ChangedOnly);
            && Fresh(s)
            && t.pcs == map[0 := Done(Saved), 1 := Done(Saved)]
            && t.table == map[key := Named(newName)]
            && MergeAll(s.table, t.commits) == map[key := Named(oldName)]
            && t.table != MergeAll(s.table, t.commits)
  {
    var s, read := TwoRenames(key, oldName, newName), WillUpdate(Named(oldName));
    RunOfFour(s, Event(1, false), Event(0, false), Event(0, false), Event(1, false), ChangedOnly);
    BothRead(key, oldName, newName);
    NewNameCommits(key, oldName, newName, read);
    OldNameCommits(key, oldName, newName, read);
    TwoRenamesMerged(key, oldName, newName);
    assert Named(oldName)[Name] != Named(newName)[Name];
    assert map[key := Named(oldName)][key] != map[key := Named(newName)][key];
  }

  lemma TwoRenamesMerged(key: string, oldName: string, newName: string)
    ensures MergeAll(map[key := Named(oldName)], [Rename(key, newName), Rename(key, oldName)])
         == map[key := Named(oldName)]
  {
    var table := map[key := Named(oldName)];
    MergeTwo(table, Rename(key, newName), Rename(key, oldName));
    RenameWrites(key, newName, oldName, oldName);
    RenameWrites(key, oldName, oldName, newName);
    assert Named(oldName) + Named(newName) == Named(newName) && Named(newName) + Named(oldName) == Named(oldName);
    assert Merge(table, Rename(key, newName)) == map[key := Named(newName)];
  }

  lemma MergeTwo(t: Table, a: Call, b: Call)
    ensures MergeAll(t, [a, b]) == Merge(Merge(t, a), b)
  {
    assert [a, b][..1] == [a] && [a][..0] == [];
    assert MergeAll(t, [a]) == Merge(t, a);
  }

  // ---------- The code ----------

  /** `HubRepository` and `PortRepository` in one session. `others` says what concurrent sessions make of the table
      between this session's read and its commit; they never delete rows. */
  class Repository {
    var table: Table

    constructor (table: Table)
      ensures this.table == table
    {
      this.table := table;
    }

    /** The conditional assignments to a loaded row. */
    static method AssignFields(row: Row, args: Args) returns (updated: Row)
      ensures updated == row + Supplied(args)
    {
      if args.HubArgs? {
        updated := AssignHubFields(row, args);
      } else {
        updated := AssignPortFields(row, args);
      }
    }

    static method AssignHubFields(row: Row, args: Args) returns (updated: Row)
      requires args.HubArgs?
      ensures updated == row + Supplied(args)
    {
      ghost var given: Row := map[Name := Text(args.name)];
      updated := row[Name := Text(args.name)];
      assert updated == row + given;
      updated, given := AssignGiven(row, updated, given, LocationHint, args.locationHint);
      updated, given := AssignGiven(row, updated, given, VendorId, args.vendorId);
      updated, given := AssignGiven(row, updated, given, ProductId, args.productId);
    }

    static method AssignPortFields(row: Row, args: Args) returns (updated: Row)
      requires args.PortArgs?
      ensures updated == row + Supplied(args)
    {
      ghost var given: Row := map[HubId := Number(args.hubId), PortNumber := Number(args.portNumber)];
      updated := row[HubId := Number(args.hubId)];
      updated := updated[PortNumber := Number(args.portNumber)];
      assert updated == row + given;
      updated, given := AssignGiven(row, updated, given, FriendlyLabel, args.friendlyLabel);
      updated, given := AssignGiven(row, updated, given, VendorId, args.vendorId);
      updated, given := AssignGiven(row, updated, given, ProductId, args.productId);
      updated, given := AssignGiven(row, updated, given, Speed, args.speed);
    }

    /** `if value is not None: row.field = value`; `given` collects what has been assigned to `row` so far. */
    static method AssignGiven(ghost row: Row, current: Row, ghost given: Row, field: Field, value: Option<string>)
      returns (updated: Row, ghost given': Row)
      requires current == row + given
      ensures given' == given + Maybe(field, value)
      ensures updated == row + given'
    {
      updated := current;
      given' := given + Maybe(field, value);
      if value.Some? {
        updated := updated[field := Text(value.value)];
      }
    }

    /** What a commit writes of a loaded row: the fields assigned a value that differs from the one read. */
    static function Dirty(read: Row, updated: Row): Row {
      map f | f in updated && !(f in read && read[f] == updated[f]) :: updated[f]
    }

    /** A successful upsert of a row that is not there when the session looks for it is the merge of the call into the
        table as it is at the commit, whether the insert conflicts or not. A row found at first is written as the policy
        says; that is the merge exactly when the row is up to date or all supplied fields are written. */
    method UpsertRow(key: string, args: Args, others: Table -> Table, commits: bool, policy: WritePolicy)
      returns (outcome: Outcome)
      requires forall t: Table :: t.Keys <= others(t).Keys
      modifies this
      ensures outcome == if commits then Saved else Raised
      ensures !commits ==> table == others(old(table))
      ensures commits && key !in old(table) ==> table == Merge(others(old(table)), Upsert(key, args))
      ensures commits && key in old(table) ==>
                var row := others(old(table))[key];
                && table == others(old(table))[key := row + Written(Supplied(args), old(table)[key], policy)]
                && (table == Merge(others(old(table)), Upsert(key, args)) <==>
                      policy == AllSupplied || UpToDate(row, old(table)[key], Supplied(args)))
    {
      var found := key in table;
      var read := if found then table[key] else map[];
      ghost var before := table;
      table := others(table);
      if !commits {
        return Raised;
      }
      if !found {
        if key !in table {
          table := table[key := NewRow(args)];
          return Saved;
        }
        // The unique constraint refused the insert: rolled back, read again, and retried as an update.
        read := table[key];
        UpToDateRow(read, Supplied(args));
      }
      var updated := AssignFields(read, args);
      DirtyIsWritten(read, Supplied(args));
      var written := if policy == ChangedOnly then Dirty(read, updated) else Supplied(args);
      ChangedOnlyIsEnoughExactly(table[key], read, Supplied(args));
      SameRowExactly(table, key, table[key] + written, table[key] + Supplied(args));
      table := table[key := table[key] + written];
      outcome := Saved;
    }

    method SetPortEnabled(key: string, enabled: bool, others: Table -> Table, commits: bool, policy: WritePolicy)
      returns (outcome: Outcome)
      requires forall t: Table :: t.Keys <= others(t).Keys
      modifies this
      ensures outcome == if key !in old(table) then NotFound else if commits then Saved else Raised
      ensures key !in old(table) ==> table == old(table)
      ensures key in old(table) && !commits ==> table == others(old(table))
      ensures key in old(table) && commits ==>
                var row, changes := others(old(table))[key], map[Enabled := Flag(enabled)];
                && table == others(old(table))[key := row + Written(changes, old(table)[key], policy)]
                && (table == Merge(others(old(table)), SetEnabled(key, enabled)) <==>
                      policy == AllSupplied || UpToDate(row, old(table)[key], changes))
    {
      if key !in table {
        return NotFound;
      }
      var read := table[key];
      table := others(table);
      if !commits {
        return Raised;
      }
      var changes: Row := map[Enabled := Flag(enabled)];
      var updated := read[Enabled := Flag(enabled)];
      assert updated == read + changes;
      DirtyIsWritten(read, changes);
      var written := if policy == ChangedOnly then Dirty(read, updated) else changes;
      ChangedOnlyIsEnoughExactly(table[key], read, changes);
      SameRowExactly(table, key, table[key] + written, table[key] + changes);
      table := table[key := table[key] + written];
      outcome := Saved;
    }
  }

  lemma DirtyIsWritten(read: Row, changes: Row)
    ensures Repository.Dirty(read, read + changes) == Written(changes, read, ChangedOnly)
  {
  }

  lemma UpToDateRow(row: Row, changes: Row)
    ensures UpToDate(row, row, changes)
  {
  }

  lemma SameRowExactly(t: Table, key: string, a: Row, b: Row)
    ensures t[key := a] == t[key := b] <==> a == b
  {
    assert t[key := a][key] == a && t[key := b][key] == b;
  }
}
