/** `scripts/sync_postman_collection.py` (the generator) against `scripts/check_postman_collection.py` (the check). */
module PostmanSync {
  import opened Options
  import opened PostmanPaths
  import opened Sequences

  // ---------- Collections and schemas ----------

  /** A request object; `extra` stands for its other keys. */
  datatype RequestData = RequestData(verb: string, url: Url, extra: string)

  /** A collection item: a folder, a request, or both; `extra` stands for its other keys. */
  datatype Item = Item(name: Option<string>, nested: Nested, request: Option<RequestData>, extra: string)

  /** The `item` entry of an item: a list of items, or nothing usable as one. */
  datatype Nested = NoList | List(items: seq<Item>)

  datatype Variable = Variable(key: string, value: string)

  datatype Payload = Payload(items: seq<Item>, variables: seq<Variable>, extra: string)

  datatype Operation = Operation(verb: string, path: string, operationId: string, summary: string)

  datatype CollectionRequest = CollectionRequest(trail: seq<string>, verb: string, path: string)

  const GENERATED_NAME := "OpenAPI Route Sync (Generated)"
  const GENERATED_DESCRIPTION :=
    "Auto-generated from the ECUBE OpenAPI schema by scripts/sync_postman_collection.py. Do not edit manually."

  function Upper(s: string): string {
    seq(|s|, i requires 0 <= i < |s| => if 'a' <= s[i] <= 'z' then (s[i] as int - 32) as char else s[i])
  }

  /** An operation as the schema reader produces it: an upper-case HTTP method and a well-formed path. */
  ghost predicate WellFormedOperation(op: Operation) {
    op.verb != "" && Upper(op.verb) == op.verb && WellFormedPath(op.path)
  }

  ghost predicate WellFormedSchema(ops: seq<Operation>) {
    forall i :: 0 <= i < |ops| ==> WellFormedOperation(ops[i])
  }

  /** `request_matches_openapi`. */
  predicate Matches(verb: string, path: string, ops: seq<Operation>) {
    exists i :: 0 <= i < |ops| && ops[i].verb == verb && PatternMatches(PathToPattern(ops[i].path), path)
  }

  // ---------- The check ----------

  function NameOf(item: Item): string {
    if item.name.Some? && item.name.value != "" then item.name.value else "<unnamed>"
  }

  /** `iter_collection_requests`: nested requests come before the item's own; `None` is its ValueError. */
  function Requests(items: seq<Item>, trail: seq<string>, urlPath: string -> string): Option<seq<CollectionRequest>>
    decreases items, 1
  {
    if items == [] then Some([])
    else Both(ItemRequests(items[0], trail, urlPath), Requests(items[1..], trail, urlPath))
  }

  function ItemRequests(item: Item, trail: seq<string>, urlPath: string -> string): Option<seq<CollectionRequest>>
    decreases item, 0
  {
    var here := trail + [NameOf(item)];
    Both(if item.nested.List? then Requests(item.nested.items, here, urlPath) else Some([]),
         OwnRequest(item.request, here, urlPath))
  }

  function OwnRequest(request: Option<RequestData>, trail: seq<string>, urlPath: string -> string)
    : Option<seq<CollectionRequest>>
  {
    if request.None? then Some([])
    else
      var verb := Upper(request.value.verb);
      var path := NormalizeUrl(request.value.url, urlPath);
      if verb == "" || path.None? then None else Some([CollectionRequest(trail, verb, path.value)])
  }

  datatype Drift = WrongMethod(request: CollectionRequest) | UnknownRoute(request: CollectionRequest)

  function RequestDrift(r: CollectionRequest, ops: seq<Operation>): seq<Drift> {
    if Matches(r.verb, r.path, ops) then []
    else if exists i :: 0 <= i < |ops| && PatternMatches(PathToPattern(ops[i].path), r.path) then [WrongMethod(r)]
    else [UnknownRoute(r)]
  }

  /** `find_collection_drift`. */
  function CollectionDrift(requests: seq<CollectionRequest>, ops: seq<Operation>): seq<Drift> {
    if requests == [] then [] else RequestDrift(requests[0], ops) + CollectionDrift(requests[1..], ops)
  }

  /** `find_generated_sync_folder`: the first top-level folder with the reserved name. */
  function GeneratedFolder(items: seq<Item>): (r: Option<Item>)
    ensures r.Some? ==> r.value.nested.List?
  {
    if items == [] then None
    else if items[0].name == Some(GENERATED_NAME) && items[0].nested.List? then Some(items[0])
    else GeneratedFolder(items[1..])
  }

  type Key = (string, string)

  function RequestKeys(requests: seq<CollectionRequest>): set<Key> {
    set r | r in requests :: (r.verb, Canonicalize(r.path))
  }

  function RouteKeys(ops: seq<Operation>, urlPath: string -> string): set<Key> {
    set op | op in ops :: (op.verb, Canonicalize(NormalizePath(op.path, urlPath)))
  }

  datatype GeneratedDrift = MissingFolder | Unreadable | Differs(missing: set<Key>, extra: set<Key>) | InSync

  /** `find_generated_sync_drift`. */
  function FindGeneratedDrift(items: seq<Item>, ops: seq<Operation>, urlPath: string -> string): GeneratedDrift {
    var folder := GeneratedFolder(items);
    if folder.None? then MissingFolder
    else
      var requests := Requests(folder.value.nested.items, [GENERATED_NAME], urlPath);
      if requests.None? then Unreadable
      else
        var have, want := RequestKeys(requests.value), RouteKeys(ops, urlPath);
        if want - have == {} && have - want == {} then InSync else Differs(want - have, have - want)
  }

  // ---------- The generator ----------

  function OperationLe(): (Operation, Operation) -> bool {
    (a: Operation, b: Operation) =>
      if a.path == b.path then LexLe(a.verb, b.verb) else LexLe(a.path, b.path)
  }

  predicate LexLe(a: string, b: string) {
    a == "" || (b != "" && (a[0] < b[0] || (a[0] == b[0] && LexLe(a[1..], b[1..]))))
  }

  function BuildRequest(op: Operation): Item {
    var description := "Auto-generated from the ECUBE OpenAPI schema."
      + (if op.summary != "" then "\n\nSummary: " + op.summary else "")
      + (if op.operationId != "" then "\n\noperationId: " + op.operationId else "");
    Item(Some(op.verb + " " + op.path), NoList, Some(RequestData(op.verb, BuildUrl(op.path), description)), "")
  }

  function BuildRequests(ops: seq<Operation>): seq<Item> {
    seq(|ops|, i requires 0 <= i < |ops| => BuildRequest(ops[i]))
  }

  function BuildFolder(ops: seq<Operation>): Item {
    Item(Some(GENERATED_NAME), List(BuildRequests(Sort(ops, OperationLe()))), None, GENERATED_DESCRIPTION)
  }

  /** One item of `_prune_stale_items`: `None` is the ValueError of a URL that cannot be normalized, `Some([])` an
      item that is dropped. */
  function PruneItem(item: Item, ops: seq<Operation>, urlPath: string -> string): Option<seq<Item>>
    decreases item, 0
  {
    if item.name == Some(GENERATED_NAME) then Some([])
    else
      var nested := if item.nested.List? then Prune(item.nested.items, ops, urlPath) else Some([]);
      if nested.None? then None
      else
        var updated := if item.nested.List? then item.(nested := List(nested.value)) else item;
        if item.request.None? then Some(if nested.value != [] then [updated] else [])
        else
          var verb := Upper(item.request.value.verb);
          if verb == "" then Some([])
          else
            var path := NormalizeUrl(item.request.value.url, urlPath);
            if path.None? then None
            else Some(if Matches(verb, path.value, ops) then [updated] else [])
  }

  function Prune(items: seq<Item>, ops: seq<Operation>, urlPath: string -> string): Option<seq<Item>>
    decreases items, 1
  {
    if items == [] then Some([])
    else Both(PruneItem(items[0], ops, urlPath), Prune(items[1..], ops, urlPath))
  }

  /** The parameter names of a path, `\{([^{}]+)\}` found from left to right. */
  function Parameters(path: string): seq<string>
    decreases |path|
  {
    if path == "" then []
    else
      var n := if path[0] == '{' then NameLength(path[1..]) else 0;
      if n >= 1 && n + 1 < |path| && path[n + 1] == '}' then [path[1..n + 1]] + Parameters(path[n + 2..])
      else Parameters(path[1..])
  }

  function AllParameters(ops: seq<Operation>): seq<string> {
    if ops == [] then [] else Parameters(ops[0].path) + AllParameters(ops[1..])
  }

  function Distinct(names: seq<string>): seq<string> {
    if names == [] then []
    else if names[0] in names[1..] then Distinct(names[1..])
    else [names[0]] + Distinct(names[1..])
  }

  function ParameterNames(ops: seq<Operation>): seq<string> {
    Sort(Distinct(AllParameters(ops)), LexLe)
  }

  function EndsWith(s: string, suffix: string): bool {
    |s| >= |suffix| && s[|s| - |suffix|..] == suffix
  }

  function DefaultValue(name: string): string {
    if EndsWith(name, "_id") then "1"
    else if EndsWith(name, "_name") then "sample-" + name[..|name| - 5]
    else if name == "filename" then "ecube.log"
    else "sample-" + name
  }

  function ExistingKeys(variables: seq<Variable>): set<string> {
    set v | v in variables && v.key != "" :: v.key
  }

  function NewVariables(existing: set<string>, names: seq<string>): seq<Variable> {
    if names == [] then []
    else (if names[0] in existing then [] else [Variable(names[0], DefaultValue(names[0]))])
         + NewVariables(existing, names[1..])
  }

  function EnsureVariables(variables: seq<Variable>, ops: seq<Operation>): seq<Variable> {
    variables + NewVariables(ExistingKeys(variables), ParameterNames(ops))
  }

  /** `sync_collection_payload`. */
  function Sync(payload: Payload, ops: seq<Operation>, urlPath: string -> string): Option<Payload> {
    var items := Prune(payload.items, ops, urlPath);
    if items.None? then None
    else Some(payload.(items := items.value + [BuildFolder(ops)], variables := EnsureVariables(payload.variables, ops)))
  }

  // ---------- Structure of the two walks ----------

  lemma {:induction false} RequestsAppend(a: seq<Item>, b: seq<Item>, trail: seq<string>, urlPath: string -> string)
    ensures Requests(a + b, trail, urlPath) == Both(Requests(a, trail, urlPath), Requests(b, trail, urlPath))
  {
    if a == [] {
      assert a + b == b;
      BothUnit(Requests(b, trail, urlPath));
    } else {
      RequestsAppend(a[1..], b, trail, urlPath);
      assert (a + b)[1..] == a[1..] + b;
      BothAssociates(ItemRequests(a[0], trail, urlPath), Requests(a[1..], trail, urlPath), Requests(b, trail, urlPath));
    }
  }

  lemma {:induction false} PruneAppend(a: seq<Item>, b: seq<Item>, ops: seq<Operation>, urlPath: string -> string)
    ensures Prune(a + b, ops, urlPath) == Both(Prune(a, ops, urlPath), Prune(b, ops, urlPath))
  {
    if a == [] {
      assert a + b == b;
      BothUnit(Prune(b, ops, urlPath));
    } else {
      PruneAppend(a[1..], b, ops, urlPath);
      assert (a + b)[1..] == a[1..] + b;
      BothAssociates(PruneItem(a[0], ops, urlPath), Prune(a[1..], ops, urlPath), Prune(b, ops, urlPath));
    }
  }

  // ---------- What survives ----------

  /** Every request of a tree in the order the check lists them, each with the answer to "does it match a route,
      and does no ancestor have the reserved name or a request that is stale or lacks a method?" Requests without
      a method or without a usable URL are not listed. */
  function Annotated(items: seq<Item>, trail: seq<string>, alive: bool, ops: seq<Operation>,
                     urlPath: string -> string): seq<(CollectionRequest, bool)>
    decreases items, 1
  {
    if items == [] then []
    else AnnotatedItem(items[0], trail, alive, ops, urlPath) + Annotated(items[1..], trail, alive, ops, urlPath)
  }

  function AnnotatedItem(item: Item, trail: seq<string>, alive: bool, ops: seq<Operation>,
                         urlPath: string -> string): seq<(CollectionRequest, bool)>
    decreases item, 0
  {
    var here := trail + [NameOf(item)];
    var ok := alive && Admissible(item, ops, urlPath);
    var own := OwnRequest(item.request, here, urlPath);
    (if item.nested.List? then Annotated(item.nested.items, here, ok, ops, urlPath) else [])
    + (if own.Some? && own.value != [] then [(own.value[0], ok)] else [])
  }

  /** Not the generated folder, and its request, if it has one, matches a route. */
  predicate Admissible(item: Item, ops: seq<Operation>, urlPath: string -> string) {
    && item.name != Some(GENERATED_NAME)
    && (item.request.Some? ==>
          var verb, path := Upper(item.request.value.verb), NormalizeUrl(item.request.value.url, urlPath);
          verb != "" && path.Some? && Matches(verb, path.value, ops))
  }

  function Survivors(annotated: seq<(CollectionRequest, bool)>): seq<CollectionRequest> {
    if annotated == [] then []
    else (if annotated[0].1 then [annotated[0].0] else []) + Survivors(annotated[1..])
  }

  lemma {:induction false} SurvivorsAppend(a: seq<(CollectionRequest, bool)>, b: seq<(CollectionRequest, bool)>)
    ensures Survivors(a + b) == Survivors(a) + Survivors(b)
  {
    if a == [] {
      assert a + b == b;
    } else {
      SurvivorsAppend(a[1..], b);
      assert (a + b)[1..] == a[1..] + b;
      Associate(if a[0].1 then [a[0].0] else [], Survivors(a[1..]), Survivors(b));
    }
  }

  lemma DeadBranch(items: seq<Item>, trail: seq<string>, ops: seq<Operation>, urlPath: string -> string)
    ensures Survivors(Annotated(items, trail, false, ops, urlPath)) == []
    decreases items, 1
  {
    if items != [] {
      DeadItem(items[0], trail, ops, urlPath);
      DeadBranch(items[1..], trail, ops, urlPath);
      SurvivorsAppend(AnnotatedItem(items[0], trail, false, ops, urlPath),
                      Annotated(items[1..], trail, false, ops, urlPath));
    }
  }

  lemma DeadItem(item: Item, trail: seq<string>, ops: seq<Operation>, urlPath: string -> string)
    ensures Survivors(AnnotatedItem(item, trail, false, ops, urlPath)) == []
    decreases item, 0
  {
    var here := trail + [NameOf(item)];
    var inner := if item.nested.List? then Annotated(item.nested.items, here, false, ops, urlPath) else [];
    var own := OwnRequest(item.request, here, urlPath);
    var last := if own.Some? && own.value != [] then [(own.value[0], false)] else [];
    if item.nested.List? {
      DeadBranch(item.nested.items, here, ops, urlPath);
    }
    SurvivorsAppend(inner, last);
  }

  /** Pruning is exact: the check can read what is left, and it lists precisely the requests that match a route and
      have no generated, stale or method-less ancestor, under the same folders and in their original order. */
  lemma {:induction false} PruneKeepsExactly(items: seq<Item>, trail: seq<string>, ops: seq<Operation>,
                                             urlPath: string -> string)
    requires Prune(items, ops, urlPath).Some?
    ensures Requests(Prune(items, ops, urlPath).value, trail, urlPath)
         == Some(Survivors(Annotated(items, trail, true, ops, urlPath)))
    decreases items, 1
  {
    if items != [] {
      var first, rest := PruneItem(items[0], ops, urlPath), Prune(items[1..], ops, urlPath);
      PruneItemKeepsExactly(items[0], trail, ops, urlPath);
      PruneKeepsExactly(items[1..], trail, ops, urlPath);
      RequestsAppend(first.value, rest.value, trail, urlPath);
      SurvivorsAppend(AnnotatedItem(items[0], trail, true, ops, urlPath),
                      Annotated(items[1..], trail, true, ops, urlPath));
    }
  }

  lemma {:induction false} PruneItemKeepsExactly(item: Item, trail: seq<string>, ops: seq<Operation>,
                                                 urlPath: string -> string)
    requires PruneItem(item, ops, urlPath).Some?
    ensures Requests(PruneItem(item, ops, urlPath).value, trail, urlPath)
         == Some(Survivors(AnnotatedItem(item, trail, true, ops, urlPath)))
    decreases item, 0
  {
    if !Admissible(item, ops, urlPath) {
      DeadItem(item, trail, ops, urlPath);
      InadmissibleItem(item, trail, ops, urlPath);
    } else {
      AdmissibleItem(item, trail, ops, urlPath);
      if item.nested.List? {
        PruneKeepsExactly(item.nested.items, trail + [NameOf(item)], ops, urlPath);
      }
      AdmissibleSurvivors(item, trail, ops, urlPath);
    }
  }

  lemma AdmissibleSurvivors(item: Item, trail: seq<string>, ops: seq<Operation>, urlPath: string -> string)
    requires Admissible(item, ops, urlPath)
    ensures var here := trail + [NameOf(item)];
            var inner := if item.nested.List? then Survivors(Annotated(item.nested.items, here, true, ops, urlPath))
                         else [];
            Some(Survivors(AnnotatedItem(item, trail, true, ops, urlPath)))
              == Both(Some(inner), OwnRequest(item.request, here, urlPath))
  {
    var here := trail + [NameOf(item)];
    var inner := if item.nested.List? then Annotated(item.nested.items, here, true, ops, urlPath) else [];
    var own := OwnRequest(item.request, here, urlPath);
    var last := if own.Some? && own.value != [] then [(own.value[0], true)] else [];
    SurvivorsAppend(inner, last);
    assert own.Some? && Survivors(last) == own.value;
  }

  /** An inadmissible item is dropped, and so is everything below it. */
  lemma InadmissibleItem(item: Item, trail: seq<string>, ops: seq<Operation>, urlPath: string -> string)
    requires PruneItem(item, ops, urlPath).Some? && !Admissible(item, ops, urlPath)
    ensures PruneItem(item, ops, urlPath).value == []
    ensures AnnotatedItem(item, trail, true, ops, urlPath) == AnnotatedItem(item, trail, false, ops, urlPath)
  {
  }

  /** An admissible item stays, unless it is a folder that became empty, with its nested list pruned. */
  lemma AdmissibleItem(item: Item, trail: seq<string>, ops: seq<Operation>, urlPath: string -> string)
    requires PruneItem(item, ops, urlPath).Some? && Admissible(item, ops, urlPath)
    ensures var here := trail + [NameOf(item)];
            Requests(PruneItem(item, ops, urlPath).value, trail, urlPath) ==
            Both(if item.nested.List? then Requests(Prune(item.nested.items, ops, urlPath).value, here, urlPath)
                 else Some([]),
                 OwnRequest(item.request, here, urlPath))
  {
    var kept := PruneItem(item, ops, urlPath).value;
    if kept != [] {
      assert kept == [kept[0]] && kept[1..] == [];
      BothUnit(ItemRequests(kept[0], trail, urlPath));
      assert Requests(kept, trail, urlPath) == ItemRequests(kept[0], trail, urlPath);
    } else {
      BothUnit<CollectionRequest>(Some([]));
    }
  }

  lemma NoRequestDrift(r: CollectionRequest, ops: seq<Operation>)
    ensures RequestDrift(r, ops) == [] <==> Matches(r.verb, r.path, ops)
  {
  }

  lemma {:induction false} NoDriftExactly(requests: seq<CollectionRequest>, ops: seq<Operation>)
    ensures CollectionDrift(requests, ops) == [] <==>
              forall r :: r in requests ==> Matches(r.verb, r.path, ops)
  {
    if requests != [] {
      NoRequestDrift(requests[0], ops);
      NoDriftExactly(requests[1..], ops);
      assert forall r :: r in requests <==> r == requests[0] || r in requests[1..];
    }
  }

  // ---------- When the generator succeeds ----------

  /** Every request the generator looks at has a URL that can be normalized. */
  predicate Normalizable(items: seq<Item>, urlPath: string -> string)
    decreases items, 1
  {
    items == [] || (NormalizableItem(items[0], urlPath) && Normalizable(items[1..], urlPath))
  }

  predicate NormalizableItem(item: Item, urlPath: string -> string)
    decreases item, 0
  {
    item.name == Some(GENERATED_NAME) ||
    (&& (item.nested.List? ==> Normalizable(item.nested.items, urlPath))
     && (item.request.Some? && Upper(item.request.value.verb) != "" ==>
           NormalizeUrl(item.request.value.url, urlPath).Some?))
  }

  lemma SyncSucceedsExactly(items: seq<Item>, ops: seq<Operation>, urlPath: string -> string)
    ensures Prune(items, ops, urlPath).Some? <==> Normalizable(items, urlPath)
    decreases items, 1
  {
    if items != [] {
      PruneItemSucceedsExactly(items[0], ops, urlPath);
      SyncSucceedsExactly(items[1..], ops, urlPath);
    }
  }

  lemma PruneItemSucceedsExactly(item: Item, ops: seq<Operation>, urlPath: string -> string)
    ensures PruneItem(item, ops, urlPath).Some? <==> NormalizableItem(item, urlPath)
    decreases item, 0
  {
    if item.nested.List? {
      SyncSucceedsExactly(item.nested.items, ops, urlPath);
    }
  }

  // ---------- Sync, then check ----------

  lemma SurvivorsMatch(items: seq<Item>, trail: seq<string>, alive: bool, ops: seq<Operation>,
                       urlPath: string -> string)
    ensures forall r :: r in Survivors(Annotated(items, trail, alive, ops, urlPath)) ==> Matches(r.verb, r.path, ops)
    decreases items, 1
  {
    if items != [] {
      SurvivorsMatchItem(items[0], trail, alive, ops, urlPath);
      SurvivorsMatch(items[1..], trail, alive, ops, urlPath);
      SurvivorsAppend(AnnotatedItem(items[0], trail, alive, ops, urlPath),
                      Annotated(items[1..], trail, alive, ops, urlPath));
    }
  }

  lemma SurvivorsMatchItem(item: Item, trail: seq<string>, alive: bool, ops: seq<Operation>, urlPath: string -> string)
    ensures forall r :: r in Survivors(AnnotatedItem(item, trail, alive, ops, urlPath)) ==> Matches(r.verb, r.path, ops)
    decreases item, 0
  {
    var here := trail + [NameOf(item)];
    var ok := alive && Admissible(item, ops, urlPath);
    var inner := if item.nested.List? then Annotated(item.nested.items, here, ok, ops, urlPath) else [];
    var own := OwnRequest(item.request, here, urlPath);
    if item.nested.List? {
      SurvivorsMatch(item.nested.items, here, ok, ops, urlPath);
    }
    SurvivorsAppend(inner, if own.Some? && own.value != [] then [(own.value[0], ok)] else []);
  }

  /** The request generated for an operation, as the check reads it. */
  function BuiltRequest(op: Operation, trail: seq<string>, urlPath: string -> string): CollectionRequest {
    var path := NormalizeUrl(BuildUrl(op.path), urlPath);
    CollectionRequest(trail + [op.verb + " " + op.path], op.verb, if path.Some? then path.value else "")
  }

  function BuiltRequests(ops: seq<Operation>, trail: seq<string>, urlPath: string -> string): seq<CollectionRequest> {
    seq(|ops|, i requires 0 <= i < |ops| => BuiltRequest(ops[i], trail, urlPath))
  }

  lemma BuiltUrlIsRoute(op: Operation, urlPath: string -> string)
    requires WellFormedOperation(op) && SplitsPlainPaths(urlPath)
    ensures var path := NormalizeUrl(BuildUrl(op.path), urlPath);
            && path.Some? && PatternMatches(PathToPattern(op.path), path.value)
            && Canonicalize(path.value) == Canonicalize(NormalizePath(op.path, urlPath))
  {
    var segments :| op.path == PathOf(segments) && forall i :: 0 <= i < |segments| ==> WellFormedSegment(segments[i]);
    BuiltUrlNormalizes(segments, urlPath);
    BuiltPathMatches(segments);
    KeysAgree(segments);
    TokensAreClean(segments);
    PathIsPlain(segments);
    PlainIsNormal(op.path, urlPath);
  }

  lemma {:induction false} OneRequestEach(items: seq<Item>, requests: seq<CollectionRequest>, trail: seq<string>,
                                          urlPath: string -> string)
    requires |items| == |requests|
    requires forall i :: 0 <= i < |items| ==> ItemRequests(items[i], trail, urlPath) == Some([requests[i]])
    ensures Requests(items, trail, urlPath) == Some(requests)
  {
    if items != [] {
      OneRequestEach(items[1..], requests[1..], trail, urlPath);
      assert requests == [requests[0]] + requests[1..];
    }
  }

  lemma GeneratedRequests(ops: seq<Operation>, trail: seq<string>, urlPath: string -> string)
    requires WellFormedSchema(ops) && SplitsPlainPaths(urlPath)
    ensures Requests(BuildRequests(ops), trail, urlPath) == Some(BuiltRequests(ops, trail, urlPath))
  {
    var items, requests := BuildRequests(ops), BuiltRequests(ops, trail, urlPath);
    forall i | 0 <= i < |ops| ensures ItemRequests(items[i], trail, urlPath) == Some([requests[i]]) {
      GeneratedRequest(ops[i], trail, urlPath);
    }
    OneRequestEach(items, requests, trail, urlPath);
  }

  lemma GeneratedRequest(op: Operation, trail: seq<string>, urlPath: string -> string)
    requires WellFormedOperation(op) && SplitsPlainPaths(urlPath)
    ensures ItemRequests(BuildRequest(op), trail, urlPath) == Some([BuiltRequest(op, trail, urlPath)])
  {
    BuiltUrlIsRoute(op, urlPath);
    assert BuildRequest(op).name.value != "";
    BothUnit(OwnRequest(BuildRequest(op).request, trail + [NameOf(BuildRequest(op))], urlPath));
  }

  lemma PrunedNames(items: seq<Item>, ops: seq<Operation>, urlPath: string -> string)
    requires Prune(items, ops, urlPath).Some?
    ensures forall i :: 0 <= i < |Prune(items, ops, urlPath).value| ==>
              Prune(items, ops, urlPath).value[i].name != Some(GENERATED_NAME)
  {
  }

  lemma {:induction false} FolderIsFound(items: seq<Item>, folder: Item)
    requires forall i :: 0 <= i < |items| ==> items[i].name != Some(GENERATED_NAME)
    requires folder.name == Some(GENERATED_NAME) && folder.nested.List?
    ensures GeneratedFolder(items + [folder]) == Some(folder)
  {
    if items != [] {
      FolderIsFound(items[1..], folder);
      assert (items + [folder])[1..] == items[1..] + [folder];
    }
  }

  /** The generated folder has one request per operation, each matching its own route, with the operations' keys. */
  lemma FolderIsInSync(ops: seq<Operation>, urlPath: string -> string, trail: seq<string>)
    requires WellFormedSchema(ops) && SplitsPlainPaths(urlPath)
    ensures var requests := Requests(BuildFolder(ops).nested.items, trail, urlPath);
            && requests.Some?
            && RequestKeys(requests.value) == RouteKeys(ops, urlPath)
            && forall r :: r in requests.value ==> Matches(r.verb, r.path, ops)
  {
    var sorted := Sort(ops, OperationLe());
    SortKeepsElements(ops, OperationLe());
    forall i | 0 <= i < |sorted| ensures WellFormedOperation(sorted[i]) {
      assert sorted[i] in ops;
    }
    GeneratedRequests(sorted, trail, urlPath);
    var requests := BuiltRequests(sorted, trail, urlPath);
    forall i | 0 <= i < |sorted|
      ensures RequestKey(requests[i]) == RouteKey(sorted[i], urlPath)
      ensures Matches(requests[i].verb, requests[i].path, ops)
    {
      assert sorted[i] in ops;
      BuiltRequestMatches(sorted[i], trail, ops, urlPath);
    }
    SameKeys(requests, sorted, urlPath);
    SameRoutes(sorted, ops, urlPath);
  }

  lemma BuiltRequestMatches(op: Operation, trail: seq<string>, ops: seq<Operation>, urlPath: string -> string)
    requires op in ops && WellFormedOperation(op) && SplitsPlainPaths(urlPath)
    ensures var r := BuiltRequest(op, trail, urlPath);
            RequestKey(r) == RouteKey(op, urlPath) && Matches(r.verb, r.path, ops)
  {
    BuiltUrlIsRoute(op, urlPath);
    var k :| 0 <= k < |ops| && ops[k] == op;
  }

  lemma SameRoutes(a: seq<Operation>, b: seq<Operation>, urlPath: string -> string)
    requires forall op :: op in a <==> op in b
    ensures RouteKeys(a, urlPath) == RouteKeys(b, urlPath)
  {
  }

  function RequestKey(r: CollectionRequest): Key {
    (r.verb, Canonicalize(r.path))
  }

  function RouteKey(op: Operation, urlPath: string -> string): Key {
    (op.verb, Canonicalize(NormalizePath(op.path, urlPath)))
  }

  lemma SameKeys(requests: seq<CollectionRequest>, ops: seq<Operation>, urlPath: string -> string)
    requires |requests| == |ops|
    requires forall i :: 0 <= i < |ops| ==> RequestKey(requests[i]) == RouteKey(ops[i], urlPath)
    ensures RequestKeys(requests) == RouteKeys(ops, urlPath)
  {
    forall key | key in RequestKeys(requests) ensures key in RouteKeys(ops, urlPath) {
      var r :| r in requests && key == RequestKey(r);
      var i :| 0 <= i < |requests| && requests[i] == r;
      assert ops[i] in ops;
    }
    forall key | key in RouteKeys(ops, urlPath) ensures key in RequestKeys(requests) {
      var op :| op in ops && key == RouteKey(op, urlPath);
      var i :| 0 <= i < |ops| && ops[i] == op;
      assert requests[i] in requests;
    }
  }

  lemma FolderRequests(folder: Item, trail: seq<string>, urlPath: string -> string)
    requires folder.nested.List? && folder.request.None?
    ensures Requests([folder], trail, urlPath)
         == Requests(folder.nested.items, trail + [NameOf(folder)], urlPath)
  {
    var inner := Requests(folder.nested.items, trail + [NameOf(folder)], urlPath);
    BothUnit(inner);
    assert [folder][1..] == [];
    assert ItemRequests(folder, trail, urlPath) == inner;
  }

  lemma NoDriftAnywhere(pruned: seq<Item>, folder: Item, ops: seq<Operation>, urlPath: string -> string)
    requires folder == BuildFolder(ops) && WellFormedSchema(ops) && SplitsPlainPaths(urlPath)
    requires Requests(pruned, [], urlPath).Some?
    requires forall r :: r in Requests(pruned, [], urlPath).value ==> Matches(r.verb, r.path, ops)
    ensures var requests := Requests(pruned + [folder], [], urlPath);
            requests.Some? && CollectionDrift(requests.value, ops) == []
  {
    RequestsAppend(pruned, [folder], [], urlPath);
    FolderRequests(folder, [], urlPath);
    FolderIsInSync(ops, urlPath, [] + [NameOf(folder)]);
    NoDriftExactly(Requests(pruned + [folder], [], urlPath).value, ops);
  }

  /** The whole collection after a sync shows no drift. */
  lemma PrunedIsClean(items: seq<Item>, ops: seq<Operation>, urlPath: string -> string)
    requires Prune(items, ops, urlPath).Some?
    requires WellFormedSchema(ops) && SplitsPlainPaths(urlPath)
    ensures var requests := Requests(Prune(items, ops, urlPath).value + [BuildFolder(ops)], [], urlPath);
            requests.Some? && CollectionDrift(requests.value, ops) == []
  {
    PruneKeepsExactly(items, [], ops, urlPath);
    SurvivorsMatch(items, [], true, ops, urlPath);
    NoDriftAnywhere(Prune(items, ops, urlPath).value, BuildFolder(ops), ops, urlPath);
  }

  /** The generated folder is the one that is found, and it has the schema's keys. */
  lemma FolderIsClean(items: seq<Item>, ops: seq<Operation>, urlPath: string -> string)
    requires Prune(items, ops, urlPath).Some?
    requires WellFormedSchema(ops) && SplitsPlainPaths(urlPath)
    ensures FindGeneratedDrift(Prune(items, ops, urlPath).value + [BuildFolder(ops)], ops, urlPath) == InSync
  {
    PrunedNames(items, ops, urlPath);
    FolderIsFound(Prune(items, ops, urlPath).value, BuildFolder(ops));
    FolderIsInSync(ops, urlPath, [GENERATED_NAME]);
  }

  /** Sync, then check, is clean: for every collection the generator can read and every well-formed schema, the check
      can read the result and neither of its two comparisons finds anything. */
  lemma SyncThenCheckIsClean(payload: Payload, ops: seq<Operation>, urlPath: string -> string)
    requires Normalizable(payload.items, urlPath)
    requires WellFormedSchema(ops) && SplitsPlainPaths(urlPath)
    ensures var synced := Sync(payload, ops, urlPath);
            && synced.Some?
            && var requests := Requests(synced.value.items, [], urlPath);
            && requests.Some?
            && CollectionDrift(requests.value, ops) == []
            && FindGeneratedDrift(synced.value.items, ops, urlPath) == InSync
  {
    SyncSucceedsExactly(payload.items, ops, urlPath);
    PrunedIsClean(payload.items, ops, urlPath);
    FolderIsClean(payload.items, ops, urlPath);
  }

  // ---------- Syncing twice ----------

  lemma {:induction false} PruneTwice(items: seq<Item>, ops: seq<Operation>, urlPath: string -> string)
    requires Prune(items, ops, urlPath).Some?
    ensures Prune(Prune(items, ops, urlPath).value, ops, urlPath) == Prune(items, ops, urlPath)
    decreases items, 1
  {
    if items != [] {
      var first, rest := PruneItem(items[0], ops, urlPath), Prune(items[1..], ops, urlPath);
      PruneItemTwice(items[0], ops, urlPath);
      PruneTwice(items[1..], ops, urlPath);
      PruneAppend(first.value, rest.value, ops, urlPath);
    }
  }

  lemma {:induction false} PruneItemTwice(item: Item, ops: seq<Operation>, urlPath: string -> string)
    requires PruneItem(item, ops, urlPath).Some?
    ensures Prune(PruneItem(item, ops, urlPath).value, ops, urlPath) == PruneItem(item, ops, urlPath)
    decreases item, 0
  {
    var kept := PruneItem(item, ops, urlPath).value;
    if kept != [] {
      if item.nested.List? {
        PruneTwice(item.nested.items, ops, urlPath);
      }
      assert kept == [kept[0]] && kept[1..] == [];
      assert PruneItem(kept[0], ops, urlPath) == Some([kept[0]]);
      BothUnit(Some([kept[0]]));
    }
  }

  lemma ParametersAreNamed(path: string)
    ensures "" !in Parameters(path)
    decreases |path|
  {
    if path != "" {
      var n := if path[0] == '{' then NameLength(path[1..]) else 0;
      if n >= 1 && n + 1 < |path| && path[n + 1] == '}' {
        ParametersAreNamed(path[n + 2..]);
      } else {
        ParametersAreNamed(path[1..]);
      }
    }
  }

  lemma NamesOfSchema(ops: seq<Operation>)
    ensures "" !in AllParameters(ops)
    ensures forall name :: name in AllParameters(ops) <==> exists op :: op in ops && name in Parameters(op.path)
  {
    if ops != [] {
      ParametersAreNamed(ops[0].path);
      NamesOfSchema(ops[1..]);
      assert ops == [ops[0]] + ops[1..];
    }
  }

  lemma DistinctKeeps(names: seq<string>)
    ensures forall name :: name in Distinct(names) <==> name in names
    ensures forall i, j :: 0 <= i < j < |Distinct(names)| ==> Distinct(names)[i] != Distinct(names)[j]
  {
    if names != [] {
      DistinctKeeps(names[1..]);
      assert names == [names[0]] + names[1..];
    }
  }

  lemma NewVariablesCover(existing: set<string>, names: seq<string>)
    requires "" !in names
    ensures forall v :: v in NewVariables(existing, names) ==> v.key in names && v.key !in existing && v.key != ""
    ensures forall name :: name in names && name !in existing ==>
              Variable(name, DefaultValue(name)) in NewVariables(existing, names)
    ensures (forall name :: name in names ==> name in existing) ==> NewVariables(existing, names) == []
  {
    if names != [] {
      NewVariablesCover(existing, names[1..]);
      assert names == [names[0]] + names[1..];
    }
  }

  /** Every path parameter of the schema has a variable afterwards; the variables that were there come first and are
      unchanged, and only parameters without one are added. */
  lemma VariablesCoverParameters(variables: seq<Variable>, ops: seq<Operation>)
    ensures var after := EnsureVariables(variables, ops);
            && variables <= after
            && (forall v :: v in after[|variables|..] ==> v.key !in ExistingKeys(variables))
            && (forall op, name :: op in ops && name in Parameters(op.path) ==> name in ExistingKeys(after))
            && EnsureVariables(after, ops) == after
  {
    var names, after := ParameterNames(ops), EnsureVariables(variables, ops);
    NamesOfSchema(ops);
    DistinctKeeps(AllParameters(ops));
    SortKeepsElements(Distinct(AllParameters(ops)), LexLe);
    NewVariablesCover(ExistingKeys(variables), names);
    forall name | name in names ensures name in ExistingKeys(after) {
      if name in ExistingKeys(variables) {
        var v :| v in variables && v.key == name;
        assert v in after;
      } else {
        assert Variable(name, DefaultValue(name)) in after;
      }
    }
    NewVariablesCover(ExistingKeys(after), names);
  }

  lemma GeneratedIsDropped(folder: Item, ops: seq<Operation>, urlPath: string -> string)
    requires folder.name == Some(GENERATED_NAME)
    ensures Prune([folder], ops, urlPath) == Some([])
  {
    assert [folder][1..] == [];
    BothUnit(PruneItem(folder, ops, urlPath));
  }

  /** Syncing twice is syncing once. */
  lemma SyncIsIdempotent(payload: Payload, ops: seq<Operation>, urlPath: string -> string)
    requires Normalizable(payload.items, urlPath)
    ensures var synced := Sync(payload, ops, urlPath);
            synced.Some? && Sync(synced.value, ops, urlPath) == synced
  {
    SyncSucceedsExactly(payload.items, ops, urlPath);
    var pruned, folder := Prune(payload.items, ops, urlPath), BuildFolder(ops);
    PruneTwice(payload.items, ops, urlPath);
    PruneAppend(pruned.value, [folder], ops, urlPath);
    GeneratedIsDropped(folder, ops, urlPath);
    BothUnit(pruned);
    VariablesCoverParameters(payload.variables, ops);
  }

  // ---------- The code ----------

  /** `_prune_stale_items`: the loop over one list, recursing into folders. */
  method PruneStaleItems(items: seq<Item>, ops: seq<Operation>, urlPath: string -> string)
    returns (r: Option<seq<Item>>)
    ensures r == Prune(items, ops, urlPath)
    decreases items
  {
    var prunedItems: seq<Item> := [];
    var i := 0;
    while i < |items|
      invariant 0 <= i <= |items|
      invariant Prune(items[..i], ops, urlPath) == Some(prunedItems)
    {
      var item := items[i];
      PruneNext(items, i, ops, urlPath);
      i := i + 1;
      if item.name == Some(GENERATED_NAME) {
        continue;
      }
      var updated := item;
      if item.nested.List? {
        var nested := PruneStaleItems(item.nested.items, ops, urlPath);
        if nested.None? {
          return None;
        }
        updated := updated.(nested := List(nested.value));
      }
      if item.request.Some? {
        var verb := Upper(item.request.value.verb);
        if verb == "" {
          continue;
        }
        var path := NormalizeUrl(item.request.value.url, urlPath);
        if path.None? {
          return None;
        }
        if !Matches(verb, path.value, ops) {
          continue;
        }
      }
      var hasNestedItems := updated.nested.List? && updated.nested.items != [];
      var hasRequest := updated.request.Some?;
      if hasNestedItems || hasRequest {
        prunedItems := prunedItems + [updated];
      }
    }
    assert items[..i] == items;
    r := Some(prunedItems);
  }

  lemma PruneNext(items: seq<Item>, i: nat, ops: seq<Operation>, urlPath: string -> string)
    requires i < |items| && Prune(items[..i], ops, urlPath).Some?
    ensures Prune(items[..i + 1], ops, urlPath)
         == Both(Prune(items[..i], ops, urlPath), PruneItem(items[i], ops, urlPath))
    ensures PruneItem(items[i], ops, urlPath).None? ==> Prune(items, ops, urlPath).None?
    ensures PruneItem(items[i], ops, urlPath) == Some([]) ==>
              Prune(items[..i + 1], ops, urlPath) == Prune(items[..i], ops, urlPath)
  {
    assert items[..i + 1] == items[..i] + [items[i]];
    assert items == items[..i] + ([items[i]] + items[i + 1..]);
    assert [items[i]][1..] == [];
    PruneAppend(items[..i], [items[i]], ops, urlPath);
    PruneAppend(items[..i], [items[i]] + items[i + 1..], ops, urlPath);
    PruneAppend([items[i]], items[i + 1..], ops, urlPath);
    BothUnit(PruneItem(items[i], ops, urlPath));
    BothUnit(Prune(items[..i], ops, urlPath));
  }

  /** A collection whose variable list is extended in place. */
  class Collection {
    var variables: seq<Variable>

    constructor (variables: seq<Variable>)
      ensures this.variables == variables
    {
      this.variables := variables;
    }

    method EnsureCollectionVariables(ops: seq<Operation>)
      modifies this
      ensures variables == EnsureVariables(old(variables), ops)
    {
      var existing := ExistingKeys(variables);
      var names := ParameterNames(ops);
      ghost var before := variables;
      var i := 0;
      assert names[0..] == names && variables == before + [];
      while i < |names|
        invariant 0 <= i <= |names|
        invariant variables + NewVariables(existing, names[i..]) == before + NewVariables(existing, names)
      {
        assert names[i..][1..] == names[i + 1..];
        if names[i] !in existing {
          variables := variables + [Variable(names[i], DefaultValue(names[i]))];
        }
        i := i + 1;
      }
    }
  }
}
