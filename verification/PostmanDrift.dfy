/** What the generator drops and the check reports, in terms of the paths of routes and requests. */
module PostmanDrift {
  import opened Options
  import opened PostmanPaths
  import opened PostmanSync
  import opened Sequences

  // ---------- Which requests fit the schema ----------

  /** The operations' paths, each as its segments. */
  ghost predicate RoutesOf(ops: seq<Operation>, routes: seq<seq<string>>) {
    && |routes| == |ops|
    && forall i :: 0 <= i < |ops| ==> ops[i].path == PathOf(routes[i]) && CleanSegments(routes[i])
  }

  predicate ArePieces(pieces: seq<string>) {
    forall i :: 0 <= i < |pieces| ==> IsPiece(pieces[i])
  }

  /** Some operation has a route the path fits. */
  predicate FitsSome(routes: seq<seq<string>>, pieces: seq<string>) {
    exists i :: 0 <= i < |routes| && Fits(routes[i], pieces)
  }

  /** Some operation has the verb and a route the path fits. */
  predicate Served(ops: seq<Operation>, routes: seq<seq<string>>, verb: string, pieces: seq<string>)
    requires |routes| == |ops|
  {
    exists i :: 0 <= i < |ops| && ops[i].verb == verb && Fits(routes[i], pieces)
  }

  lemma MatchesExactly(ops: seq<Operation>, routes: seq<seq<string>>, verb: string, pieces: seq<string>)
    requires RoutesOf(ops, routes) && ArePieces(pieces)
    ensures Matches(verb, PathOf(pieces), ops) <==> Served(ops, routes, verb, pieces)
    ensures (exists i :: 0 <= i < |ops| && PatternMatches(PathToPattern(ops[i].path), PathOf(pieces)))
       <==> FitsSome(routes, pieces)
  {
    forall i | 0 <= i < |ops|
      ensures PatternMatches(PathToPattern(ops[i].path), PathOf(pieces)) <==> Fits(routes[i], pieces)
    {
      RouteMatchesExactly(routes[i], pieces);
    }
  }

  /** The check reports a request exactly when no operation serves it, and says whether only its method is wrong. */
  lemma ReportedExactly(ops: seq<Operation>, routes: seq<seq<string>>, r: CollectionRequest, pieces: seq<string>)
    requires RoutesOf(ops, routes) && ArePieces(pieces) && r.path == PathOf(pieces)
    ensures CollectionDrift([r], ops) ==
              if Served(ops, routes, r.verb, pieces) then []
              else if FitsSome(routes, pieces) then [WrongMethod(r)]
              else [UnknownRoute(r)]
  {
    MatchesExactly(ops, routes, r.verb, pieces);
    assert [r][1..] == [];
  }

  /** Every request is looked at on its own, in order. */
  lemma {:induction false} EachIsReported(a: seq<CollectionRequest>, b: seq<CollectionRequest>, ops: seq<Operation>)
    ensures CollectionDrift(a + b, ops) == CollectionDrift(a, ops) + CollectionDrift(b, ops)
  {
    if a == [] {
      assert a + b == b;
    } else {
      EachIsReported(a[1..], b, ops);
      assert (a + b)[1..] == a[1..] + b;
      Associate(RequestDrift(a[0], ops), CollectionDrift(a[1..], ops), CollectionDrift(b, ops));
    }
  }

  /** The generator keeps a single request, as it is, exactly when an operation serves it under its upper-case
      method. */
  lemma KeptExactly(ops: seq<Operation>, routes: seq<seq<string>>, item: Item, pieces: seq<string>,
                    urlPath: string -> string)
    requires RoutesOf(ops, routes) && ArePieces(pieces)
    requires item.nested.NoList? && item.name != Some(GENERATED_NAME) && item.request.Some?
    requires NormalizeUrl(item.request.value.url, urlPath) == Some(PathOf(pieces))
    ensures PruneItem(item, ops, urlPath) ==
              Some(if Upper(item.request.value.verb) != ""
                      && Served(ops, routes, Upper(item.request.value.verb), pieces)
                   then [item] else [])
  {
    MatchesExactly(ops, routes, Upper(item.request.value.verb), pieces);
  }

  /** A request in lower case is taken for the same method. */
  lemma CaseOfMethodDoesNotMatter()
    ensures Upper("get") == Upper("Get") == "GET" && Upper("delete") == "DELETE"
  {
  }

  /** GET /users fits nothing where GET /jobs is the only operation. */
  lemma StaleRequestIsNotServed(summary: string)
    ensures var ops := [Operation("GET", "/jobs", "", summary)];
            !Served(ops, [["jobs"]], "GET", ["users"]) && !FitsSome([["jobs"]], ["users"])
  {
    assert !Takes("jobs", "users") by { assert "jobs"[0] != "users"[0]; }
    assert !Takes(["jobs"][0], ["users"][0]);
    assert !Fits(["jobs"], ["users"]);
  }

  // ---------- The generated folder ----------

  predicate IsGenerated(item: Item) {
    item.name == Some(GENERATED_NAME) && item.nested.List?
  }

  lemma {:induction false} FirstGenerated(items: seq<Item>, k: nat)
    requires k < |items| && IsGenerated(items[k]) && forall j :: 0 <= j < k ==> !IsGenerated(items[j])
    ensures GeneratedFolder(items) == Some(items[k])
  {
    if k > 0 {
      assert !IsGenerated(items[0]);
      FirstGenerated(items[1..], k - 1);
    }
  }

  lemma {:induction false} NoGenerated(items: seq<Item>)
    requires forall j :: 0 <= j < |items| ==> !IsGenerated(items[j])
    ensures GeneratedFolder(items) == None
  {
    if items != [] {
      assert !IsGenerated(items[0]);
      NoGenerated(items[1..]);
    }
  }

  /** Without a generated folder at the top level that is what the second finder reports. */
  lemma MissingFolderIsReported(items: seq<Item>, ops: seq<Operation>, urlPath: string -> string)
    requires forall j :: 0 <= j < |items| ==> !IsGenerated(items[j])
    ensures FindGeneratedDrift(items, ops, urlPath) == MissingFolder
  {
    NoGenerated(items);
  }

  /** A request stands for an operation: same method, and the same path once its double braces are single ones. */
  predicate StandsFor(r: CollectionRequest, op: Operation) {
    r.verb == op.verb && Canonicalize(r.path) == op.path
  }

  lemma RouteIsItsKey(op: Operation, urlPath: string -> string)
    requires WellFormedOperation(op) && SplitsPlainPaths(urlPath)
    ensures Canonicalize(NormalizePath(op.path, urlPath)) == op.path
  {
    var segments :| op.path == PathOf(segments) && forall i :: 0 <= i < |segments| ==> WellFormedSegment(segments[i]);
    KeysAgree(segments);
    TokensAreClean(segments);
    PathIsPlain(segments);
    PlainIsNormal(op.path, urlPath);
  }

  /** With one, it reports exactly the operations no request of the folder stands for and the requests that stand for
      no operation; it is content exactly when there are neither. */
  lemma GeneratedDriftExactly(items: seq<Item>, k: nat, requests: seq<CollectionRequest>, ops: seq<Operation>,
                              urlPath: string -> string)
    requires k < |items| && IsGenerated(items[k]) && forall j :: 0 <= j < k ==> !IsGenerated(items[j])
    requires Requests(items[k].nested.items, [GENERATED_NAME], urlPath) == Some(requests)
    requires WellFormedSchema(ops) && SplitsPlainPaths(urlPath)
    ensures var drift := FindGeneratedDrift(items, ops, urlPath);
            && (drift == InSync <==>
                  && (forall op :: op in ops ==> exists r :: r in requests && StandsFor(r, op))
                  && (forall r :: r in requests ==> exists op :: op in ops && StandsFor(r, op)))
            && (drift != InSync ==>
                  && drift.Differs?
                  && (forall op :: op in ops ==>
                        ((op.verb, op.path) in drift.missing <==> !exists r :: r in requests && StandsFor(r, op)))
                  && (forall r :: r in requests ==>
                        ((r.verb, Canonicalize(r.path)) in drift.extra <==>
                           !exists op :: op in ops && StandsFor(r, op))))
  {
    FirstGenerated(items, k);
    forall op | op in ops ensures Canonicalize(NormalizePath(op.path, urlPath)) == op.path {
      var i :| 0 <= i < |ops| && ops[i] == op;
      RouteIsItsKey(op, urlPath);
    }
    var have, want := RequestKeys(requests), RouteKeys(ops, urlPath);
    WantedKeys(ops, urlPath);
    forall op | op in ops ensures (op.verb, op.path) in have <==> exists r :: r in requests && StandsFor(r, op) {
    }
    forall r | r in requests
      ensures (r.verb, Canonicalize(r.path)) in want <==> exists op :: op in ops && StandsFor(r, op)
    {
    }
    KeysDiffer(have, want, requests, ops);
  }

  lemma WantedKeys(ops: seq<Operation>, urlPath: string -> string)
    requires forall op :: op in ops ==> Canonicalize(NormalizePath(op.path, urlPath)) == op.path
    ensures RouteKeys(ops, urlPath) == set op | op in ops :: (op.verb, op.path)
  {
  }

  lemma KeysDiffer(have: set<Key>, want: set<Key>, requests: seq<CollectionRequest>, ops: seq<Operation>)
    requires have == set r | r in requests :: (r.verb, Canonicalize(r.path))
    requires want == set op | op in ops :: (op.verb, op.path)
    ensures want - have == {} <==> forall op :: op in ops ==> (op.verb, op.path) in have
    ensures have - want == {} <==> forall r :: r in requests ==> (r.verb, Canonicalize(r.path)) in want
  {
    Without(want, have);
    Without(have, want);
    forall op | op in ops ensures (op.verb, op.path) in want {
    }
    forall r | r in requests ensures (r.verb, Canonicalize(r.path)) in have {
    }
  }

  lemma Without<T>(a: set<T>, b: set<T>)
    ensures a - b == {} <==> a <= b
  {
    if a - b == {} {
      assert a == (a - b) + (a * b);
    }
  }

  /** The generated requests follow the schema's operations, sorted by path and then by method. */
  lemma FolderFollowsSchema(ops: seq<Operation>) returns (sorted: seq<Operation>)
    ensures multiset(sorted) == multiset(ops)
    ensures forall i, j :: 0 <= i < j < |sorted| ==>
              if sorted[i].path == sorted[j].path then LexLe(sorted[i].verb, sorted[j].verb)
              else LexLe(sorted[i].path, sorted[j].path)
    ensures var folder := BuildFolder(ops);
            && folder.name == Some(GENERATED_NAME) && folder.request == None && folder.nested.List?
            && |folder.nested.items| == |sorted|
            && forall i :: 0 <= i < |sorted| ==>
                 var item := folder.nested.items[i];
                 && item.name == Some(sorted[i].verb + " " + sorted[i].path) && item.nested.NoList?
                 && item.request.Some? && item.request.value.verb == sorted[i].verb
                 && item.request.value.url == BuildUrl(sorted[i].path)
  {
    sorted := Sort(ops, OperationLe());
    SortKeepsElements(ops, OperationLe());
    OperationsAreOrdered();
    SortIsSorted(ops, OperationLe());
    forall i, j | 0 <= i < j < |sorted|
      ensures if sorted[i].path == sorted[j].path then LexLe(sorted[i].verb, sorted[j].verb)
              else LexLe(sorted[i].path, sorted[j].path)
    {
      assert OperationLe()(sorted[i], sorted[j]);
    }
  }

  lemma {:induction false} LexTotal(a: string, b: string)
    ensures LexLe(a, b) || LexLe(b, a)
    ensures LexLe(a, b) && LexLe(b, a) ==> a == b
  {
    if a != "" && b != "" {
      LexTotal(a[1..], b[1..]);
      assert a == [a[0]] + a[1..] && b == [b[0]] + b[1..];
    }
  }

  lemma {:induction false} LexTransitive(a: string, b: string, c: string)
    requires LexLe(a, b) && LexLe(b, c)
    ensures LexLe(a, c)
  {
    if a != "" && b != "" && c != "" && a[0] == b[0] == c[0] {
      LexTransitive(a[1..], b[1..], c[1..]);
    }
  }

  lemma OperationsAreOrdered()
    ensures TotalPreorder(OperationLe())
  {
    var le := OperationLe();
    forall a, b ensures le(a, b) || le(b, a) {
      LexTotal(a.path, b.path);
      LexTotal(a.verb, b.verb);
    }
    forall a, b, c | le(a, b) && le(b, c) ensures le(a, c) {
      OperationOrderIsTransitive(a, b, c);
    }
  }

  lemma OperationOrderIsTransitive(a: Operation, b: Operation, c: Operation)
    requires OperationLe()(a, b) && OperationLe()(b, c)
    ensures OperationLe()(a, c)
  {
    if a.path == b.path == c.path {
      LexTransitive(a.verb, b.verb, c.verb);
    } else {
      LexTotal(a.path, b.path);
      LexTotal(b.path, c.path);
      LexTotal(a.path, a.path);
      LexTotal(b.path, b.path);
      LexTransitive(a.path, b.path, c.path);
      LexTotal(a.path, c.path);
    }
  }

  // ---------- Variables ----------

  /** A segment that is one parameter, or has no braces at all. */
  predicate IsSimple(segment: string) {
    IsParameter(segment) || ('{' !in segment && '}' !in segment)
  }

  /** The names of a route's parameters, in order. */
  function NamesOf(segments: seq<string>): seq<string> {
    if segments == [] then []
    else (if IsParameter(segments[0]) then [segments[0][1..|segments[0]| - 1]] else []) + NamesOf(segments[1..])
  }

  lemma {:induction false} PlainHasNone(s: string, rest: string)
    requires '{' !in s
    ensures Parameters(s + rest) == Parameters(rest)
  {
    if s == "" {
      assert s + rest == rest;
    } else {
      PlainHasNone(s[1..], rest);
      assert (s + rest)[1..] == s[1..] + rest && s[0] in s;
    }
  }

  lemma ParameterIsFound(segment: string, rest: string)
    requires IsParameter(segment)
    ensures Parameters(segment + rest) == [segment[1..|segment| - 1]] + Parameters(rest)
  {
    var name, path := segment[1..|segment| - 1], segment + rest;
    assert path[1..] == name + ("}" + rest);
    NameLengthOf(name, "}" + rest);
    assert path[|name| + 1] == '}' && path[1..|name| + 1] == name && path[|name| + 2..] == rest;
  }

  lemma SegmentParameters(segment: string, rest: string)
    requires IsSimple(segment)
    ensures Parameters(segment + rest)
         == (if IsParameter(segment) then [segment[1..|segment| - 1]] else []) + Parameters(rest)
  {
    if IsParameter(segment) {
      ParameterIsFound(segment, rest);
    } else {
      PlainHasNone(segment, rest);
    }
  }

  /** The parameters found in a route's path are those of its segments, in order. */
  lemma {:induction false} ParametersOfRoute(segments: seq<string>)
    requires forall i :: 0 <= i < |segments| ==> IsSimple(segments[i])
    ensures Parameters(PathOf(segments)) == NamesOf(segments)
  {
    PlainHasNone("/", Join(segments, '/'));
    JoinParameters(segments);
  }

  lemma {:induction false} JoinParameters(segments: seq<string>)
    requires forall i :: 0 <= i < |segments| ==> IsSimple(segments[i])
    ensures Parameters(Join(segments, '/')) == NamesOf(segments)
  {
    if |segments| == 1 {
      SegmentParameters(segments[0], "");
      assert segments[0] + "" == segments[0] && segments[1..] == [];
    } else if segments != [] {
      var rest := Join(segments[1..], '/');
      JoinParameters(segments[1..]);
      SegmentParameters(segments[0], "/" + rest);
      PlainHasNone("/", rest);
      assert segments[0] + ['/'] + rest == segments[0] + ("/" + rest);
    }
  }

  /** The names for which variables are wanted: each once, in alphabetical order, and just those of some route. */
  lemma ParameterNamesExactly(ops: seq<Operation>)
    ensures var names := ParameterNames(ops);
            && (forall name :: name in names <==> exists op :: op in ops && name in Parameters(op.path))
            && (forall i, j :: 0 <= i < j < |names| ==> LexLe(names[i], names[j]) && names[i] != names[j])
  {
    var distinct := Distinct(AllParameters(ops));
    NamesOfSchema(ops);
    DistinctKeeps(AllParameters(ops));
    SortKeepsElements(distinct, LexLe);
    NamesAreOrdered();
    SortIsSorted(distinct, LexLe);
    DistinctIsPermutable(distinct, ParameterNames(ops));
  }

  lemma NamesAreOrdered()
    ensures TotalPreorder(LexLe)
  {
    forall a, b ensures LexLe(a, b) || LexLe(b, a) {
      LexTotal(a, b);
    }
    forall a, b, c | LexLe(a, b) && LexLe(b, c) ensures LexLe(a, c) {
      LexTransitive(a, b, c);
    }
  }

  /** What a sync makes of a collection: its pruned items and then the generated folder, variables for all parameters
      behind the ones it had, and the rest untouched. */
  lemma SyncedCollection(payload: Payload, ops: seq<Operation>, urlPath: string -> string)
    requires Sync(payload, ops, urlPath).Some?
    ensures var synced, pruned := Sync(payload, ops, urlPath).value, Prune(payload.items, ops, urlPath);
            && pruned.Some? && |synced.items| == |pruned.value| + 1
            && synced.items[..|pruned.value|] == pruned.value && IsGenerated(synced.items[|pruned.value|])
            && synced.extra == payload.extra
            && payload.variables <= synced.variables
            && (forall op, name :: op in ops && name in Parameters(op.path) ==>
                  exists v :: v in synced.variables && v.key == name)
            && (forall v :: v in synced.variables[|payload.variables|..] ==> v.value == DefaultValue(v.key))
  {
    var variables := payload.variables;
    var after := EnsureVariables(variables, ops);
    VariablesCoverParameters(variables, ops);
    AddedValues(ExistingKeys(variables), ParameterNames(ops));
    forall op, name | op in ops && name in Parameters(op.path) ensures exists v :: v in after && v.key == name {
      assert name in ExistingKeys(after);
    }
    assert after[|variables|..] == NewVariables(ExistingKeys(variables), ParameterNames(ops));
  }

  /** The values new variables get. */
  lemma DefaultValues(stem: string)
    ensures DefaultValue(stem + "_id") == "1"
    ensures DefaultValue(stem + "_name") == "sample-" + stem
    ensures DefaultValue("filename") == "ecube.log"
    ensures !EndsWith(stem, "_id") && !EndsWith(stem, "_name") && stem != "filename" ==>
              DefaultValue(stem) == "sample-" + stem
  {
    var id, name := stem + "_id", stem + "_name";
    assert id[|id| - 3..] == "_id";
    assert name[|name| - 5..] == "_name" && name[..|name| - 5] == stem;
    assert name[|name| - 1] == 'e' && "_id"[2] == 'd';
    assert !EndsWith(name, "_id") by {
      assert name[|name| - 3..][2] == 'e';
    }
    assert "filename"[7] == 'e' && "filename"[5..][2] == 'e' && "filename"[3..][0] == 'e';
  }

  /** A variable the generator adds has the default value of its name. */
  lemma {:induction false} AddedValues(existing: set<string>, names: seq<string>)
    ensures forall v :: v in NewVariables(existing, names) ==> v.value == DefaultValue(v.key)
  {
    if names != [] {
      AddedValues(existing, names[1..]);
    }
  }
}
