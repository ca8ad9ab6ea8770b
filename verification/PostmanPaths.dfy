/** Paths and URLs in `scripts/check_postman_collection.py` and `scripts/sync_postman_collection.py`: route patterns,
    URL normalization, and the Postman form of an OpenAPI path. */
module PostmanPaths {
  import opened Options
  import opened Sequences
  import opened Strings

  /** A request URL: a string, an object with path parts and a raw form, or anything else. */
  datatype Url = Text(text: string) | Object(path: Option<seq<string>>, raw: Option<string>) | Other

  // ---------- String operations ----------

  predicate IsSlash(c: char) {
    c == '/'
  }

  function StripSlashes(s: string): string {
    DropLastWhile(DropWhile(s, IsSlash), IsSlash)
  }

  /** `s.split(c, 1)[0]`. */
  function Before(s: string, c: char): string {
    if s == "" || s[0] == c then "" else [s[0]] + Before(s[1..], c)
  }

  lemma BeforeAbsent(s: string, c: char)
    requires c !in s
    ensures Before(s, c) == s
  {
  }

  /** `s.find("}}")`. */
  function FindClosing(s: string): (r: Option<nat>)
    ensures r.Some? ==> r.value + 2 <= |s|
  {
    if s == "" then None
    else if StartsWith(s, "}}") then Some(0)
    else
      match FindClosing(s[1..])
      case None => None
      case Some(i) => Some(i + 1)
  }

  // ---------- Routes ----------

  datatype PatternPart = Literal(text: string) | Wildcard

  function NonEmpty(): string -> bool {
    (p: string) => p != ""
  }

  /** `[piece for piece in path.strip("/").split("/") if piece]`. */
  function Segments(path: string): seq<string> {
    Filter(Split(StripSlashes(path), '/'), NonEmpty())
  }

  function PartOf(segment: string): PatternPart {
    if segment != "" && segment[0] == '{' && segment[|segment| - 1] == '}' then Wildcard else Literal(segment)
  }

  function PathToPattern(path: string): seq<PatternPart> {
    var segments := Segments(path);
    seq(|segments|, i requires 0 <= i < |segments| => PartOf(segments[i]))
  }

  predicate PartMatches(part: PatternPart, text: string) {
    match part
    case Literal(t) => text == t
    case Wildcard => text != ""
  }

  /** The anchored regular expression of a route; its `$` also matches before a final newline. */
  predicate PatternMatches(pattern: seq<PatternPart>, path: string) {
    || PiecesMatch(pattern, path)
    || (path != "" && path[|path| - 1] == '\n' && PiecesMatch(pattern, path[..|path| - 1]))
  }

  /** One part per slash-separated piece. */
  predicate PiecesMatch(pattern: seq<PatternPart>, path: string) {
    if pattern == [] then path == "/"
    else
      && path != "" && path[0] == '/'
      && var pieces := Split(path[1..], '/');
      |pieces| == |pattern| && forall i :: 0 <= i < |pieces| ==> PartMatches(pattern[i], pieces[i])
  }

  // ---------- Normalization ----------

  /** `_normalize_path`; `urlPath` stands for the path component `urlsplit` finds. */
  function NormalizePath(raw: string, urlPath: string -> string): string {
    var path := Strip(raw);
    if path == "" then "/"
    else
      var p1 :=
        if StartsWith(path, "{{") then
          match FindClosing(path)
          case Some(i) => path[i + 2..]
          case None => path
        else if StartsWith(path, "http://") || StartsWith(path, "https://") then urlPath(path)
        else if urlPath(path) != "" then urlPath(path) else path;
      var p2 := Strip(Before(Before(p1, '?'), '#'));
      if p2 == "" then "/"
      else
        var p3 := if p2[0] == '/' then p2 else "/" + p2;
        var p4 := if |p3| > 1 then DropLastWhile(p3, IsSlash) else p3;
        if p4 == "" then "/" else p4
  }

  function MapStrip(parts: seq<string>): seq<string> {
    seq(|parts|, i requires 0 <= i < |parts| => StripSlashes(parts[i]))
  }

  /** `normalize_postman_url`; `None` is its ValueError. */
  function NormalizeUrl(url: Url, urlPath: string -> string): Option<string> {
    match url
    case Text(text) => Some(NormalizePath(text, urlPath))
    case Other => None
    case Object(path, raw) =>
      var joined := if path.None? then "" else Join(Filter(MapStrip(path.value), NonEmpty()), '/');
      if joined != "" then Some(NormalizePath("/" + joined, urlPath))
      else if raw.Some? && Strip(raw.value) != "" then Some(NormalizePath(raw.value, urlPath))
      else None
  }

  // ---------- Parameters ----------

  /** How many characters at the start are neither brace: the greedy `[^{}]+`. */
  function NameLength(s: string): (n: nat)
    ensures n <= |s|
  {
    if s == "" || s[0] == '{' || s[0] == '}' then 0 else 1 + NameLength(s[1..])
  }

  predicate StartsWithBraces(s: string) {
    |s| >= 2 && s[0] == '{' && s[1] == '{'
  }

  /** Does `s` start with `{{name}}`? */
  predicate StartsWithVariable(s: string) {
    && StartsWithBraces(s)
    && var n := NameLength(s[2..]);
    n >= 1 && n + 4 <= |s| && s[n + 2] == '}' && s[n + 3] == '}'
  }

  /** `canonicalize_parameter_path`: `{{name}}` becomes `{name}`. */
  function Canonicalize(s: string): string
    decreases |s|
  {
    if s == "" then ""
    else if StartsWithVariable(s) then
      var n := NameLength(s[2..]);
      "{" + s[2..n + 2] + "}" + Canonicalize(s[n + 4..])
    else [s[0]] + Canonicalize(s[1..])
  }

  /** Is the whole segment one `{name}`? */
  predicate IsParameter(segment: string) {
    && |segment| >= 3 && segment[0] == '{' && segment[|segment| - 1] == '}'
    && '{' !in segment[1..|segment| - 1] && '}' !in segment[1..|segment| - 1]
  }

  function Token(segment: string): string {
    if IsParameter(segment) then "{" + segment + "}" else segment
  }

  function Tokens(segments: seq<string>): seq<string> {
    seq(|segments|, i requires 0 <= i < |segments| => Token(segments[i]))
  }

  const BASE_URL := "{{base_url}}"

  function BuildUrl(path: string): Url {
    var parts := Tokens(Segments(path));
    Object(Some(parts), Some(Join([BASE_URL] + parts, '/')))
  }

  // ---------- Well-formed OpenAPI paths ----------

  predicate CleanChar(c: char) {
    c > ' ' && !IsSpace(c) && c != '?' && c != '#' && c != '/'
  }

  predicate HasDoubleBrace(s: string) {
    exists i :: 0 <= i < |s| - 1 && s[i] == '{' && s[i + 1] == '{'
  }

  /** A segment of an OpenAPI path template: printable, and braces only around parameter names. */
  predicate WellFormedSegment(s: string) {
    s != "" && (forall i :: 0 <= i < |s| ==> CleanChar(s[i])) && !HasDoubleBrace(s)
  }

  function PathOf(segments: seq<string>): string {
    "/" + Join(segments, '/')
  }

  ghost predicate WellFormedPath(path: string) {
    exists segments :: path == PathOf(segments) && forall i :: 0 <= i < |segments| ==> WellFormedSegment(segments[i])
  }

  /** An absolute path that `urlsplit` has nothing to cut off from: one leading slash, no query or fragment mark. */
  predicate Plain(path: string) {
    && path != "" && path[0] == '/' && (|path| > 1 ==> path[1] != '/' && path[|path| - 1] != '/')
    && forall i :: 0 <= i < |path| ==> CleanChar(path[i]) || path[i] == '/'
  }

  /** What is assumed of `urlsplit`: it finds the path of a plain path to be that path. */
  ghost predicate SplitsPlainPaths(urlPath: string -> string) {
    forall p :: Plain(p) ==> urlPath(p) == p
  }

  lemma PlainIsNormal(p: string, urlPath: string -> string)
    requires Plain(p) && SplitsPlainPaths(urlPath)
    ensures NormalizePath(p, urlPath) == p
  {
    assert Strip(p) == p;
    assert !StartsWith(p, "{{") && !StartsWith(p, "http://") && !StartsWith(p, "https://") by {
      assert p[0] != "{{"[0] && p[0] != "http://"[0] && p[0] != "https://"[0];
    }
    BeforeAbsent(p, '?');
    BeforeAbsent(p, '#');
  }

  lemma {:induction false} JoinIsPlain(segments: seq<string>)
    requires segments != [] && forall i :: 0 <= i < |segments| ==>
               segments[i] != "" && forall j :: 0 <= j < |segments[i]| ==> CleanChar(segments[i][j])
    ensures var s := Join(segments, '/');
            && s != "" && s[0] != '/' && s[|s| - 1] != '/'
            && forall i :: 0 <= i < |s| ==> CleanChar(s[i]) || s[i] == '/'
  {
    if |segments| > 1 {
      JoinIsPlain(segments[1..]);
    }
  }

  lemma SegmentsHaveNoSlash(segments: seq<string>)
    requires forall i :: 0 <= i < |segments| ==>
               segments[i] != "" && forall j :: 0 <= j < |segments[i]| ==> CleanChar(segments[i][j])
    ensures forall k :: 0 <= k < |segments| ==> '/' !in segments[k]
  {
  }

  // ---------- A built URL is its route again ----------

  lemma StripSlashesOf(s: string)
    requires s != "" && s[0] != '/' && s[|s| - 1] != '/'
    ensures StripSlashes(s) == s && StripSlashes("/" + s) == s
  {
    assert ("/" + s)[1..] == s;
  }

  predicate CleanSegments(segments: seq<string>) {
    forall i :: 0 <= i < |segments| ==>
      segments[i] != "" && forall j :: 0 <= j < |segments[i]| ==> CleanChar(segments[i][j])
  }

  lemma RootHasNoSegments()
    ensures Segments("/") == []
  {
    assert "/"[1..] == "";
    assert StripSlashes("/") == "";
    assert Filter([""], NonEmpty()) == Filter([], NonEmpty());
  }

  lemma SegmentsOfPath(segments: seq<string>)
    requires CleanSegments(segments)
    ensures Segments(PathOf(segments)) == segments
  {
    if segments == [] {
      RootHasNoSegments();
    } else {
      var joined := Join(segments, '/');
      JoinIsPlain(segments);
      StripSlashesOf(joined);
      SegmentsHaveNoSlash(segments);
      SplitOfJoin(segments, '/');
      assert Segments(PathOf(segments)) == Filter(segments, NonEmpty());
      FilterKeepsAll(segments, NonEmpty());
    }
  }

  lemma TokensAreClean(segments: seq<string>)
    requires forall i :: 0 <= i < |segments| ==> WellFormedSegment(segments[i])
    ensures CleanSegments(segments) && CleanSegments(Tokens(segments))
  {
  }

  lemma TokenMatches(segment: string)
    requires WellFormedSegment(segment)
    ensures PartMatches(PartOf(segment), Token(segment))
  {
  }

  lemma BuiltPathMatches(segments: seq<string>)
    requires forall i :: 0 <= i < |segments| ==> WellFormedSegment(segments[i])
    ensures PatternMatches(PathToPattern(PathOf(segments)), PathOf(Tokens(segments)))
  {
    var tokens := Tokens(segments);
    TokensAreClean(segments);
    SegmentsOfPath(segments);
    if segments != [] {
      assert PathOf(tokens)[1..] == Join(tokens, '/');
      SplitOfJoin(tokens, '/');
      forall i | 0 <= i < |segments| ensures PartMatches(PartOf(segments[i]), tokens[i]) {
        TokenMatches(segments[i]);
      }
    }
  }

  /** A piece of a path: not empty, without slash and line feed. */
  predicate IsPiece(s: string) {
    s != "" && '/' !in s && '\n' !in s
  }

  /** A route's segment takes a piece when it stands between braces, or is that piece. */
  predicate Takes(segment: string, piece: string) {
    segment == piece || (segment != "" && segment[0] == '{' && segment[|segment| - 1] == '}')
  }

  predicate Fits(segments: seq<string>, pieces: seq<string>) {
    |segments| == |pieces| && forall i :: 0 <= i < |segments| ==> Takes(segments[i], pieces[i])
  }

  lemma {:induction false} JoinOfPieces(pieces: seq<string>)
    requires pieces != [] && forall i :: 0 <= i < |pieces| ==> IsPiece(pieces[i])
    ensures Join(pieces, '/') != "" && '\n' !in Join(pieces, '/')
  {
    if |pieces| > 1 {
      JoinOfPieces(pieces[1..]);
    }
  }

  lemma PiecesOfPath(pieces: seq<string>)
    requires forall i :: 0 <= i < |pieces| ==> IsPiece(pieces[i])
    ensures var path := PathOf(pieces);
            && path[0] == '/' && path[|path| - 1] != '\n'
            && (path == "/" <==> pieces == [])
            && Split(path[1..], '/') == if pieces == [] then [""] else pieces
  {
    var path := PathOf(pieces);
    assert path[1..] == Join(pieces, '/');
    if pieces != [] {
      JoinOfPieces(pieces);
      SplitOfJoin(pieces, '/');
      assert path[|path| - 1] in Join(pieces, '/');
    }
  }

  lemma PiecesMatchExactly(segments: seq<string>, pieces: seq<string>)
    requires CleanSegments(segments) && forall i :: 0 <= i < |pieces| ==> IsPiece(pieces[i])
    ensures PiecesMatch(PathToPattern(PathOf(segments)), PathOf(pieces)) <==> Fits(segments, pieces)
  {
    var pattern := PathToPattern(PathOf(segments));
    SegmentsOfPath(segments);
    PiecesOfPath(pieces);
    assert |pattern| == |segments|;
    forall i | 0 <= i < |segments| && i < |pieces|
      ensures PartMatches(pattern[i], pieces[i]) <==> Takes(segments[i], pieces[i])
    {
      assert pattern[i] == PartOf(segments[i]);
    }
    if pieces == [] && segments != [] {
      assert !PartMatches(pattern[0], "");
    }
  }

  /** The pattern of a route matches a path exactly when the path has as many pieces and each is taken by its
      segment. */
  lemma RouteMatchesExactly(segments: seq<string>, pieces: seq<string>)
    requires CleanSegments(segments) && forall i :: 0 <= i < |pieces| ==> IsPiece(pieces[i])
    ensures PatternMatches(PathToPattern(PathOf(segments)), PathOf(pieces)) <==> Fits(segments, pieces)
  {
    PiecesMatchExactly(segments, pieces);
    PiecesOfPath(pieces);
  }

  lemma PathIsPlain(segments: seq<string>)
    requires CleanSegments(segments)
    ensures Plain(PathOf(segments))
  {
    if segments != [] {
      JoinIsPlain(segments);
    }
  }

  lemma RootUrl(urlPath: string -> string)
    ensures NormalizeUrl(Object(Some([]), Some(BASE_URL)), urlPath) == Some("/")
  {
    assert MapStrip([]) == [];
    assert Strip(BASE_URL) == BASE_URL;
    ClosingOf(BASE_URL, 10);
    assert BASE_URL[12..] == "";
    assert Strip("") == "";
  }

  lemma {:induction false} ClosingOf(s: string, i: nat)
    requires i + 1 < |s| && s[i] == '}' && s[i + 1] == '}' && forall k :: 0 <= k < i ==> s[k] != '}'
    ensures FindClosing(s) == Some(i)
  {
    if i == 0 {
      assert s[..2] == "}}";
    } else {
      ClosingOf(s[1..], i - 1);
    }
  }

  /** The URL built for a route, the root included, normalizes to the route with `{{name}}` for `{name}`. */
  lemma BuiltUrlNormalizes(segments: seq<string>, urlPath: string -> string)
    requires forall i :: 0 <= i < |segments| ==> WellFormedSegment(segments[i])
    requires SplitsPlainPaths(urlPath)
    ensures NormalizeUrl(BuildUrl(PathOf(segments)), urlPath) == Some(PathOf(Tokens(segments)))
  {
    BuildUrlOf(segments);
    TokensAreClean(segments);
    PartsOrRoot(Tokens(segments), Join([BASE_URL] + Tokens(segments), '/'), urlPath);
  }

  lemma PartsOrRoot(parts: seq<string>, raw: string, urlPath: string -> string)
    requires CleanSegments(parts) && SplitsPlainPaths(urlPath) && (parts == [] ==> raw == BASE_URL)
    ensures NormalizeUrl(Object(Some(parts), Some(raw)), urlPath) == Some(PathOf(parts))
  {
    if parts == [] {
      RootUrl(urlPath);
      assert PathOf([]) == "/";
    } else {
      PartsNormalize(parts, raw, urlPath);
    }
  }

  lemma BuildUrlOf(segments: seq<string>)
    requires forall i :: 0 <= i < |segments| ==> WellFormedSegment(segments[i])
    ensures BuildUrl(PathOf(segments))
         == Object(Some(Tokens(segments)), Some(Join([BASE_URL] + Tokens(segments), '/')))
    ensures segments == [] ==> Tokens(segments) == [] && Join([BASE_URL] + Tokens(segments), '/') == BASE_URL
  {
    TokensAreClean(segments);
    SegmentsOfPath(segments);
    if segments == [] {
      assert Tokens(segments) == [] && [BASE_URL] + [] == [BASE_URL];
    }
  }

  lemma PartsNormalize(parts: seq<string>, raw: string, urlPath: string -> string)
    requires parts != [] && CleanSegments(parts) && SplitsPlainPaths(urlPath)
    ensures NormalizeUrl(Object(Some(parts), Some(raw)), urlPath) == Some(PathOf(parts))
  {
    forall i | 0 <= i < |parts| ensures StripSlashes(parts[i]) == parts[i] {
      StripSlashesOf(parts[i]);
    }
    assert MapStrip(parts) == parts;
    FilterKeepsAll(parts, NonEmpty());
    JoinIsPlain(parts);
    PathIsPlain(parts);
    PlainIsNormal(PathOf(parts), urlPath);
  }

  // ---------- Other URLs of a route ----------

  lemma {:induction false} BeforeFurther(p: string, t: string, c: char)
    requires c !in p
    ensures Before(p + t, c) == p + Before(t, c)
  {
    if p == "" {
      assert p + t == t;
    } else {
      BeforeFurther(p[1..], t, c);
      assert (p + t)[1..] == p[1..] + t;
      assert [p[0]] + (p[1..] + Before(t, c)) == p + Before(t, c);
    }
  }

  /** A query or a fragment, or nothing. */
  predicate IsTail(tail: string) {
    tail == "" || tail[0] == '?' || tail[0] == '#'
  }

  lemma TailIsCut(p: string, tail: string)
    requires Plain(p) && IsTail(tail)
    ensures Before(Before(p + tail, '?'), '#') == p
  {
    BeforeFurther(p, tail, '?');
    BeforeFurther(p, Before(tail, '?'), '#');
    assert Before(Before(tail, '?'), '#') == "";
    assert p + "" == p;
  }

  lemma RestNormalizes(p: string)
    requires Plain(p)
    ensures Strip(p) == p && p[0] == '/'
    ensures (if |p| > 1 then DropLastWhile(p, IsSlash) else p) == p
  {
  }

  /** A variable in front, a query and a fragment behind make no difference to the path of a URL. */
  lemma VariableUrlNormalizes(name: string, segments: seq<string>, tail: string, urlPath: string -> string)
    requires '}' !in name && CleanSegments(segments) && IsTail(tail)
    requires var raw := "{{" + name + "}}" + (PathOf(segments) + tail); Strip(raw) == raw
    ensures NormalizePath("{{" + name + "}}" + (PathOf(segments) + tail), urlPath) == PathOf(segments)
  {
    var p := PathOf(segments);
    var raw := "{{" + name + "}}" + (p + tail);
    var i := 2 + |name|;
    assert raw[i] == '}' && raw[i + 1] == '}' && raw[i + 2..] == p + tail;
    forall k | 0 <= k < i ensures raw[k] != '}' {
      assert k >= 2 ==> raw[k] == name[k - 2];
    }
    ClosingOf(raw, i);
    PathIsPlain(segments);
    TailIsCut(p, tail);
    RestNormalizes(p);
    assert raw[..2] == "{{";
  }

  /** A slash at the end makes no difference either. */
  lemma TrailingSlashNormalizes(name: string, segments: seq<string>, urlPath: string -> string)
    requires '}' !in name && segments != [] && CleanSegments(segments)
    requires var raw := "{{" + name + "}}" + (PathOf(segments) + "/"); Strip(raw) == raw
    ensures NormalizePath("{{" + name + "}}" + (PathOf(segments) + "/"), urlPath) == PathOf(segments)
  {
    var p := PathOf(segments);
    var raw, q := "{{" + name + "}}" + (p + "/"), p + "/";
    var i := 2 + |name|;
    assert raw[i] == '}' && raw[i + 1] == '}' && raw[i + 2..] == q && raw[..2] == "{{";
    forall k | 0 <= k < i ensures raw[k] != '}' {
      assert k >= 2 ==> raw[k] == name[k - 2];
    }
    ClosingOf(raw, i);
    PathIsPlain(segments);
    JoinIsPlain(segments);
    SlashIsDropped(p);
  }

  lemma SlashIsDropped(p: string)
    requires Plain(p) && |p| > 1
    ensures var q := p + "/";
            && Strip(Before(Before(q, '?'), '#')) == q && q[0] == '/' && DropLastWhile(q, IsSlash) == p
  {
    var q := p + "/";
    BeforeAbsent(q, '?');
    BeforeAbsent(q, '#');
    assert Strip(q) == q;
    assert q[..|q| - 1] == p;
  }

  /** The path of an absolute URL is the one `urlsplit` finds. */
  lemma AbsoluteUrlNormalizes(raw: string, urlPath: string -> string)
    requires Strip(raw) == raw && ("http://" <= raw || "https://" <= raw) && Plain(urlPath(raw))
    ensures NormalizePath(raw, urlPath) == urlPath(raw)
  {
    var found := urlPath(raw);
    assert raw[0] == 'h' != "{{"[0];
    BeforeAbsent(found, '?');
    BeforeAbsent(found, '#');
    RestNormalizes(found);
  }

  // ---------- Canonical keys ----------

  lemma CanonicalStep(c: char, rest: string)
    requires c != '{' || rest == "" || rest[0] != '{'
    ensures Canonicalize([c] + rest) == [c] + Canonicalize(rest)
  {
    var whole := [c] + rest;
    assert whole[1..] == rest;
    assert !StartsWithBraces(whole);
  }

  lemma {:induction false} CanonicalPlain(s: string, rest: string)
    requires !HasDoubleBrace(s) && (rest == "" || rest[0] != '{')
    ensures Canonicalize(s + rest) == s + Canonicalize(rest)
  {
    if s == "" {
      assert s + rest == rest;
    } else {
      var more := s[1..];
      assert !HasDoubleBrace(more) by {
        forall i | 0 <= i < |more| - 1 ensures !(more[i] == '{' && more[i + 1] == '{') {
          assert !(s[i + 1] == '{' && s[i + 1 + 1] == '{');
        }
      }
      CanonicalPlain(more, rest);
      assert |s| > 1 ==> !(s[0] == '{' && s[0 + 1] == '{');
      CanonicalStep(s[0], more + rest);
      assert s + rest == [s[0]] + (more + rest);
      assert s + Canonicalize(rest) == [s[0]] + (more + Canonicalize(rest));
    }
  }

  lemma {:induction false} NameLengthOf(name: string, rest: string)
    requires '{' !in name && '}' !in name && rest != "" && (rest[0] == '{' || rest[0] == '}')
    ensures NameLength(name + rest) == |name|
  {
    if name == "" {
      assert name + rest == rest;
    } else {
      NameLengthOf(name[1..], rest);
      assert (name + rest)[1..] == name[1..] + rest;
    }
  }

  lemma CanonicalVariable(name: string, rest: string)
    requires name != "" && '{' !in name && '}' !in name
    ensures Canonicalize("{{" + name + "}}" + rest) == "{" + name + "}" + Canonicalize(rest)
  {
    var whole := "{{" + name + "}}" + rest;
    assert whole[2..] == name + ("}}" + rest);
    NameLengthOf(name, "}}" + rest);
    assert StartsWithVariable(whole);
    assert whole[|name| + 4..] == rest;
    assert whole[2..|name| + 2] == name;
  }

  lemma CanonicalToken(segment: string, rest: string)
    requires WellFormedSegment(segment) && (rest == "" || rest[0] != '{')
    ensures Canonicalize(Token(segment) + rest) == segment + Canonicalize(rest)
  {
    if IsParameter(segment) {
      var name := segment[1..|segment| - 1];
      ParameterToken(segment, name);
      CanonicalVariable(name, rest);
    } else {
      CanonicalPlain(segment, rest);
    }
  }

  lemma ParameterToken(segment: string, name: string)
    requires IsParameter(segment) && name == segment[1..|segment| - 1]
    ensures segment == "{" + name + "}" && Token(segment) == "{{" + name + "}}"
  {
  }

  lemma JoinFirst(parts: seq<string>)
    requires |parts| > 1
    ensures Join(parts, '/') == parts[0] + ("/" + Join(parts[1..], '/'))
  {
  }

  lemma {:induction false} CanonicalJoin(segments: seq<string>)
    requires forall i :: 0 <= i < |segments| ==> WellFormedSegment(segments[i])
    ensures Canonicalize(Join(Tokens(segments), '/')) == Join(segments, '/')
    ensures Canonicalize(Join(segments, '/')) == Join(segments, '/')
  {
    if |segments| == 1 {
      CanonicalToken(segments[0], "");
      CanonicalPlain(segments[0], "");
      assert Token(segments[0]) + "" == Token(segments[0]) && segments[0] + "" == segments[0];
    } else if segments != [] {
      var tokens, more := Tokens(segments), segments[1..];
      CanonicalJoin(more);
      assert tokens[1..] == Tokens(more);
      JoinFirst(tokens);
      JoinFirst(segments);
      CanonicalToken(segments[0], "/" + Join(tokens[1..], '/'));
      CanonicalPlain(segments[0], "/" + Join(more, '/'));
      CanonicalStep('/', Join(tokens[1..], '/'));
      CanonicalStep('/', Join(more, '/'));
    }
  }

  /** The key of a built request and the key of its route are the same. */
  lemma KeysAgree(segments: seq<string>)
    requires forall i :: 0 <= i < |segments| ==> WellFormedSegment(segments[i])
    ensures Canonicalize(PathOf(Tokens(segments))) == PathOf(segments) == Canonicalize(PathOf(segments))
  {
    CanonicalJoin(segments);
    CanonicalStep('/', Join(Tokens(segments), '/'));
    CanonicalStep('/', Join(segments, '/'));
  }
}
