/** The kernel mount table of `app/infrastructure/mount_info.py`: its octal escapes and the dictionary read from it. */
module MountInfo {
  import opened LogLines
  import opened Options
  import opened Sequences

  /** Table text and paths as bytes: their UTF-8 form with surrogate escapes. */
  type Text = seq<Byte>

  const BACKSLASH: Byte := 92
  const SPACE: Byte := 32
  const ZERO: Byte := 48

  predicate IsOctal(b: Byte) {
    ZERO <= b < ZERO + 8
  }

  /** A backslash and three octal digits. */
  predicate IsEscape(s: Text) {
    |s| == 4 && s[0] == BACKSLASH && IsOctal(s[1]) && IsOctal(s[2]) && IsOctal(s[3])
  }

  function AttachByte(b: Byte, parts: seq<Text>): seq<Text>
    requires parts != []
  {
    [[b] + parts[0]] + parts[1..]
  }

  /** `re.split` at the captured escapes: the texts around them and the escapes themselves, alternating. */
  function SplitEscapes(s: Text): (parts: seq<Text>)
    ensures parts != []
  {
    if s == [] then [[]]
    else if |s| >= 4 && IsEscape(s[..4]) then [[], s[..4]] + SplitEscapes(s[4..])
    else AttachByte(s[0], SplitEscapes(s[1..]))
  }

  /** Python's `int(digits, 8)` of anything but three plain octal digits; `None` is its ValueError. */
  type IntOf = Text -> Option<int>

  function OctalOf(digits: Text, other: IntOf): Option<int> {
    if |digits| == 3 && IsOctal(digits[0]) && IsOctal(digits[1]) && IsOctal(digits[2]) then
      Some((digits[0] - ZERO) * 64 + (digits[1] - ZERO) * 8 + (digits[2] - ZERO))
    else
      other(digits)
  }

  /** What one part adds to the buffer; `None` when that raises. Whatever starts with a backslash is read as
      a number. */
  function PartBytes(part: Text, other: IntOf): Option<Text> {
    if part != [] && part[0] == BACKSLASH then
      match OctalOf(part[1..], other)
      case Some(value) => if 0 <= value < 256 then Some([value]) else None
      case None => None
    else
      Some(part)
  }

  function PartsBytes(parts: seq<Text>, other: IntOf): Option<Text> {
    if parts == [] then Some([]) else Both(PartBytes(parts[0], other), PartsBytes(parts[1..], other))
  }

  /** `unescape_mountpoint`: all escapes are replaced, or the text is left as it is. */
  function Unescape(text: Text, other: IntOf): Text {
    match PartsBytes(SplitEscapes(text), other)
    case Some(bytes) => bytes
    case None => text
  }

  // ---------- Escaping, and unescaping again ----------

  function EscapeByte(b: Byte): (e: Text)
    ensures IsEscape(e)
    ensures forall other: IntOf :: PartBytes(e, other) == Some([b])
  {
    [BACKSLASH, ZERO + b / 64, ZERO + b / 8 % 8, ZERO + b % 8]
  }

  /** The octal escaping of the bytes in `special`. */
  function Escape(text: Text, special: set<Byte>): Text {
    if text == [] then []
    else (if text[0] in special then EscapeByte(text[0]) else [text[0]]) + Escape(text[1..], special)
  }

  lemma SplitAtEscape(e: Text, q: Text)
    requires IsEscape(e)
    ensures SplitEscapes(e + q) == [[], e] + SplitEscapes(q)
  {
    assert (e + q)[..4] == e && (e + q)[4..] == q;
  }

  lemma SplitAtPlain(b: Byte, q: Text)
    requires b != BACKSLASH
    ensures SplitEscapes([b] + q) == AttachByte(b, SplitEscapes(q))
  {
    assert ([b] + q)[1..] == q;
  }

  lemma EscapeThenRest(e: Text, rest: seq<Text>, other: IntOf)
    ensures PartsBytes([[], e] + rest, other) == Both(PartBytes(e, other), PartsBytes(rest, other))
  {
    var parts := [[], e] + rest;
    assert parts[1..] == [e] + rest && ([e] + rest)[1..] == rest;
    BothUnit(PartsBytes(parts[1..], other));
  }

  lemma AttachPlain(b: Byte, parts: seq<Text>, other: IntOf)
    requires parts != [] && b != BACKSLASH && (parts[0] == [] || parts[0][0] != BACKSLASH)
    ensures PartsBytes(AttachByte(b, parts), other) == Both(Some([b]), PartsBytes(parts, other))
  {
    var first := [b] + parts[0];
    assert AttachByte(b, parts)[1..] == parts[1..];
    assert PartBytes(first, other) == Both(Some([b]), Some(parts[0]));
    BothAssociates(Some([b]), Some(parts[0]), PartsBytes(parts[1..], other));
  }

  lemma EmptyParts(other: IntOf)
    ensures PartsBytes(SplitEscapes([]), other) == Some([])
  {
    var parts: seq<Text> := [[]];
    assert SplitEscapes([]) == parts && parts[1..] == [];
    assert PartsBytes(parts[1..], other) == Some([]);
  }

  lemma {:induction false} EscapedParts(text: Text, special: set<Byte>, other: IntOf)
    requires BACKSLASH in special
    ensures var parts := SplitEscapes(Escape(text, special));
            && (parts[0] == [] || parts[0][0] != BACKSLASH)
            && PartsBytes(parts, other) == Some(text)
  {
    if text == [] {
      EmptyParts(other);
    } else {
      var b, rest := text[0], Escape(text[1..], special);
      EscapedParts(text[1..], special, other);
      assert text == [b] + text[1..];
      if b in special {
        SplitAtEscape(EscapeByte(b), rest);
        EscapeThenRest(EscapeByte(b), SplitEscapes(rest), other);
      } else {
        SplitAtPlain(b, rest);
        AttachPlain(b, SplitEscapes(rest), other);
      }
    }
  }

  /** Unescaping is a left inverse of escaping, for every byte string, whatever bytes beside the backslash are
      escaped. */
  lemma UnescapeInvertsEscape(text: Text, special: set<Byte>, other: IntOf)
    requires BACKSLASH in special
    ensures Unescape(Escape(text, special), other) == text
  {
    EscapedParts(text, special, other);
  }

  ghost predicate Inverts(special: set<Byte>, other: IntOf) {
    forall text :: Unescape(Escape(text, special), other) == text
  }

  lemma EscapeOfTwo(a: Byte, b: Byte, special: set<Byte>)
    requires a !in special && b in special
    ensures Escape([a, b], special) == [a] + EscapeByte(b)
  {
    assert [a, b][1..] == [b] && [b][1..] == [];
    assert Escape([b], special) == EscapeByte(b) + Escape([], special) == EscapeByte(b);
  }

  /** A backslash that is not escaped makes the text unreadable as soon as an escape follows. */
  lemma PlainBackslash(b: Byte, special: set<Byte>, other: IntOf)
    requires BACKSLASH !in special && b in special && other([]) == None
    ensures Unescape(Escape([BACKSLASH, b], special), other) == [BACKSLASH] + EscapeByte(b)
    ensures [BACKSLASH] + EscapeByte(b) != [BACKSLASH, b]
  {
    var e := EscapeByte(b);
    var text := [BACKSLASH] + e;
    EscapeOfTwo(BACKSLASH, b, special);
    assert !IsEscape(text[..4]) by { assert text[1] == BACKSLASH; }
    assert text[1..] == e + [];
    SplitAtEscape(e, []);
    var parts, rest := SplitEscapes(text), SplitEscapes(e + []);
    assert rest[0] == [] && parts[0] == [BACKSLASH];
    assert parts[0][1..] == [];
    assert PartBytes(parts[0], other) == None;
    assert PartsBytes(parts, other) == None;
    assert |text| == 5;
    assert Unescape(text, other) == text;
  }

  lemma {:induction false} EscapeNothing(text: Text)
    ensures Escape(text, {}) == text
  {
    if text != [] {
      EscapeNothing(text[1..]);
      assert text == [text[0]] + text[1..];
    }
  }

  /** With no byte escaped, a path that looks escaped is changed. */
  lemma LooksEscaped(other: IntOf)
    ensures var e := EscapeByte(SPACE); Unescape(Escape(e, {}), other) == [SPACE] != e
  {
    var e := EscapeByte(SPACE);
    EscapeNothing(e);
    assert e + [] == e;
    SplitAtEscape(e, []);
    EscapeThenRest(e, [[]], other);
    EmptyParts(other);
  }

  /** The backslash is exactly what an escaping must cover to be inverted on every text. */
  lemma InvertsExactly(special: set<Byte>, other: IntOf)
    requires other([]) == None
    ensures Inverts(special, other) <==> BACKSLASH in special
  {
    if BACKSLASH in special {
      forall text ensures Unescape(Escape(text, special), other) == text {
        UnescapeInvertsEscape(text, special, other);
      }
    } else {
      forall b | b in special ensures !Inverts(special, other) {
        PlainBackslash(b, special, other);
      }
      if special == {} {
        LooksEscaped(other);
      }
    }
  }

  // ---------- Escapes in any text ----------

  lemma AttachBefore(b: Byte, parts: seq<Text>, tail: seq<Text>)
    requires parts != []
    ensures AttachByte(b, parts + tail) == AttachByte(b, parts) + tail
  {
    assert (parts + tail)[1..] == parts[1..] + tail;
  }

  /** Escapes do not overlap, so the split finds each one, wherever it stands. */
  lemma {:induction false} SplitAround(p: Text, e: Text, q: Text)
    requires IsEscape(e)
    ensures SplitEscapes(p + (e + q)) == SplitEscapes(p) + ([e] + SplitEscapes(q))
  {
    var text, tail := p + (e + q), [e] + SplitEscapes(q);
    if p == [] {
      assert text == e + q;
      SplitAtEscape(e, q);
    } else if |p| >= 4 && IsEscape(p[..4]) {
      SplitAround(p[4..], e, q);
      assert text[..4] == p[..4] && text[4..] == p[4..] + (e + q);
      Associate([[], p[..4]], SplitEscapes(p[4..]), tail);
    } else {
      SplitAround(p[1..], e, q);
      SplitAfterPlain(p, e, q);
      AttachBefore(p[0], SplitEscapes(p[1..]), tail);
    }
  }

  lemma SplitAfterPlain(p: Text, e: Text, q: Text)
    requires IsEscape(e) && p != [] && !(|p| >= 4 && IsEscape(p[..4]))
    ensures SplitEscapes(p + (e + q)) == AttachByte(p[0], SplitEscapes(p[1..] + (e + q)))
  {
    NoEscapeAcross(p, e, q);
    assert (p + (e + q))[1..] == p[1..] + (e + q);
  }

  lemma NoEscapeAcross(p: Text, e: Text, q: Text)
    requires IsEscape(e) && p != [] && !(|p| >= 4 && IsEscape(p[..4]))
    ensures var text := p + (e + q); |text| >= 4 && !IsEscape(text[..4])
  {
    var text := p + (e + q);
    if |p| < 4 {
      assert text[..4][|p|] == e[0];
    } else {
      assert text[..4] == p[..4];
    }
  }

  lemma {:induction false} PartsAppend(a: seq<Text>, b: seq<Text>, other: IntOf)
    ensures PartsBytes(a + b, other) == Both(PartsBytes(a, other), PartsBytes(b, other))
  {
    if a == [] {
      assert a + b == b;
      BothUnit(PartsBytes(b, other));
    } else {
      PartsAppend(a[1..], b, other);
      assert (a + b)[1..] == a[1..] + b;
      BothAssociates(PartBytes(a[0], other), PartsBytes(a[1..], other), PartsBytes(b, other));
    }
  }

  /** The bytes around an escape and the byte it stands for come together, or all of them fail. */
  lemma EscapeInContext(p: Text, e: Text, q: Text, other: IntOf)
    requires IsEscape(e)
    ensures PartsBytes(SplitEscapes(p + (e + q)), other)
         == Both(PartsBytes(SplitEscapes(p), other), Both(PartBytes(e, other), PartsBytes(SplitEscapes(q), other)))
  {
    SplitAround(p, e, q);
    PartsAppend(SplitEscapes(p), [e] + SplitEscapes(q), other);
    assert ([e] + SplitEscapes(q))[1..] == SplitEscapes(q);
  }

  /** One escape above \377 anywhere, and the whole text comes back unchanged. */
  lemma HighEscapeChangesNothing(p: Text, e: Text, q: Text, other: IntOf)
    requires IsEscape(e) && e[1] >= ZERO + 4
    ensures Unescape(p + (e + q), other) == p + (e + q)
  {
    assert PartBytes(e, other) == None;
    EscapeInContext(p, e, q, other);
  }

  // ---------- The mount table ----------

  /** The ASCII characters `str.split()` splits at. */
  predicate IsBlank(b: Byte) {
    9 <= b <= 13 || 28 <= b <= 32
  }

  /** `line.split()`. */
  function Fields(line: Text): (r: seq<Text>)
    ensures line != [] && !IsBlank(line[0]) ==> r != []
  {
    if line == [] then []
    else if IsBlank(line[0]) then Fields(line[1..])
    else if |line| > 1 && !IsBlank(line[1]) then AttachByte(line[0], Fields(line[1..]))
    else [[line[0]]] + Fields(line[1..])
  }

  /** The key and value one line adds to the dictionary. */
  function LinePairs(line: Text, other: IntOf): seq<(Text, Text)> {
    var fields := Fields(line);
    if |fields| >= 2 then [(Unescape(fields[1], other), Unescape(fields[0], other))] else []
  }

  function PairsOf(other: IntOf): Text -> seq<(Text, Text)> {
    (line: Text) => LinePairs(line, other)
  }

  function TablePairs(lines: seq<Text>, other: IntOf): seq<(Text, Text)> {
    FlatMap(lines, PairsOf(other))
  }

  /** Mount point to source, as `read_mount_table` finds it in the text of the table. */
  function ReadTable(text: Text, other: IntOf): map<Text, Text> {
    LastWins(TablePairs(SplitLines(text), other))
  }

  /** One mount, with the rest of its line. */
  datatype Mount = Mount(source: Text, point: Text, rest: Text)

  function LineOf(mount: Mount, special: set<Byte>): Text {
    Escape(mount.source, special) + ([SPACE] + (Escape(mount.point, special) + ([SPACE] + mount.rest)))
  }

  /** The table of the mounts, oldest first. */
  function TableText(mounts: seq<Mount>, special: set<Byte>): Text {
    if mounts == [] then [] else LineOf(mounts[0], special) + ([LF] + TableText(mounts[1..], special))
  }

  predicate IsMount(mount: Mount) {
    mount.source != [] && mount.point != [] && OneLine(mount.rest)
  }

  /** What the dictionary should hold: each point with the source mounted there last. */
  function Mounted(mounts: seq<Mount>): map<Text, Text> {
    LastWins(Points(mounts))
  }

  function Points(mounts: seq<Mount>): seq<(Text, Text)> {
    if mounts == [] then [] else [(mounts[0].point, mounts[0].source)] + Points(mounts[1..])
  }

  ghost predicate Protects(special: set<Byte>) {
    BACKSLASH in special && forall b: Byte :: IsBlank(b) ==> b in special
  }

  predicate NoBlank(text: Text) {
    forall i :: 0 <= i < |text| ==> !IsBlank(text[i])
  }

  lemma NoBlankAppend(a: Text, b: Text)
    requires NoBlank(a) && NoBlank(b)
    ensures NoBlank(a + b)
  {
  }

  lemma {:induction false} EscapedHasNoBlank(text: Text, special: set<Byte>)
    requires forall b :: b in text && IsBlank(b) ==> b in special
    ensures NoBlank(Escape(text, special)) && (text != [] ==> Escape(text, special) != [])
  {
    if text != [] {
      EscapedHasNoBlank(text[1..], special);
      var first := if text[0] in special then EscapeByte(text[0]) else [text[0]];
      assert NoBlank(first) by { assert text[0] in text; }
      NoBlankAppend(first, Escape(text[1..], special));
    }
  }

  lemma {:induction false} FirstField(word: Text, rest: Text)
    requires word != [] && NoBlank(word)
    ensures Fields(word + ([SPACE] + rest)) == [word] + Fields(rest)
  {
    var line := word + ([SPACE] + rest);
    assert ([SPACE] + rest)[1..] == rest;
    if |word| == 1 {
      assert line[1..] == [SPACE] + rest && word == [word[0]];
    } else {
      FirstField(word[1..], rest);
      assert line[1..] == word[1..] + ([SPACE] + rest) && line[1] == word[1];
      assert [word[0]] + word[1..] == word;
    }
  }

  lemma OneLineAppend(a: Text, b: Text)
    requires OneLine(a) && OneLine(b)
    ensures OneLine(a + b)
  {
  }

  lemma NoBlankIsOneLine(a: Text)
    requires NoBlank(a)
    ensures OneLine(a)
  {
  }

  lemma LineReadsBack(mount: Mount, special: set<Byte>, other: IntOf)
    requires Protects(special) && IsMount(mount)
    ensures LinePairs(LineOf(mount, special), other) == [(mount.point, mount.source)]
    ensures OneLine(LineOf(mount, special))
  {
    var source, point := Escape(mount.source, special), Escape(mount.point, special);
    EscapedHasNoBlank(mount.source, special);
    EscapedHasNoBlank(mount.point, special);
    FirstField(source, point + ([SPACE] + mount.rest));
    FirstField(point, mount.rest);
    UnescapeInvertsEscape(mount.source, special, other);
    UnescapeInvertsEscape(mount.point, special, other);
    LineIsOneLine(source, point, mount.rest);
  }

  lemma LineIsOneLine(source: Text, point: Text, rest: Text)
    requires NoBlank(source) && NoBlank(point) && OneLine(rest)
    ensures OneLine(source + ([SPACE] + (point + ([SPACE] + rest))))
  {
    NoBlankIsOneLine(source);
    NoBlankIsOneLine(point);
    OneLineAppend([SPACE], rest);
    OneLineAppend(point, [SPACE] + rest);
    OneLineAppend([SPACE], point + ([SPACE] + rest));
    OneLineAppend(source, [SPACE] + (point + ([SPACE] + rest)));
  }

  lemma {:induction false} TableReadsBack(mounts: seq<Mount>, special: set<Byte>, other: IntOf)
    requires Protects(special) && forall m :: m in mounts ==> IsMount(m)
    ensures TablePairs(SplitLines(TableText(mounts, special)), other) == Points(mounts)
  {
    if mounts != [] {
      var line, rest := LineOf(mounts[0], special), TableText(mounts[1..], special);
      TableReadsBack(mounts[1..], special, other);
      LineReadsBack(mounts[0], special, other);
      FirstLine(line, LF, rest);
      assert ([line] + SplitLines(rest))[1..] == SplitLines(rest);
    }
  }

  ghost predicate TableRoundTrip(special: set<Byte>, other: IntOf) {
    forall mounts: seq<Mount> :: (forall m :: m in mounts ==> IsMount(m)) ==>
      ReadTable(TableText(mounts, special), other) == Mounted(mounts)
  }

  /** One mount, by the name `A`, whose point is `point`. */
  function Probe(point: Text): Mount {
    Mount([65], point, [])
  }

  lemma ProbeText(point: Text, special: set<Byte>)
    ensures TableText([Probe(point)], special)
         == Escape([65], special) + ([SPACE] + (Escape(point, special) + [SPACE, LF]))
    ensures Mounted([Probe(point)]) == map[point := [65]]
  {
    assert [Probe(point)][1..] == [];
    assert LineOf(Probe(point), special) + ([LF] + [])
        == Escape([65], special) + ([SPACE] + (Escape(point, special) + [SPACE, LF]));
    var pairs := Points([Probe(point)]);
    assert pairs == [(point, Probe(point).source)] + Points([]) == [(point, Probe(point).source)];
    OnePair(pairs);
  }

  /** A line of one word and blanks names no mount. */
  lemma OneFieldLine(word: Text, blanks: Text, other: IntOf)
    requires word != [] && NoBlank(word) && forall i :: 0 <= i < |blanks| ==> IsBlank(blanks[i])
    ensures LinePairs(word + ([SPACE] + blanks), other) == []
  {
    FirstField(word, blanks);
    OnlyBlanks(blanks);
  }

  /** A point that is a blank the table does not escape is lost. */
  lemma BlankPointIsLost(b: Byte, special: set<Byte>, other: IntOf)
    requires IsBlank(b) && b !in special
    ensures TablePairs(SplitLines(TableText([Probe([b])], special)), other) == []
  {
    var word := Escape([65], special);
    EscapedHasNoBlank([65], special);
    ProbeText([b], special);
    assert Escape([b], special) == [b] by { assert [b][1..] == []; }
    assert [b] + [SPACE, LF] == [b, SPACE, LF];
    NoBlankIsOneLine(word);
    if b == LF || b == CR {
      BlankEndsLine(word, b, other);
    } else {
      BlankInLine(word, b, other);
    }
  }

  lemma BlankEndsLine(word: Text, b: Byte, other: IntOf)
    requires word != [] && NoBlank(word) && OneLine(word) && (b == LF || b == CR)
    ensures TablePairs(SplitLines(word + ([SPACE] + [b, SPACE, LF])), other) == []
  {
    var first, second := word + [SPACE], [SPACE];
    assert word + ([SPACE] + [b, SPACE, LF]) == first + ([b] + [SPACE, LF]);
    FirstLine(first, b, [SPACE, LF]);
    assert [SPACE, LF] == second + ([LF] + []);
    FirstLine(second, LF, []);
    assert word + ([SPACE] + []) == first;
    OneFieldLine(word, [], other);
    OnlyBlanks(second);
    assert ([first] + ([second] + []))[1..] == [second];
    OneLinePairs(second, other);
  }

  lemma BlankInLine(word: Text, b: Byte, other: IntOf)
    requires word != [] && NoBlank(word) && OneLine(word) && IsBlank(b) && b != LF && b != CR
    ensures TablePairs(SplitLines(word + ([SPACE] + [b, SPACE, LF])), other) == []
  {
    var line := word + ([SPACE] + [b, SPACE]);
    assert word + ([SPACE] + [b, SPACE, LF]) == line + ([LF] + []);
    OneLineAppend(word, [SPACE] + [b, SPACE]);
    FirstLine(line, LF, []);
    assert [line] + [] == [line];
    OneFieldLine(word, [b, SPACE], other);
    OneLinePairs(line, other);
  }

  lemma {:induction false} OnlyBlanks(text: Text)
    requires forall i :: 0 <= i < |text| ==> IsBlank(text[i])
    ensures Fields(text) == []
  {
    if text != [] {
      OnlyBlanks(text[1..]);
    }
  }

  lemma ProbeLine(word: Text, point: Text, other: IntOf)
    requires word != [] && NoBlank(word) && point != [] && NoBlank(point)
    ensures TablePairs(SplitLines(word + ([SPACE] + (point + [SPACE, LF]))), other)
         == [(Unescape(point, other), Unescape(word, other))]
  {
    var line := word + ([SPACE] + (point + ([SPACE] + [])));
    assert word + ([SPACE] + (point + [SPACE, LF])) == line + ([LF] + []);
    LineIsOneLine(word, point, []);
    FirstLine(line, LF, []);
    assert [line] + [] == [line];
    FirstField(word, point + ([SPACE] + []));
    FirstField(point, []);
    OneLinePairs(line, other);
  }

  /** A point that is a backslash and an escaped blank comes back as its escaped text. */
  lemma BackslashPointIsChanged(special: set<Byte>, other: IntOf)
    requires BACKSLASH !in special && SPACE in special && other([]) == None
    ensures var point := [BACKSLASH, SPACE];
            && ReadTable(TableText([Probe(point)], special), other) != Mounted([Probe(point)])
  {
    var point, escaped, word := [BACKSLASH, SPACE], [BACKSLASH] + EscapeByte(SPACE), Escape([65], special);
    EscapeOfTwo(BACKSLASH, SPACE, special);
    PlainBackslash(SPACE, special, other);
    EscapedHasNoBlank([65], special);
    ProbeText(point, special);
    ProbeLine(word, escaped, other);
    OnePair([(escaped, Unescape(word, other))]);
    assert point in Mounted([Probe(point)]);
  }

  lemma OneLinePairs(line: Text, other: IntOf)
    ensures TablePairs([line], other) == LinePairs(line, other)
  {
    assert [line][1..] == [];
    assert FlatMap([line], PairsOf(other)) == PairsOf(other)(line) + FlatMap([], PairsOf(other))
        == PairsOf(other)(line);
  }

  lemma OnePair(pairs: seq<(Text, Text)>)
    requires |pairs| == 1
    ensures LastWins(pairs) == map[pairs[0].0 := pairs[0].1]
  {
    assert pairs[..0] == [];
  }

  /** The table reads back as the mounts it was written from, for all mounts, exactly when its escaping covers the
      backslash and every blank. */
  lemma TableRoundTripExactly(special: set<Byte>, other: IntOf)
    requires other([]) == None
    ensures TableRoundTrip(special, other) <==> Protects(special)
  {
    if Protects(special) {
      forall mounts: seq<Mount> | forall m :: m in mounts ==> IsMount(m)
        ensures ReadTable(TableText(mounts, special), other) == Mounted(mounts)
      {
        TableReadsBack(mounts, special, other);
      }
    } else if TableRoundTrip(special, other) {
      forall b: Byte | IsBlank(b) ensures b in special {
        if b !in special {
          BlankPointBreaks(b, special, other);
          ProbeIsMount([b]);
        }
      }
      BackslashPointIsChanged(special, other);
      ProbeIsMount([BACKSLASH, SPACE]);
    }
  }

  lemma BlankPointBreaks(b: Byte, special: set<Byte>, other: IntOf)
    requires IsBlank(b) && b !in special
    ensures ReadTable(TableText([Probe([b])], special), other) != Mounted([Probe([b])])
  {
    ProbeText([b], special);
    BlankPointIsLost(b, special, other);
    assert [b] in Mounted([Probe([b])]);
  }

  lemma ProbeIsMount(point: Text)
    requires point != []
    ensures forall m :: m in [Probe(point)] ==> IsMount(m)
  {
  }

  /** The kernel escapes space, tab, line feed, backslash and number sign only, so some mount points do not survive. */
  lemma KernelEscapesTooLittle(other: IntOf)
    requires other([]) == None
    ensures !TableRoundTrip({SPACE, 9, LF, BACKSLASH, 35}, other)
  {
    assert IsBlank(CR);
    TableRoundTripExactly({SPACE, 9, LF, BACKSLASH, 35}, other);
  }

  // ---------- The code ----------

  method UnescapeMountpoint(escapedPath: Text, other: IntOf) returns (path: Text)
    ensures path == Unescape(escapedPath, other)
  {
    var parts := SplitEscapes(escapedPath);
    var buf: Text := [];
    BothUnit(PartsBytes(parts, other));
    assert parts[0..] == parts;
    for k := 0 to |parts|
      invariant PartsBytes(parts, other) == Both(Some(buf), PartsBytes(parts[k..], other))
    {
      var part := parts[k];
      assert parts[k..][1..] == parts[k + 1..];
      BothAssociates(Some(buf), PartBytes(part, other), PartsBytes(parts[k + 1..], other));
      if part != [] && part[0] == BACKSLASH {
        var value := OctalOf(part[1..], other);
        if value.None? || value.value < 0 || value.value >= 256 {
          return escapedPath;
        }
        buf := buf + [value.value];
      } else {
        buf := buf + part;
      }
    }
    BothUnit(Some(buf));
    return buf;
  }

  lemma NextLine(lines: seq<Text>, k: nat, other: IntOf)
    requires k < |lines|
    ensures TablePairs(lines[..k + 1], other) == TablePairs(lines[..k], other) + LinePairs(lines[k], other)
  {
    FlatMapNext(lines, k, PairsOf(other));
    assert PairsOf(other)(lines[k]) == LinePairs(lines[k], other);
  }

  lemma NextPair(pairs: seq<(Text, Text)>, key: Text, value: Text)
    ensures LastWins(pairs + [(key, value)]) == LastWins(pairs)[key := value]
  {
    assert (pairs + [(key, value)])[..|pairs|] == pairs;
  }

  /** `None` is a table that cannot be opened. */
  method ReadMountTable(file: Option<Text>, other: IntOf) returns (result: map<Text, Text>)
    ensures result == if file.Some? then ReadTable(file.value, other) else map[]
  {
    result := map[];
    if file.Some? {
      var lines := SplitLines(file.value);
      for k := 0 to |lines|
        invariant result == LastWins(TablePairs(lines[..k], other))
      {
        NextLine(lines, k, other);
        var parts := Fields(lines[k]);
        if |parts| >= 2 {
          var source := UnescapeMountpoint(parts[0], other);
          var mountPoint := UnescapeMountpoint(parts[1], other);
          NextPair(TablePairs(lines[..k], other), mountPoint, source);
          result := result[mountPoint := source];
        } else {
          assert TablePairs(lines[..k], other) + [] == TablePairs(lines[..k], other);
        }
      }
      assert lines[..|lines|] == lines;
    }
  }
}
