/** What a log file's lines are: the reference the backward readers are proved against. */
module LogLines {
  import opened Sequences
  import opened Strings

  type Byte = b: int | 0 <= b < 256
  type Line = seq<Byte>

  const LF: Byte := 10
  const CR: Byte := 13

  /** `bytes.splitlines()`: LF, CR and CRLF each end a line; a final terminator opens no further line. */
  function SplitLines(s: seq<Byte>): (lines: seq<Line>)
    ensures s == [] <==> lines == []
  {
    if s == [] then []
    else if s[0] == LF then [[]] + SplitLines(s[1..])
    else if s[0] == CR then
      [[]] + SplitLines(if |s| > 1 && s[1] == LF then s[2..] else s[1..])
    else
      var rest := SplitLines(s[1..]);
      if rest == [] then [[s[0]]] else [[s[0]] + rest[0]] + rest[1..]
  }

  /** One more byte in front changes at most the first line and where it begins. */
  lemma PrependByte(c: Byte, s: seq<Byte>)
    requires s != []
    ensures var lines, more := SplitLines(s), SplitLines([c] + s);
            |more| >= |lines| && more[|more| - (|lines| - 1)..] == lines[1..]
  {
    var t := [c] + s;
    assert t[1..] == s;
    if c == CR && s[0] == LF {
      assert t[2..] == s[1..];
    }
  }

  /** Extending a non-empty text to the left leaves every line after its first one as it is. */
  lemma {:induction false} LinesAfterFirstStay(prefix: seq<Byte>, s: seq<Byte>)
    requires s != []
    ensures |SplitLines(prefix + s)| >= |SplitLines(s)|
    ensures LastN(SplitLines(prefix + s), |SplitLines(s)| - 1) == SplitLines(s)[1..]
  {
    if prefix == [] {
      assert prefix + s == s;
    } else {
      var t := prefix[1..] + s;
      assert prefix + s == [prefix[0]] + t;
      LinesAfterFirstStay(prefix[1..], s);
      PrependByte(prefix[0], t);
      SuffixOfSuffix(SplitLines(prefix + s), SplitLines(t), |SplitLines(s)| - 1);
    }
  }

  lemma SuffixOfSuffix<T>(a: seq<T>, b: seq<T>, n: nat)
    requires n < |b| <= |a| && a[|a| - (|b| - 1)..] == b[1..]
    ensures LastN(a, n) == LastN(b, n)
  {
    assert LastN(a, n) == LastN(a[|a| - (|b| - 1)..], n);
    assert LastN(b, n) == LastN(b[1..], n);
  }

  /** Every LF ends a line, so a text has at least as many lines as LFs. */
  lemma NewlinesBoundLines(s: seq<Byte>)
    ensures Count(s, LF) <= |SplitLines(s)|
  {
    if s != [] && s[0] == CR && |s| > 1 && s[1] == LF {
      NewlinesBoundLines(s[2..]);
      assert s[1..][1..] == s[2..];
    }
  }

  /** A reader that holds the end of a file with more than `n` newlines in it knows the last `n` lines. */
  lemma TailSuffices(prefix: seq<Byte>, buffer: seq<Byte>, n: nat)
    requires prefix == [] || Count(buffer, LF) > n
    ensures LastN(SplitLines(buffer), n) == LastN(SplitLines(prefix + buffer), n)
    ensures (|SplitLines(buffer)| > n) == (|SplitLines(prefix + buffer)| > n)
  {
    if prefix == [] {
      assert prefix + buffer == buffer;
    } else {
      NewlinesBoundLines(buffer);
      LinesAfterFirstStay(prefix, buffer);
      var whole, part := SplitLines(prefix + buffer), SplitLines(buffer);
      SuffixOfSuffix(whole, part, n);
    }
  }

  lemma NoBreakInLine(s: seq<Byte>)
    ensures forall k :: 0 <= k < |SplitLines(s)| ==> LF !in SplitLines(s)[k] && CR !in SplitLines(s)[k]
  {
  }

  // ---------- Searching ----------

  predicate OneLine(text: seq<Byte>) {
    LF !in text && CR !in text
  }

  lemma {:induction false} FirstLine(line: Line, end: Byte, rest: seq<Byte>)
    requires OneLine(line) && (end == LF || (end == CR && (rest == [] || rest[0] != LF)))
    ensures SplitLines(line + ([end] + rest)) == [line] + SplitLines(rest)
  {
    var text := line + ([end] + rest);
    if line == [] {
      assert text == [end] + rest && text[1..] == rest;
    } else {
      assert text[0] == line[0] && line[0] in line && text[1..] == line[1..] + ([end] + rest);
      assert OneLine(line[1..]);
      FirstLine(line[1..], end, rest);
      assert [line[0]] + line[1..] == line;
    }
  }

  predicate OccursAt(text: string, needle: string, i: int) {
    0 <= i <= |text| - |needle| && text[i..i + |needle|] == needle
  }

  /** Whether `needle` occurs in `text`. */
  predicate Contains(text: string, needle: string) {
    exists i | 0 <= i <= |text| :: OccursAt(text, needle, i)
  }

  /** What a search looks for: a non-blank text without spaces around it. */
  predicate IsNeedle(needle: string) {
    needle != "" && !IsSpace(needle[0]) && !IsSpace(needle[|needle| - 1])
  }

  predicate Blank(text: string) {
    forall i :: 0 <= i < |text| ==> IsSpace(text[i])
  }

  /** A search over lines; `text` stands for decoding a line and folding its case. */
  function Finds(needle: string, text: Line -> string): Line -> bool {
    (line: Line) => Contains(text(line), needle)
  }

  /** Nothing comes of an empty line, and a CR is a character of its own, whatever stands around it. */
  ghost predicate Decodes(text: Line -> string) {
    text([]) == "" && forall a: Line, b: Line :: text(a + ([CR] + b)) == text(a) + ("\r" + text(b))
  }

  lemma BlankIsNotFound(needle: string, text: Line -> string, line: Line)
    requires IsNeedle(needle) && Blank(text(line))
    ensures !Finds(needle, text)(line)
  {
    var t := text(line);
    forall i ensures !OccursAt(t, needle, i) {
      if 0 <= i <= |t| - |needle| {
        assert t[i..i + |needle|][0] == t[i];
      }
    }
  }

  lemma CharIsFound(text: Line -> string, line: Line, i: nat)
    requires i < |text(line)|
    ensures Finds([text(line)[i]], text)(line)
  {
    assert text(line)[i..i + 1] == [text(line)[i]];
    assert OccursAt(text(line), [text(line)[i]], i);
  }

  /** Where a part is cut at a CR, what stands before and after it is blank if the part is. */
  lemma {:induction false} BlankPieces(part: Line, text: Line -> string)
    requires Decodes(text) && LF !in part && Blank(text(part))
    ensures forall k :: 0 <= k < |SplitLines(part)| ==> Blank(text(SplitLines(part)[k]))
    decreases |part|
  {
    if CR in part {
      var a, b := CutAtCr(part);
      assert Blank(text(a)) && Blank(text(b)) by {
        BlankAround(text(a), text(b));
      }
      BlankPieces(b, text);
      FirstLine(a, CR, b);
    } else {
      SplitOneLine(part);
    }
  }

  lemma BlankAround(a: string, b: string)
    requires Blank(a + ("\r" + b))
    ensures Blank(a) && Blank(b)
  {
    var t := a + ("\r" + b);
    forall i | 0 <= i < |a| ensures IsSpace(a[i]) {
      assert t[i] == a[i];
    }
    forall i | 0 <= i < |b| ensures IsSpace(b[i]) {
      assert t[|a| + 1 + i] == b[i];
    }
  }

  lemma {:induction false} CutAtCr(part: Line) returns (a: Line, b: Line)
    requires CR in part && LF !in part
    ensures part == a + ([CR] + b) && OneLine(a) && LF !in b && |b| < |part|
  {
    if part[0] == CR {
      a, b := [], part[1..];
    } else {
      a, b := CutAtCr(part[1..]);
      assert part == [part[0]] + part[1..];
      assert [part[0]] + (a + ([CR] + b)) == ([part[0]] + a) + ([CR] + b);
      a := [part[0]] + a;
    }
  }

  /** A text without terminators is one line, or none when it is empty. */
  lemma {:induction false} SplitOneLine(line: Line)
    requires OneLine(line)
    ensures SplitLines(line) == if line == [] then [] else [line]
  {
    if line != [] {
      assert line[0] in line && OneLine(line[1..]);
      SplitOneLine(line[1..]);
      assert [line[0]] + line[1..] == line;
      assert |line| == 1 ==> line == [line[0]];
    }
  }

  /** The lines of a text in front of an LF: an empty one is a line of its own. */
  function LinesBefore(part: Line): seq<Line> {
    if part == [] then [[]] else SplitLines(part)
  }

  function Lengthen(b: Byte, lines: seq<Line>): seq<Line>
    requires lines != []
  {
    [[b] + lines[0]] + lines[1..]
  }

  lemma PlainByte(b: Byte, s: seq<Byte>)
    requires b != LF && b != CR
    ensures SplitLines([b] + s) == Lengthen(b, LinesBefore(s))
  {
    assert ([b] + s)[1..] == s;
    assert [b] + [] == [b];
  }

  lemma LengthenFirst(b: Byte, lines: seq<Line>, rest: seq<Line>)
    requires lines != []
    ensures Lengthen(b, lines + rest) == Lengthen(b, lines) + rest
  {
    assert (lines + rest)[1..] == lines[1..] + rest;
  }

  lemma PlainThenMore(b: Byte, more: Line, rest: seq<Byte>)
    requires b != LF && b != CR
    requires SplitLines(more + ([LF] + rest)) == LinesBefore(more) + SplitLines(rest)
    ensures SplitLines([b] + (more + ([LF] + rest))) == SplitLines([b] + more) + SplitLines(rest)
  {
    PlainByte(b, more + ([LF] + rest));
    PlainByte(b, more);
    LengthenFirst(b, LinesBefore(more), SplitLines(rest));
  }

  /** At an LF the lines fall apart: a CR right before it belongs to it. */
  lemma {:induction false} LinesAtLf(part: Line, rest: seq<Byte>)
    requires LF !in part
    ensures SplitLines(part + ([LF] + rest)) == LinesBefore(part) + SplitLines(rest)
  {
    if part == [] {
      assert part + ([LF] + rest) == [LF] + rest && ([LF] + rest)[1..] == rest;
    } else {
      assert part[0] in part;
      LinesAtLf(part[1..], rest);
      assert part == [part[0]] + part[1..];
      assert part + ([LF] + rest) == [part[0]] + (part[1..] + ([LF] + rest));
      if part[0] == CR {
        CrBeforeLf(part[1..], rest);
      } else {
        PlainThenMore(part[0], part[1..], rest);
      }
    }
  }

  lemma CrLf(rest: seq<Byte>)
    ensures SplitLines([CR] + ([LF] + rest)) == [[]] + SplitLines(rest)
  {
    var s := [CR] + ([LF] + rest);
    assert s[1] == LF && s[2..] == rest;
  }

  lemma LoneCr(s: seq<Byte>)
    requires s != [] && s[0] == CR && (|s| > 1 ==> s[1] != LF)
    ensures SplitLines(s) == [[]] + SplitLines(s[1..])
  {
  }

  lemma CrThenMore(more: Line, rest: seq<Byte>)
    requires LF !in more && more != []
    requires SplitLines(more + ([LF] + rest)) == SplitLines(more) + SplitLines(rest)
    ensures SplitLines([CR] + (more + ([LF] + rest))) == SplitLines([CR] + more) + SplitLines(rest)
  {
    var s := more + ([LF] + rest);
    assert more[0] in more && s[0] == more[0];
    assert ([CR] + more)[1..] == more && ([CR] + s)[1..] == s;
    LoneCr([CR] + more);
    LoneCr([CR] + s);
    Associate([[]], SplitLines(more), SplitLines(rest));
  }

  lemma CrBeforeLf(more: Line, rest: seq<Byte>)
    requires LF !in more
    requires SplitLines(more + ([LF] + rest)) == LinesBefore(more) + SplitLines(rest)
    ensures SplitLines([CR] + (more + ([LF] + rest))) == SplitLines([CR] + more) + SplitLines(rest)
  {
    if more == [] {
      assert more + ([LF] + rest) == [LF] + rest && [CR] + more == [CR];
      CrLf(rest);
      LoneCr([CR]);
    } else {
      CrThenMore(more, rest);
    }
  }

  /** One part: a search finds in it what it finds in its lines. */
  predicate SameInPart(part: Line, matches: Line -> bool) {
    Filter([part], matches) == Filter(SplitLines(part), matches)
  }

  lemma {:induction false} NothingFound<T>(s: seq<T>, keep: T -> bool)
    requires forall k :: 0 <= k < |s| ==> !keep(s[k])
    ensures Filter(s, keep) == []
  {
    if s != [] {
      NothingFound(s[1..], keep);
    }
  }

  lemma BlankOrWhole(part: Line, needle: string, text: Line -> string)
    requires Decodes(text) && IsNeedle(needle) && LF !in part && (CR in part ==> Blank(text(part)))
    ensures SameInPart(part, Finds(needle, text))
  {
    var matches := Finds(needle, text);
    assert [part][1..] == [];
    if CR in part {
      BlankIsNotFound(needle, text, part);
      BlankPieces(part, text);
      forall k | 0 <= k < |SplitLines(part)| ensures !matches(SplitLines(part)[k]) {
        BlankIsNotFound(needle, text, SplitLines(part)[k]);
      }
      NothingFound(SplitLines(part), matches);
    } else {
      SplitOneLine(part);
      if part == [] {
        BlankIsNotFound(needle, text, part);
      }
    }
  }

  /** When that holds of every part, it holds of the whole text. */
  lemma {:induction false} SameInWhole(s: seq<Byte>, matches: Line -> bool)
    requires !matches([])
    requires forall k :: 0 <= k < |Split(s, LF)| ==> SameInPart(Split(s, LF)[k], matches)
    ensures Filter(Split(s, LF), matches) == Filter(SplitLines(s), matches)
    decreases |s|
  {
    if LF in s {
      var part, rest := CutAtLf(s);
      var parts := Split(rest, LF);
      SplitFirst(part, rest, LF);
      assert part + [LF] + rest == s && Split(s, LF) == [part] + parts;
      forall k | 0 <= k < |parts| ensures SameInPart(parts[k], matches) {
        assert Split(s, LF)[k + 1] == parts[k];
      }
      SameInWhole(rest, matches);
      assert SameInPart(Split(s, LF)[0], matches);
      FirstPart(part, rest, matches);
    } else {
      SplitWithoutSeparator(s, LF);
      assert SameInPart(Split(s, LF)[0], matches);
    }
  }

  lemma FirstPart(part: Line, rest: seq<Byte>, matches: Line -> bool)
    requires LF !in part && !matches([]) && SameInPart(part, matches)
    ensures Filter(SplitLines(part + ([LF] + rest)), matches)
         == Filter([part], matches) + Filter(SplitLines(rest), matches)
    ensures Filter([part] + Split(rest, LF), matches) == Filter([part], matches) + Filter(Split(rest, LF), matches)
  {
    var first := if part == [] then [[]] else SplitLines(part);
    LinesAtLf(part, rest);
    FilterAppend(first, SplitLines(rest), matches);
    FilterAppend([part], Split(rest, LF), matches);
  }

  lemma {:induction false} CutAtLf(s: seq<Byte>) returns (part: Line, rest: seq<Byte>)
    requires LF in s
    ensures s == part + ([LF] + rest) && LF !in part && |rest| < |s|
  {
    if s[0] == LF {
      part, rest := [], s[1..];
    } else {
      part, rest := CutAtLf(s[1..]);
      assert s == [s[0]] + s[1..];
      assert [s[0]] + (part + ([LF] + rest)) == ([s[0]] + part) + ([LF] + rest);
      part := [s[0]] + part;
    }
  }

  /** Every search shows exactly the matching lines of the unfiltered view if and only if nothing but blanks shares a
      part between LFs with a CR. */
  lemma SearchIsAFilterOfTheView(s: seq<Byte>, text: Line -> string)
    requires Decodes(text)
    ensures (forall needle :: IsNeedle(needle) ==>
               Filter(Split(s, LF), Finds(needle, text)) == Filter(SplitLines(s), Finds(needle, text)))
            <==> (forall k :: 0 <= k < |Split(s, LF)| && CR in Split(s, LF)[k] ==> Blank(text(Split(s, LF)[k])))
  {
    var parts := Split(s, LF);
    PartsHaveNoSeparator(s, LF);
    if forall k :: 0 <= k < |parts| && CR in parts[k] ==> Blank(text(parts[k])) {
      forall needle | IsNeedle(needle)
        ensures Filter(parts, Finds(needle, text)) == Filter(SplitLines(s), Finds(needle, text))
      {
        forall k | 0 <= k < |parts| ensures SameInPart(parts[k], Finds(needle, text)) {
          BlankOrWhole(parts[k], needle, text);
        }
        BlankIsNotFound(needle, text, []);
        SameInWhole(s, Finds(needle, text));
      }
    } else {
      var k :| 0 <= k < |parts| && CR in parts[k] && !Blank(text(parts[k]));
      var i :| 0 <= i < |text(parts[k])| && !IsSpace(text(parts[k])[i]);
      var needle := [text(parts[k])[i]];
      CharIsFound(text, parts[k], i);
      FoundWithCr(s, k, Finds(needle, text));
      assert IsNeedle(needle);
    }
  }

  /** The search shows a line with a CR, which the view never does. */
  lemma FoundWithCr(s: seq<Byte>, k: nat, matches: Line -> bool)
    requires k < |Split(s, LF)| && CR in Split(s, LF)[k] && matches(Split(s, LF)[k])
    ensures Filter(Split(s, LF), matches) != Filter(SplitLines(s), matches)
  {
    var part := Split(s, LF)[k];
    FilterElements(Split(s, LF), matches);
    FilterElements(SplitLines(s), matches);
    NoBreakInLine(s);
    assert part in Filter(Split(s, LF), matches);
    assert part !in SplitLines(s);
  }
}
