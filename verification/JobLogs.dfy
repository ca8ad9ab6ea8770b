/** The failure-line lookup of `app/routers/jobs.py`: the newest matching line of a rotated log family. */
module JobLogs {
  import opened AdminLogs
  import opened LogLines
  import opened Options
  import opened Sequences

  /** The newest matching line of a family is the line the viewer would show first for the same search. */
  function NewestMatch(files: seq<LogFile>, matches: Line -> bool): Option<Line> {
    var shown := NewestFirst(files, Search(matches));
    if shown == [] then None else Some(shown[0].1)
  }

  /** What the lookup finds in one file; an empty file has not even an empty line. */
  function FoundIn(content: seq<Byte>, matches: Line -> bool): Option<Line> {
    if content == [] then None else LastMatch(content, matches)
  }

  /** A line that is the last match of its file, the first one that can be read and has a match. */
  ghost predicate IsFirstFound(files: seq<LogFile>, matches: Line -> bool, k: nat, line: Line) {
    && k < |files| && files[k].content.Some? && FoundIn(files[k].content.value, matches) == Some(line)
    && NoneFound(files, matches, k)
  }

  /** The first `n` files have no match, as far as they can be read. */
  ghost predicate NoneFound(files: seq<LogFile>, matches: Line -> bool, n: nat)
    requires n <= |files|
  {
    forall j :: 0 <= j < n && files[j].content.Some? ==> FoundIn(files[j].content.value, matches) == None
  }

  method FindRecentLogMatch(files: seq<LogFile>, matches: Line -> bool) returns (r: Option<Line>)
    ensures r.Some? ==> exists k :: IsFirstFound(files, matches, k, r.value)
    ensures r.None? ==> NoneFound(files, matches, |files|)
    ensures !matches([]) ==> r == NewestMatch(files, matches)
  {
    var k;
    r, k := SearchFamily(files, matches);
    if !matches([]) {
      LookupIsNewest(files, matches, k, r);
    }
  }

  /** The loop over the family. */
  method SearchFamily(files: seq<LogFile>, matches: Line -> bool) returns (r: Option<Line>, k: nat)
    ensures r.None? ==> k == |files| && NoneFound(files, matches, k)
    ensures r.Some? ==> IsFirstFound(files, matches, k, r.value)
  {
    k := 0;
    while k < |files|
      invariant 0 <= k <= |files|
      invariant NoneFound(files, matches, k)
    {
      if files[k].content.Some? {
        r := FindInFile(files[k].content.value, matches, SCAN_CHUNK_SIZE);
        if r.Some? {
          return;
        }
      }
      k := k + 1;
    }
    r := None;
  }

  lemma LookupIsNewest(files: seq<LogFile>, matches: Line -> bool, k: nat, r: Option<Line>)
    requires !matches([])
    requires r.None? ==> k == |files| && NoneFound(files, matches, k)
    requires r.Some? ==> IsFirstFound(files, matches, k, r.value)
    ensures r == NewestMatch(files, matches)
  {
    if r.Some? {
      FoundIsShownFirst(files, matches, k, r.value);
    } else {
      NoneFoundIsNoneShown(files, matches, k);
      assert files[..k] == files;
    }
  }

  lemma {:induction false} NoneFoundIsNoneShown(files: seq<LogFile>, matches: Line -> bool, n: nat)
    requires n <= |files| && NoneFound(files, matches, n) && !matches([])
    ensures NewestFirst(files[..n], Search(matches)) == []
  {
    if n > 0 {
      NoneFoundIsNoneShown(files, matches, n - 1);
      OneFileMore(files, n - 1, Search(matches));
      if files[n - 1].content.Some? {
        EmptyFile(matches);
        assert FoundIn(files[n - 1].content.value, matches) == None;
      }
    }
  }

  lemma EmptyFile(matches: Line -> bool)
    requires !matches([])
    ensures LastMatch([], matches) == None
  {
    var empty: Line := [];
    var parts := Split(empty, LF);
    assert parts == [empty] && parts[1..] == [];
    assert Filter(parts, matches) == Filter(parts[1..], matches) == [];
  }

  lemma FoundIsFirstOfFile(file: LogFile, matches: Line -> bool, line: Line)
    requires file.content.Some? && FoundIn(file.content.value, matches) == Some(line)
    ensures var entries := FileNewestFirst(file, Search(matches)); entries != [] && entries[0] == (file.name, line)
  {
    FileEntries(file, Search(matches), 0);
  }

  /** The line found is the one the viewer shows first. */
  lemma FoundIsShownFirst(files: seq<LogFile>, matches: Line -> bool, k: nat, line: Line)
    requires IsFirstFound(files, matches, k, line) && !matches([])
    ensures NewestMatch(files, matches) == Some(line)
  {
    var q := Search(matches);
    NoneFoundIsNoneShown(files, matches, k);
    FoundIsFirstOfFile(files[k], matches, line);
    EntryAt(files, q, k, 0);
  }

  function LastMatch(content: seq<Byte>, matches: Line -> bool): Option<Line> {
    var found := Filter(Split(content, LF), matches);
    if found == [] then None else Some(found[|found| - 1])
  }

  /** The carry-based backward scan of one file, stopping at the first match it meets. */
  method FindInFile(file: seq<Byte>, matches: Line -> bool, chunkSize: nat) returns (r: Option<Line>)
    requires chunkSize > 0
    ensures r == FoundIn(file, matches)
  {
    var position := |file|;
    var carry: seq<Byte> := [];
    assert file[..position] + carry == file;
    while position > 0
      invariant 0 <= position <= |file|
      invariant file != [] ==> Filter(Split(file, LF), matches) == UnreadMatches(file, position, carry, matches)
    {
      var next, newCarry, lines := ReadBlock(file, position, carry, chunkSize);
      UnmatchedStep(file, position, next, carry, newCarry, lines, matches);
      position, carry := next, newCarry;
      var found := LastMatching(lines, matches);
      if found.Some? {
        return found;
      }
    }
    r := None;
  }

  /** While nothing has matched yet, the unread matches are all the matches there are. */
  lemma UnmatchedStep(file: seq<Byte>, position: nat, next: nat, carry: seq<Byte>,
                      newCarry: seq<Byte>, lines: seq<Line>, matches: Line -> bool)
    requires next < position <= |file|
    requires var parts := Split(file[next..position] + carry, LF);
             if next == 0 then newCarry == [] && lines == parts else newCarry == parts[0] && lines == parts[1..]
    ensures UnreadMatches(file, position, carry, matches)
         == UnreadMatches(file, next, newCarry, matches) + Filter(lines, matches)
  {
    var before, block := UnreadMatches(file, position, carry, matches), Filter(lines, matches);
    ScanStep(file, position, next, carry, newCarry, lines, matches, []);
    assert before + [] == before && block + [] == block;
  }

  method LastMatching(lines: seq<Line>, matches: Line -> bool) returns (r: Option<Line>)
    ensures var found := Filter(lines, matches);
            r == if found == [] then None else Some(found[|found| - 1])
  {
    var i := |lines|;
    while i > 0
      invariant 0 <= i <= |lines|
      invariant Filter(lines[i..], matches) == []
    {
      i := i - 1;
      FilterAppend(lines[..i], lines[i..], matches);
      assert lines == lines[..i] + lines[i..];
      if matches(lines[i]) {
        return Some(lines[i]);
      }
    }
    assert lines[i..] == lines;
    r := None;
  }
}
