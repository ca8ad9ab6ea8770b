/** The log viewer of `app/routers/admin.py`: backward tail reads, the rotated family, and paging. */
module AdminLogs {
  import opened LogLines
  import opened Options
  import opened Sequences

  const TAIL_BLOCK_SIZE: nat := 8192
  const SCAN_CHUNK_SIZE: nat := 64 * 1024

  /** A search keeps the lines containing a needle; it is `Everything` when the needle is blank. */
  datatype Query = Everything | Search(matches: Line -> bool)

  /** A non-blank needle is never found in an empty line. */
  predicate Valid(q: Query) {
    q.Search? ==> !q.matches([])
  }

  /** A family member; `None` is a file that cannot be opened. */
  datatype LogFile = LogFile(name: string, content: Option<seq<Byte>>)

  datatype Result<T> = Ok(value: T) | Unavailable

  /** A line of output, tagged with the file it came from. */
  type Entry = (string, Line)

  datatype Window = Window(lines: seq<Entry>, hasMore: bool)

  // ---------- Reference: what the viewer is meant to show ----------

  /** The lines of one file a query selects, oldest first. */
  function Selected(content: seq<Byte>, q: Query): seq<Line> {
    match q
    case Everything => SplitLines(content)
    case Search(matches) => Filter(Split(content, LF), matches)
  }

  function Tag(name: string, lines: seq<Line>): seq<Entry> {
    seq(|lines|, i requires 0 <= i < |lines| => (name, lines[i]))
  }

  /** All selected lines of one file, newest first; a file that cannot be opened has none. */
  function FileNewestFirst(file: LogFile, q: Query): seq<Entry> {
    if file.content.None? then [] else Tag(file.name, Reverse(Selected(file.content.value, q)))
  }

  function PerFile(files: seq<LogFile>, q: Query): seq<seq<Entry>> {
    seq(|files|, i requires 0 <= i < |files| => FileNewestFirst(files[i], q))
  }

  /** All selected lines of a family given newest file first, newest line first. */
  function NewestFirst(files: seq<LogFile>, q: Query): seq<Entry> {
    Concat(PerFile(files, q))
  }

  /** A file is reached unless the files before it already fill the window and one line more. */
  ghost predicate ReachesUnreadable(files: seq<LogFile>, q: Query, maxLines: nat) {
    exists k :: 0 <= k < |files| && files[k].content.None? && |NewestFirst(files[..k], q)| <= maxLines
  }

  // ---------- Reading one file from its end ----------

  method TailLines(file: seq<Byte>, maxLines: int, blockSize: nat) returns (lines: seq<Line>, hasMore: bool)
    requires blockSize > 0
    ensures maxLines <= 0 ==> lines == [] && !hasMore
    ensures maxLines > 0 ==> lines == LastN(SplitLines(file), maxLines)
    ensures maxLines > 0 ==> hasMore == (|SplitLines(file)| > maxLines)
  {
    if maxLines <= 0 {
      return [], false;
    }
    var position := |file|;
    var chunks: seq<seq<Byte>> := [];
    var newlineCount := 0;
    while position > 0 && newlineCount <= maxLines
      invariant 0 <= position <= |file|
      invariant Concat(Reverse(chunks)) == file[position..]
      invariant newlineCount == Count(file[position..], LF)
    {
      var chunkSize := Min(blockSize, position);
      var chunk := file[position - chunkSize..position];
      BlockRead(file, position, chunkSize, chunks);
      position := position - chunkSize;
      newlineCount := newlineCount + Count(chunk, LF);
      chunks := chunks + [chunk];
    }
    var buffer := Concat(Reverse(chunks));
    TailSuffices(file[..position], buffer, maxLines);
    assert file == file[..position] + buffer;
    lines := SplitLines(buffer);
    hasMore := |lines| > maxLines;
    if hasMore {
      lines := lines[|lines| - maxLines..];
    }
  }

  /** Reading one more block keeps the reversed blocks equal to the end of the file. */
  lemma BlockRead(file: seq<Byte>, position: nat, size: nat, chunks: seq<seq<Byte>>)
    requires size <= position <= |file| && Concat(Reverse(chunks)) == file[position..]
    ensures var chunk := file[position - size..position];
            && Concat(Reverse(chunks + [chunk])) == file[position - size..]
            && Count(file[position - size..], LF) == Count(chunk, LF) + Count(file[position..], LF)
  {
    var chunk := file[position - size..position];
    assert Reverse(chunks + [chunk]) == [chunk] + Reverse(chunks);
    assert file[position - size..] == chunk + file[position..];
    CountAppend(chunk, file[position..], LF);
  }

  /** The matches in the part of the file a carry-based scan has not reached. */
  ghost function UnreadMatches(file: seq<Byte>, position: nat, carry: seq<Byte>, matches: Line -> bool): seq<Line>
    requires position <= |file|
  {
    if position == 0 then [] else Filter(Split(file[..position] + carry, LF), matches)
  }

  /** One backward step: the block's complete lines move from the unread matches to the ones `kept`. */
  lemma ScanStep(file: seq<Byte>, position: nat, next: nat, carry: seq<Byte>,
                 newCarry: seq<Byte>, lines: seq<Line>, matches: Line -> bool, kept: seq<Line>)
    requires next < position <= |file|
    requires var parts := Split(file[next..position] + carry, LF);
             if next == 0 then newCarry == [] && lines == parts else newCarry == parts[0] && lines == parts[1..]
    ensures UnreadMatches(file, position, carry, matches) + kept
         == UnreadMatches(file, next, newCarry, matches) + (Filter(lines, matches) + kept)
  {
    var data := file[next..position] + carry;
    var parts := Split(data, LF);
    assert file[..position] + carry == file[..next] + data;
    if next == 0 {
      assert file[..next] + data == data;
      assert [] + (Filter(lines, matches) + kept) == Filter(lines, matches) + kept;
    } else {
      SplitOffTail(file[..next], data, LF);
      FilterAppend(Split(file[..next] + parts[0], LF), parts[1..], matches);
      Associate(UnreadMatches(file, next, newCarry, matches), Filter(lines, matches), kept);
    }
  }

  /** The lines of one block, newest first, until one more than `maxLines` matches are held. */
  method CollectMatches(found: seq<Line>, lines: seq<Line>, matches: Line -> bool, maxLines: nat)
    returns (matchesNewestFirst: seq<Line>, hasMore: bool)
    requires |found| <= maxLines
    ensures matchesNewestFirst == Take(found + Reverse(Filter(lines, matches)), maxLines + 1)
    ensures hasMore == (|matchesNewestFirst| > maxLines)
  {
    matchesNewestFirst := found;
    hasMore := false;
    var i := |lines|;
    while i > 0
      invariant 0 <= i <= |lines|
      invariant matchesNewestFirst == found + Reverse(Filter(lines[i..], matches))
      invariant !hasMore && |matchesNewestFirst| <= maxLines
    {
      i := i - 1;
      NewestMatches(lines[i..i + 1], lines[i + 1..], matches);
      assert lines[i..] == lines[i..i + 1] + lines[i + 1..];
      if matches(lines[i]) {
        matchesNewestFirst := matchesNewestFirst + [lines[i]];
        if |matchesNewestFirst| > maxLines {
          hasMore := true;
          assert lines == lines[..i] + lines[i..];
          NewestMatches(lines[..i], lines[i..], matches);
          break;
        }
      }
    }
    if !hasMore {
      assert lines[i..] == lines;
    }
  }

  lemma NewestMatches(older: seq<Line>, newer: seq<Line>, matches: Line -> bool)
    ensures Reverse(Filter(older + newer, matches))
         == Reverse(Filter(newer, matches)) + Reverse(Filter(older, matches))
  {
    FilterAppend(older, newer, matches);
    ReverseAppend(Filter(older, matches), Filter(newer, matches));
  }

  method TailFilteredLines(file: seq<Byte>, matches: Line -> bool, maxLines: int, chunkSize: nat)
    returns (lines: seq<Line>, hasMore: bool)
    requires chunkSize > 0
    requires !matches([])
    ensures maxLines <= 0 ==> lines == [] && !hasMore
    ensures maxLines > 0 ==> lines == LastN(Filter(Split(file, LF), matches), maxLines)
    ensures maxLines > 0 ==> hasMore == (|Filter(Split(file, LF), matches)| > maxLines)
  {
    if maxLines <= 0 {
      return [], false;
    }
    var matchesNewestFirst;
    matchesNewestFirst, hasMore := ScanBackward(file, matches, maxLines, chunkSize);
    if |matchesNewestFirst| > maxLines {
      matchesNewestFirst := matchesNewestFirst[..maxLines];
    }
    NewestAreLast(Filter(Split(file, LF), matches), maxLines);
    lines := Reverse(matchesNewestFirst);
  }

  /** One block: all of its lines but the first, which may begin further ahead and is carried; at the start of the file
      there is nothing further ahead. */
  method ReadBlock(file: seq<Byte>, position: nat, carry: seq<Byte>, chunkSize: nat)
    returns (next: nat, newCarry: seq<Byte>, lines: seq<Line>)
    requires 0 < position <= |file| && chunkSize > 0
    ensures next == position - Min(chunkSize, position)
    ensures var parts := Split(file[next..position] + carry, LF);
            if next == 0 then newCarry == [] && lines == parts else newCarry == parts[0] && lines == parts[1..]
  {
    var readSize := Min(chunkSize, position);
    next := position - readSize;
    var chunk := file[next..next + readSize];
    var data := chunk + carry;
    var parts := Split(data, LF);
    if next > 0 {
      newCarry := parts[0];
      lines := parts[1..];
    } else {
      newCarry := [];
      lines := parts;
    }
  }

  /** The scan itself: newest matches first, stopping once there is one more than `maxLines`. */
  method ScanBackward(file: seq<Byte>, matches: Line -> bool, maxLines: nat, chunkSize: nat)
    returns (matchesNewestFirst: seq<Line>, hasMore: bool)
    requires chunkSize > 0
    requires !matches([])
    ensures matchesNewestFirst == Take(Reverse(Filter(Split(file, LF), matches)), maxLines + 1)
    ensures hasMore == (|matchesNewestFirst| > maxLines)
  {
    ghost var kept: seq<Line> := [];
    matchesNewestFirst, hasMore := [], false;
    var position := |file|;
    var carry: seq<Byte> := [];
    assert file[..position] + carry == file;

    while position > 0 && |matchesNewestFirst| <= maxLines
      invariant 0 <= position <= |file|
      invariant Filter(Split(file, LF), matches) == UnreadMatches(file, position, carry, matches) + kept
      invariant matchesNewestFirst == Take(Reverse(kept), maxLines + 1)
      invariant hasMore == (|matchesNewestFirst| > maxLines)
    {
      var next, newCarry, lines := ReadBlock(file, position, carry, chunkSize);
      ScanStep(file, position, next, carry, newCarry, lines, matches, kept);
      position, carry := next, newCarry;
      KeepBlock(kept, Filter(lines, matches), maxLines + 1);
      matchesNewestFirst, hasMore := CollectMatches(matchesNewestFirst, lines, matches, maxLines);
      kept := Filter(lines, matches) + kept;
      // The source also breaks here once hasMore is set; the loop guard then fails anyway.
    }
    UnreadDoesNotMatter(UnreadMatches(file, position, carry, matches), kept, maxLines + 1);
  }

  /** Holding only the newest `n` matches commutes with taking in one more block. */
  lemma KeepBlock<T>(kept: seq<T>, block: seq<T>, n: nat)
    ensures Take(Take(Reverse(kept), n) + Reverse(block), n) == Take(Reverse(block + kept), n)
  {
    ReverseAppend(block, kept);
  }

  /** What is unread does not matter once `n` matches are kept. */
  lemma UnreadDoesNotMatter<T>(unread: seq<T>, kept: seq<T>, n: nat)
    requires unread == [] || |kept| >= n
    ensures Take(Reverse(kept), n) == Take(Reverse(unread + kept), n)
  {
    ReverseAppend(unread, kept);
  }

  lemma NewestAreLast<T>(all: seq<T>, n: nat)
    ensures Take(Take(Reverse(all), n + 1), n) == Take(Reverse(all), n)
    ensures Reverse(Take(Reverse(all), n)) == LastN(all, n)
  {
  }

  // ---------- Reading a family and paging it ----------

  method TailLogFamilyLines(files: seq<LogFile>, q: Query, maxLines: int) returns (r: Result<Window>)
    requires Valid(q)
    ensures maxLines <= 0 ==> r == Ok(Window([], false))
    ensures maxLines > 0 ==> (r.Unavailable? <==> ReachesUnreadable(files, q, maxLines))
    ensures maxLines > 0 && r.Ok? ==>
              r.value == Window(Take(NewestFirst(files, q), maxLines), |NewestFirst(files, q)| > maxLines)
  {
    if maxLines <= 0 {
      return Ok(Window([], false));
    }
    var linesNewestFirst, hasMore, k := ReadFiles(files, q, maxLines);
    PrefixLists(files, q, k);
    if !hasMore && k < |files| {
      return Unavailable;
    }
    RestDoesNotMatter(files, q, maxLines, k);
    if |linesNewestFirst| > maxLines {
      linesNewestFirst := linesNewestFirst[..maxLines];
    }
    r := Ok(Window(linesNewestFirst, hasMore));
  }

  /** The loop over the family: it stops when it holds one line too many, or at a file it cannot open. */
  method ReadFiles(files: seq<LogFile>, q: Query, maxLines: nat)
    returns (linesNewestFirst: seq<Entry>, hasMore: bool, k: nat)
    requires Valid(q)
    ensures k <= |files| && forall j :: 0 <= j < k ==> files[j].content.Some?
    ensures linesNewestFirst == Take(Concat(PerFile(files, q)[..k]), maxLines + 1)
    ensures hasMore == (|linesNewestFirst| > maxLines)
    ensures !hasMore && k < |files| ==> files[k].content.None?
  {
    ghost var lists := PerFile(files, q);
    var target := maxLines + 1;
    linesNewestFirst, hasMore, k := [], false, 0;
    while k < |files| && !hasMore && files[k].content.Some?
      invariant 0 <= k <= |files|
      invariant linesNewestFirst == Take(Concat(lists[..k]), target)
      invariant hasMore == (|linesNewestFirst| > maxLines)
      invariant forall j :: 0 <= j < k ==> files[j].content.Some?
    {
      var remaining := target - |linesNewestFirst|;
      var lines, fileHasMore := TailFile(files[k], q, remaining);
      WindowStep(linesNewestFirst, lists, k, target);
      linesNewestFirst := linesNewestFirst + lines;
      if |linesNewestFirst| >= target {
        hasMore := true;
        linesNewestFirst := Take(linesNewestFirst, target);
      } else if fileHasMore {
        hasMore := true;
      }
      k := k + 1;
    }
  }

  /** One file's contribution: its newest selected lines, read with the reader the query calls for. */
  method TailFile(file: LogFile, q: Query, maxLines: nat) returns (entries: seq<Entry>, hasMore: bool)
    requires Valid(q) && maxLines > 0 && file.content.Some?
    ensures entries == Take(FileNewestFirst(file, q), maxLines)
    ensures hasMore == (|FileNewestFirst(file, q)| > maxLines)
  {
    var lines;
    if q.Search? {
      lines, hasMore := TailFilteredLines(file.content.value, q.matches, maxLines, SCAN_CHUNK_SIZE);
    } else {
      lines, hasMore := TailLines(file.content.value, maxLines, TAIL_BLOCK_SIZE);
    }
    TagNewest(file.name, Selected(file.content.value, q), maxLines);
    entries := Tag(file.name, Reverse(lines));
  }

  lemma TagNewest(name: string, lines: seq<Line>, n: nat)
    ensures Tag(name, Reverse(LastN(lines, n))) == Take(Tag(name, Reverse(lines)), n)
  {
  }

  /** Taking only as much of the next list as is still wanted loses nothing. */
  lemma WindowStep<T>(found: seq<T>, lists: seq<seq<T>>, k: nat, target: nat)
    requires k < |lists| && found == Take(Concat(lists[..k]), target) && |found| < target
    ensures var next := found + Take(lists[k], target - |found|);
            next == Take(Concat(lists[..k + 1]), target) && next == Take(next, target)
  {
    ConcatNext(lists, k);
    assert found == Concat(lists[..k]);
  }

  lemma PrefixLists(files: seq<LogFile>, q: Query, k: nat)
    requires k <= |files|
    ensures Concat(PerFile(files, q)[..k]) == NewestFirst(files[..k], q)
  {
    assert PerFile(files, q)[..k] == PerFile(files[..k], q);
  }

  /** Files after the first `k` do not matter when there are none, or when those `k` overfill the window. */
  lemma RestDoesNotMatter(files: seq<LogFile>, q: Query, maxLines: nat, k: nat)
    requires k <= |files| && (k == |files| || |NewestFirst(files[..k], q)| > maxLines)
    requires forall j :: 0 <= j < k ==> files[j].content.Some?
    ensures var found := Take(NewestFirst(files[..k], q), maxLines + 1);
            && Take(found, maxLines) == Take(NewestFirst(files, q), maxLines)
            && (|found| > maxLines) == (|NewestFirst(files, q)| > maxLines)
    ensures !ReachesUnreadable(files, q, maxLines)
  {
    LongerFamily(files, q, k, |files|);
    assert files[..|files|] == files;
    forall j | k <= j < |files| ensures |NewestFirst(files[..j], q)| > maxLines {
      LongerFamily(files, q, k, j);
    }
  }

  /** More files only add lines after the ones already there. */
  lemma LongerFamily(files: seq<LogFile>, q: Query, k: nat, n: nat)
    requires k <= n <= |files|
    ensures NewestFirst(files[..k], q) <= NewestFirst(files[..n], q)
  {
    assert PerFile(files[..n], q) == PerFile(files[..k], q) + PerFile(files[k..n], q);
    ConcatAppend(PerFile(files[..k], q), PerFile(files[k..n], q));
  }

  lemma OneFileMore(files: seq<LogFile>, k: nat, q: Query)
    requires k < |files|
    ensures NewestFirst(files[..k + 1], q) == NewestFirst(files[..k], q) + FileNewestFirst(files[k], q)
  {
    PrefixLists(files, q, k);
    PrefixLists(files, q, k + 1);
    ConcatNext(PerFile(files, q), k);
  }

  // ---------- Which line stands where ----------

  /** A file that can be read contributes each of its selected lines once, the last one first, under its own name. */
  lemma FileEntries(file: LogFile, q: Query, i: nat)
    requires file.content.Some?
    ensures var lines, entries := Selected(file.content.value, q), FileNewestFirst(file, q);
            |entries| == |lines| && (i < |lines| ==> entries[i] == (file.name, lines[|lines| - 1 - i]))
  {
  }

  /** Line `i` of file `k`, counted from the end of the file, stands after all lines of the files before. */
  lemma EntryAt(files: seq<LogFile>, q: Query, k: nat, i: nat)
    requires k < |files| && files[k].content.Some? && i < |Selected(files[k].content.value, q)|
    ensures var lines, all := Selected(files[k].content.value, q), NewestFirst(files, q);
            var before := NewestFirst(files[..k], q);
            |before| + i < |all| && all[|before| + i] == (files[k].name, lines[|lines| - 1 - i])
  {
    OneFileMore(files, k, q);
    FileEntries(files[k], q, i);
    LongerFamily(files, q, k + 1, |files|);
    assert files[..|files|] == files;
    assert NewestFirst(files[..k + 1], q)[|NewestFirst(files[..k], q)| + i] == FileNewestFirst(files[k], q)[i];
  }

  /** How many entries stand before a file: the selected lines of the files before it, none for unreadable ones. */
  lemma EntriesBefore(files: seq<LogFile>, q: Query, k: nat)
    requires k < |files|
    ensures |NewestFirst(files[..k + 1], q)| == |NewestFirst(files[..k], q)|
              + if files[k].content.Some? then |Selected(files[k].content.value, q)| else 0
  {
    OneFileMore(files, k, q);
    if files[k].content.Some? {
      FileEntries(files[k], q, 0);
    }
  }

  // ---------- The endpoint: one page of the window ----------

  /** The slice `[offset, offset + limit)` of a list. */
  function Page<T>(all: seq<T>, offset: nat, limit: nat): seq<T> {
    all[Min(offset, |all|)..Min(offset + limit, |all|)]
  }

  lemma PageAt<T>(all: seq<T>, offset: nat, limit: nat, at: nat)
    requires offset <= at < |all| && at < offset + limit
    ensures at - offset < |Page(all, offset, limit)| && Page(all, offset, limit)[at - offset] == all[at]
  {
  }

  /** So line `i` of file `k`, counted from the end of the file, is on the page whose window reaches its place. */
  lemma ShownEntry(files: seq<LogFile>, q: Query, k: nat, i: nat, offset: nat, limit: nat)
    requires k < |files| && files[k].content.Some? && i < |Selected(files[k].content.value, q)|
    requires offset <= |NewestFirst(files[..k], q)| + i < offset + limit
    ensures var lines, page := Selected(files[k].content.value, q), Page(NewestFirst(files, q), offset, limit);
            var at := |NewestFirst(files[..k], q)| + i - offset;
            at < |page| && page[at] == (files[k].name, lines[|lines| - 1 - i])
  {
    EntryAt(files, q, k, i);
    PageAt(NewestFirst(files, q), offset, limit, |NewestFirst(files[..k], q)| + i);
  }

  method ViewLogLines(files: seq<LogFile>, q: Query, limit: nat, offset: nat, reverse: bool)
    returns (r: Result<Window>)
    requires Valid(q)
    requires 1 <= limit
    ensures r.Unavailable? <==> files == [] || ReachesUnreadable(files, q, offset + limit)
    ensures r.Ok? ==> (r.value.hasMore <==> |NewestFirst(files, q)| > offset + limit)
    ensures r.Ok? ==>
              var page := Page(NewestFirst(files, q), offset, limit);
              r.value.lines == if reverse then page else Reverse(page)
  {
    if files == [] {
      return Unavailable;
    }
    var maxMatchingLines := limit + offset;
    r := TailLogFamilyLines(files, q, maxMatchingLines);
    if r.Unavailable? {
      return;
    }
    var linesNewestFirst := r.value.lines;
    if offset > 0 {
      linesNewestFirst := if offset < |linesNewestFirst| then linesNewestFirst[offset..] else [];
    }
    linesNewestFirst := Take(linesNewestFirst, limit);
    assert linesNewestFirst == Page(NewestFirst(files, q), offset, limit);
    r := Ok(Window(if reverse then linesNewestFirst else Reverse(linesNewestFirst), r.value.hasMore));
  }

  /** What a reader collects who asks for page after page for as long as `hasMore` is reported. */
  function FollowPages<T>(all: seq<T>, offset: nat, limit: nat): seq<T>
    requires limit >= 1
    decreases |all| - offset
  {
    Page(all, offset, limit) + if |all| > offset + limit then FollowPages(all, offset + limit, limit) else []
  }

  /** Successive pages tile the list: following `hasMore` shows every line once, in order. */
  lemma {:induction false} PagesTile<T>(all: seq<T>, offset: nat, limit: nat)
    requires limit >= 1
    ensures FollowPages(all, offset, limit) == all[Min(offset, |all|)..]
    decreases |all| - offset
  {
    if |all| > offset + limit {
      PagesTile(all, offset + limit, limit);
    }
  }
}
