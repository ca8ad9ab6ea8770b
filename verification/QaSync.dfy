/** `scripts/sync_qa_test_cases.py`: the Markdown guide, the spreadsheet written from it, and the check between them. */
module QaSync {
  import opened Options
  import opened Sequences
  import opened Strings

  // ---------- The guide ----------

  /** A section number "12.minor" or "12.minor.sub". */
  datatype SectionNum = SectionNum(minor: nat, sub: Option<nat>)

  /** A line of the guide, by the pattern it matches. A data row has its number and the text of its other cells. */
  datatype Line =
    | SectionHeader(num: SectionNum, name: string)
    | TableHeader(columns: nat)
    | Separator
    | DataRow(rowNum: nat, cells: seq<string>)
    | OtherLine

  datatype TestCase = TestCase(tcId: string, title: string, testName: string, steps: string, expected: string)

  datatype Section = Section(num: SectionNum, title: string, headerLabel: string, testCases: seq<TestCase>)

  /** The script's fixed texts: the short section names, which raw names mention the end-to-end workflow, and the name,
      steps and expected result of the test case that stands for that workflow. */
  datatype Names = Names(short: map<string, string>, endToEnd: string -> bool,
                         summaryName: string, summarySteps: string, summaryExpected: string)

  function Digits(n: nat): string {
    if n < 10 then [(n + '0' as nat) as char] else Digits(n / 10) + [(n % 10 + '0' as nat) as char]
  }

  /** `_section_key`: 12.4 gives 400, 12.4.1 gives 410. */
  function SectionKey(num: SectionNum): nat {
    num.minor * 100 + (if num.sub.Some? then num.sub.value else 0) * 10
  }

  function TcId(key: nat, rowNum: nat): string {
    "TC-" + Digits(key + rowNum)
  }

  function NumText(num: SectionNum): string {
    "12." + Digits(num.minor) + if num.sub.Some? then "." + Digits(num.sub.value) else ""
  }

  function ShortLabel(num: SectionNum, name: string, names: Names): string {
    NumText(num) + " " + if name in names.short then names.short[name] else name
  }

  function StripMd(text: string): string {
    Filter(Strip(text), (c: char) => c != '`')
  }

  function Cell(cells: seq<string>, i: nat): string {
    if i < |cells| then StripMd(cells[i]) else ""
  }

  function BuildCase(num: SectionNum, title: string, columns: nat, rowNum: nat, cells: seq<string>): TestCase {
    var id := TcId(SectionKey(num), rowNum);
    if columns == 4 then TestCase(id, title, Cell(cells, 0), Cell(cells, 1), Cell(cells, 2))
    else if columns == 3 then TestCase(id, title, Cell(cells, 0), "", Cell(cells, 1))
    else TestCase(id, title, Cell(cells, 0),
                  if |cells| > 2 then StripMd(Join(cells[1..|cells| - 1], '|')) else "",
                  if |cells| > 0 then StripMd(cells[|cells| - 1]) else "")
  }

  type Builder = (nat, seq<string>) -> TestCase

  /** How the rows of one table become test cases. */
  function CaseBuilder(num: SectionNum, title: string, columns: nat): Builder {
    (rowNum: nat, cells: seq<string>) => BuildCase(num, title, columns, rowNum, cells)
  }

  /** The data rows at the start of `lines`. */
  function RowsAt(build: Builder, lines: seq<Line>): seq<TestCase> {
    if lines == [] || !lines[0].DataRow? then []
    else [build(lines[0].rowNum, lines[0].cells)] + RowsAt(build, lines[1..])
  }

  function SkipSeparator(lines: seq<Line>): seq<Line> {
    if lines != [] && lines[0].Separator? then lines[1..] else lines
  }

  /** The test cases of a section: those of the first table before the next section header. */
  function TableCases(num: SectionNum, title: string, lines: seq<Line>): seq<TestCase> {
    if lines == [] || lines[0].SectionHeader? then []
    else if lines[0].TableHeader? then RowsAt(CaseBuilder(num, title, lines[0].columns), SkipSeparator(lines[1..]))
    else TableCases(num, title, lines[1..])
  }

  function SummaryCase(num: SectionNum, title: string, names: Names): TestCase {
    TestCase(TcId(SectionKey(num), 1), title, names.summaryName, names.summarySteps, names.summaryExpected)
  }

  function BuildSection(num: SectionNum, name: string, lines: seq<Line>, names: Names): Section {
    var title := ShortLabel(num, Strip(name), names);
    var cases := TableCases(num, title, lines);
    Section(num, title, "\U{00A7}" + title,
            if cases == [] && names.endToEnd(Strip(name)) then [SummaryCase(num, title, names)] else cases)
  }

  /** The sections of a guide: one for each section header, from the lines that follow it. */
  function Parse(lines: seq<Line>, names: Names): seq<Section> {
    if lines == [] then []
    else if lines[0].SectionHeader? then
      [BuildSection(lines[0].num, lines[0].name, lines[1..], names)] + Parse(lines[1..], names)
    else Parse(lines[1..], names)
  }

  function IsHeader(): Line -> bool {
    (line: Line) => line.SectionHeader?
  }

  /** The section is the one its header line announces. */
  predicate Announces(header: Line, section: Section, names: Names) {
    && header.SectionHeader?
    && section.num == header.num
    && section.title == ShortLabel(header.num, Strip(header.name), names)
  }

  ghost predicate AnnouncesAll(headers: seq<Line>, sections: seq<Section>, names: Names) {
    && |headers| == |sections|
    && forall i :: 0 <= i < |headers| ==> Announces(headers[i], sections[i], names)
  }

  lemma AnnouncesFirst(header: Line, section: Section, headers: seq<Line>, sections: seq<Section>, names: Names)
    requires Announces(header, section, names) && AnnouncesAll(headers, sections, names)
    ensures AnnouncesAll([header] + headers, [section] + sections, names)
  {
  }

  /** Exactly one section per section-header line, in order. */
  lemma {:induction false} OneSectionPerHeader(lines: seq<Line>, names: Names)
    ensures AnnouncesAll(Filter(lines, IsHeader()), Parse(lines, names), names)
  {
    if lines != [] {
      var headers, sections := Filter(lines[1..], IsHeader()), Parse(lines[1..], names);
      OneSectionPerHeader(lines[1..], names);
      if lines[0].SectionHeader? {
        var section := BuildSection(lines[0].num, lines[0].name, lines[1..], names);
        AnnouncesFirst(lines[0], section, headers, sections, names);
      } else {
        assert [] + headers == headers;
      }
    }
  }

  // ---------- Identifiers ----------

  lemma {:induction false} DigitsInjective(m: nat, n: nat)
    ensures Digits(m) == Digits(n) ==> m == n
    decreases m + n
  {
    if m >= 10 && n >= 10 {
      DigitsInjective(m / 10, n / 10);
      if Digits(m) == Digits(n) {
        var a, b := Digits(m), Digits(n);
        assert a[..|a| - 1] == Digits(m / 10) && b[..|b| - 1] == Digits(n / 10);
        assert a[|a| - 1] == (m % 10 + '0' as nat) as char && b[|b| - 1] == (n % 10 + '0' as nat) as char;
      }
    } else {
      DigitsNotEmpty(m / 10);
      DigitsNotEmpty(n / 10);
    }
  }

  lemma DigitsNotEmpty(n: nat)
    ensures |Digits(n)| >= 1
  {
  }

  /** Two rows get the same identifier exactly when section keys and row numbers add up to the same. */
  lemma SameIdExactly(a: SectionNum, r: nat, b: SectionNum, q: nat)
    ensures TcId(SectionKey(a), r) == TcId(SectionKey(b), q) <==> SectionKey(a) + r == SectionKey(b) + q
  {
    var x, y := SectionKey(a) + r, SectionKey(b) + q;
    DigitsInjective(x, y);
    if TcId(SectionKey(a), r) == TcId(SectionKey(b), q) {
      assert TcId(SectionKey(a), r)[3..] == Digits(x) && TcId(SectionKey(b), q)[3..] == Digits(y);
    }
  }

  /** Identifiers are not unique: row 11 of 12.m.s and row 1 of 12.m.(s+1) share one, as do 12.4 and 12.4.1. */
  lemma IdsCollide(minor: nat, s: nat)
    ensures var a, b := SectionNum(minor, if s == 0 then None else Some(s)), SectionNum(minor, Some(s + 1));
            TcId(SectionKey(a), 11) == TcId(SectionKey(b), 1)
  {
  }

  /** With at most ten rows a section and single-digit subsections they are unique. */
  lemma ShortTablesHaveUniqueIds(a: SectionNum, r: nat, b: SectionNum, q: nat)
    requires 1 <= r <= 10 && 1 <= q <= 10
    requires (a.sub.Some? ==> 1 <= a.sub.value <= 9) && (b.sub.Some? ==> 1 <= b.sub.value <= 9)
    ensures TcId(SectionKey(a), r) == TcId(SectionKey(b), q) ==> a == b && r == q
  {
    SameIdExactly(a, r, b, q);
  }

  // ---------- The sheet ----------

  /** The cells of one row; `Blank` is a cell without a value. */
  datatype Value = Blank | Text(text: string) | Number(number: nat)

  datatype Tracking = Tracking(status: Value, tester: Value, date: Value, notes: Value)

  datatype Row = Row(id: Value, title: Value, name: Value, steps: Value, expected: Value, tracked: Tracking)

  const NOTHING := Tracking(Blank, Blank, Blank, Blank)

  type Sheet = seq<Row>

  const HEADINGS := Row(Text("TC ID"), Text("Section"), Text("Test Name"), Text("Steps / How"), Text("Expected Result"),
                        Tracking(Text("Status"), Text("Tester"), Text("Date"), Text("Notes")))

  function LabelRow(section: Section): Row {
    Row(Text(section.headerLabel), Text(section.title), Blank, Blank, Blank, NOTHING)
  }

  function CaseRow(tc: TestCase, tracking: map<string, Tracking>): Row {
    Row(Text(tc.tcId), Text(tc.title), Text(tc.testName), Text(tc.steps), Text(tc.expected),
        if tc.tcId in tracking then tracking[tc.tcId] else NOTHING)
  }

  function CaseRows(cases: seq<TestCase>, tracking: map<string, Tracking>): seq<Row> {
    seq(|cases|, i requires 0 <= i < |cases| => CaseRow(cases[i], tracking))
  }

  function SectionRows(sections: seq<Section>, tracking: map<string, Tracking>): seq<Row> {
    if sections == [] then []
    else [LabelRow(sections[0])] + CaseRows(sections[0].testCases, tracking) + SectionRows(sections[1..], tracking)
  }

  function CaseCount(sections: seq<Section>): nat {
    if sections == [] then 0 else |sections[0].testCases| + CaseCount(sections[1..])
  }

  function SheetOf(sections: seq<Section>, tracking: map<string, Tracking>): Sheet {
    [HEADINGS] + SectionRows(sections, tracking)
    + [Row(Blank, Blank, Blank, Blank, Blank, NOTHING),
       Row(Text("Total Test Cases:"), Number(CaseCount(sections)), Blank, Blank, Blank, NOTHING)]
  }

  // ---------- Reading the sheet back ----------

  /** A cell read back from a saved file: an empty text is no value. */
  function Saved(v: Value): Value {
    if v == Text("") then Blank else v
  }

  function SavedTracking(t: Tracking): Tracking {
    Tracking(Saved(t.status), Saved(t.tester), Saved(t.date), Saved(t.notes))
  }

  /** `str(value or "")` for the text columns. */
  function TextOf(v: Value): string {
    match v
    case Blank => ""
    case Text(text) => text
    case Number(number) => if number == 0 then "" else Digits(number)
  }

  predicate IsCaseRow(row: Row) {
    row.id.Text? && "TC-" <= row.id.text
  }

  type Content = (string, string, string, string)

  function ContentOf(row: Row): Content {
    (TextOf(Saved(row.title)), TextOf(Saved(row.name)), TextOf(Saved(row.steps)), TextOf(Saved(row.expected)))
  }

  /** What a loop over the rows collects: the identifier and some value of every case row, in order. */
  function RowPairs<V>(rows: seq<Row>, value: Row -> V): seq<(string, V)> {
    if rows == [] then []
    else (if IsCaseRow(rows[0]) then [(rows[0].id.text, value(rows[0]))] else []) + RowPairs(rows[1..], value)
  }

  function TrackingOf(row: Row): Tracking {
    SavedTracking(row.tracked)
  }

  /** `_load_xlsx_cases`; the heading row is not read. */
  function LoadCases(sheet: Sheet): map<string, Content> {
    if sheet == [] then map[] else LastWins(RowPairs(sheet[1..], ContentOf))
  }

  /** `_load_existing_tracking`. */
  function LoadTracking(sheet: Sheet): map<string, Tracking> {
    if sheet == [] then map[] else LastWins(RowPairs(sheet[1..], TrackingOf))
  }

  function GuidePairs(cases: seq<TestCase>): seq<(string, Content)> {
    seq(|cases|, i requires 0 <= i < |cases| =>
      (cases[i].tcId, (cases[i].title, cases[i].testName, cases[i].steps, cases[i].expected)))
  }

  /** The guide's side of the check. */
  function GuideCases(cases: seq<TestCase>): map<string, Content> {
    LastWins(GuidePairs(cases))
  }

  function AllCases(sections: seq<Section>): seq<TestCase> {
    if sections == [] then [] else sections[0].testCases + AllCases(sections[1..])
  }

  datatype Diffs = Diffs(added: set<string>, deleted: set<string>, modified: set<string>)

  /** `check_sync`. */
  function CheckSync(sections: seq<Section>, sheet: Sheet): Diffs {
    Compare(GuideCases(AllCases(sections)), LoadCases(sheet))
  }

  function Compare(guide: map<string, Content>, cells: map<string, Content>): Diffs {
    Diffs(guide.Keys - cells.Keys, cells.Keys - guide.Keys,
          set id | id in guide && id in cells && guide[id] != cells[id])
  }

  const IN_SYNC := Diffs({}, {}, {})

  /** The check reports nothing exactly when the two dictionaries are equal. */
  lemma NoDiffsExactly(guide: map<string, Content>, cells: map<string, Content>)
    ensures Compare(guide, cells) == IN_SYNC <==> guide == cells
  {
    var diffs := Compare(guide, cells);
    if diffs == IN_SYNC {
      assert guide.Keys == cells.Keys;
      forall id | id in guide ensures guide[id] == cells[id] {
        assert id !in diffs.modified;
      }
    }
  }

  ghost predicate HasPair<V>(pairs: seq<(string, V)>, id: string) {
    exists i :: 0 <= i < |pairs| && pairs[i].0 == id
  }

  lemma {:induction false} LastWinsKeys<V>(pairs: seq<(string, V)>, id: string)
    ensures id in LastWins(pairs) <==> HasPair(pairs, id)
  {
    if pairs != [] {
      var n := |pairs| - 1;
      LastWinsKeys(pairs[..n], id);
      if HasPair(pairs[..n], id) {
        var i :| 0 <= i < n && pairs[..n][i].0 == id;
        assert pairs[i].0 == id;
      }
      if HasPair(pairs, id) && pairs[n].0 != id {
        var i :| 0 <= i < |pairs| && pairs[i].0 == id;
        assert pairs[..n][i].0 == id;
      }
    }
  }

  predicate HasCase(cases: seq<TestCase>, id: string) {
    exists i :: 0 <= i < |cases| && cases[i].tcId == id
  }

  predicate HasRow(rows: seq<Row>, id: string) {
    exists i :: 0 <= i < |rows| && IsCaseRow(rows[i]) && rows[i].id.text == id
  }

  lemma {:induction false} RowIds(rows: seq<Row>, id: string)
    ensures HasPair(RowPairs(rows, ContentOf), id) <==> HasRow(rows, id)
  {
    if rows != [] {
      var first := if IsCaseRow(rows[0]) then [(rows[0].id.text, ContentOf(rows[0]))] else [];
      var rest, all := RowPairs(rows[1..], ContentOf), RowPairs(rows, ContentOf);
      RowIds(rows[1..], id);
      if HasRow(rows[1..], id) {
        var i :| 0 <= i < |rest| && rest[i].0 == id;
        assert all[|first| + i].0 == id;
        var k :| 0 <= k < |rows[1..]| && IsCaseRow(rows[1..][k]) && rows[1..][k].id.text == id;
        assert rows[k + 1] == rows[1..][k];
      }
      if first != [] && rows[0].id.text == id {
        assert all[0].0 == id;
      }
      if i :| 0 <= i < |all| && all[i].0 == id && i >= |first| {
        assert rest[i - |first|].0 == id;
      }
      if k :| 0 <= k < |rows| && IsCaseRow(rows[k]) && rows[k].id.text == id && k > 0 {
        assert rows[1..][k - 1] == rows[k];
      }
    }
  }

  lemma GuideIds(cases: seq<TestCase>, id: string)
    ensures id in GuideCases(cases) <==> HasCase(cases, id)
  {
    var pairs := GuidePairs(cases);
    LastWinsKeys(pairs, id);
    forall i | 0 <= i < |pairs| ensures pairs[i].0 == cases[i].tcId {
    }
    if HasCase(cases, id) {
      var i :| 0 <= i < |cases| && cases[i].tcId == id;
      assert pairs[i].0 == id;
    }
    if id in GuideCases(cases) {
      var i :| 0 <= i < |pairs| && pairs[i].0 == id;
      assert cases[i].tcId == id;
    }
  }

  lemma SheetIds(sheet: Sheet, id: string)
    requires sheet != []
    ensures id in LoadCases(sheet) <==> HasRow(sheet[1..], id)
  {
    LastWinsKeys(RowPairs(sheet[1..], ContentOf), id);
    RowIds(sheet[1..], id);
  }

  /** What the check reports: identifiers of the guide that no row has, identifiers of rows that the guide does not
      have, and the ones both have with different contents. */
  lemma DiffsExactly(sections: seq<Section>, sheet: Sheet, id: string)
    requires sheet != []
    ensures var cases, rows, diffs := AllCases(sections), sheet[1..], CheckSync(sections, sheet);
            && (id in diffs.added <==> HasCase(cases, id) && !HasRow(rows, id))
            && (id in diffs.deleted <==> HasRow(rows, id) && !HasCase(cases, id))
            && (id in diffs.modified <==>
                  && id in GuideCases(cases) && id in LoadCases(sheet)
                  && GuideCases(cases)[id] != LoadCases(sheet)[id])
  {
    GuideIds(AllCases(sections), id);
    SheetIds(sheet, id);
  }

  /** A section without a table has no test cases, unless its name mentions the end-to-end workflow: then it has one, as
      its first row. */
  lemma SectionWithoutTable(num: SectionNum, name: string, names: Names)
    ensures var section := BuildSection(num, name, [], names);
            if names.endToEnd(Strip(name))
            then && |section.testCases| == 1 && section.testCases[0].tcId == TcId(SectionKey(num), 1)
                 && section.testCases[0].testName == names.summaryName
                 && section.testCases[0].steps == names.summarySteps
                 && section.testCases[0].expected == names.summaryExpected
            else section.testCases == []
  {
  }

  // ---------- Which cell reaches which column ----------

  /** The numbers the documentation gives: 12.4 gives 400, 12.4.1 gives 410, 12.4.2 gives 420 and 12.10 gives 1000. */
  lemma DocumentedKeys()
    ensures SectionKey(SectionNum(4, None)) == 400 && SectionKey(SectionNum(4, Some(1))) == 410
    ensures SectionKey(SectionNum(4, Some(2))) == 420 && SectionKey(SectionNum(10, None)) == 1000
    ensures TcId(SectionKey(SectionNum(3, None)), 1) == "TC-301"
  {
    assert Digits(3) == "3" && Digits(30) == "30" && Digits(301) == "301";
  }

  /** Surrounding spaces and all backticks go, everything else stays. */
  lemma StripMdExactly(text: string)
    ensures '`' !in StripMd(text)
    ensures forall c :: c != '`' ==> (c in StripMd(text) <==> c in Strip(text))
    ensures '`' !in Strip(text) ==> StripMd(text) == Strip(text)
  {
    var keep := (c: char) => c != '`';
    FilterElements(Strip(text), keep);
    if '`' !in Strip(text) {
      forall i | 0 <= i < |Strip(text)| ensures keep(Strip(text)[i]) {
        assert Strip(text)[i] in Strip(text);
      }
      FilterKeepsAll(Strip(text), keep);
    }
  }

  /** A table with one data row. */
  function OneRowGuide(num: SectionNum, name: string, columns: nat, rowNum: nat, cells: seq<string>): seq<Line> {
    [SectionHeader(num, name), TableHeader(columns), Separator, DataRow(rowNum, cells)]
  }

  lemma OneRowParsed(num: SectionNum, name: string, columns: nat, rowNum: nat, cells: seq<string>, names: Names)
    ensures var title := ShortLabel(num, Strip(name), names);
            Parse(OneRowGuide(num, name, columns, rowNum, cells), names)
              == [Section(num, title, "\U{00A7}" + title, [BuildCase(num, title, columns, rowNum, cells)])]
  {
    var lines, title := OneRowGuide(num, name, columns, rowNum, cells), ShortLabel(num, Strip(name), names);
    var build, row := CaseBuilder(num, title, columns), lines[3];
    assert lines[1..] == [lines[1], lines[2], row] && lines[1..][1..] == [lines[2], row];
    assert [lines[2], row][1..] == [row] && [row][1..] == [];
    assert RowsAt(build, [row]) == [build(rowNum, cells)] + RowsAt(build, []) == [build(rowNum, cells)];
    assert TableCases(num, title, lines[1..]) == [BuildCase(num, title, columns, rowNum, cells)];
    NoSections([lines[1], lines[2], row], names);
  }

  lemma {:induction false} NoSections(lines: seq<Line>, names: Names)
    requires forall i :: 0 <= i < |lines| ==> !lines[i].SectionHeader?
    ensures Parse(lines, names) == []
  {
    if lines != [] {
      NoSections(lines[1..], names);
    }
  }

  /** The row's columns are its identifier, section, name, steps and expected result; a table of four columns has all
      three texts, one of three has no steps, and any other has its steps in the middle and the result last. */
  lemma CellsReachColumns(num: SectionNum, title: string, columns: nat, rowNum: nat, cells: seq<string>,
                          tracking: map<string, Tracking>)
    ensures var row := CaseRow(BuildCase(num, title, columns, rowNum, cells), tracking);
            && row.id == Text("TC-" + Digits(SectionKey(num) + rowNum)) && row.title == Text(title)
            && (|cells| >= 1 ==> row.name == Text(StripMd(cells[0])))
            && (columns == 4 && |cells| >= 3 ==>
                  row.steps == Text(StripMd(cells[1])) && row.expected == Text(StripMd(cells[2])))
            && (columns == 3 && |cells| >= 2 ==> row.steps == Text("") && row.expected == Text(StripMd(cells[1])))
            && (columns != 3 && columns != 4 && |cells| >= 1 ==> row.expected == Text(StripMd(cells[|cells| - 1])))
            && (columns != 3 && columns != 4 && |cells| == 3 ==> row.steps == Text(StripMd(cells[1])))
  {
    if |cells| == 3 {
      assert cells[1..2] == [cells[1]];
      assert Join(cells[1..2], '|') == cells[1];
    }
  }

  lemma SheetOfOneCase(section: Section, tc: TestCase, tracking: map<string, Tracking>)
    requires section.testCases == [tc]
    ensures SheetOf([section], tracking)
         == [HEADINGS, LabelRow(section), CaseRow(tc, tracking), Row(Blank, Blank, Blank, Blank, Blank, NOTHING),
             Row(Text("Total Test Cases:"), Number(1), Blank, Blank, Blank, NOTHING)]
  {
    assert [section][1..] == [];
    assert CaseRows(section.testCases, tracking) == [CaseRow(tc, tracking)];
    assert SectionRows([section], tracking)
        == [LabelRow(section)] + CaseRows(section.testCases, tracking) + SectionRows([], tracking)
        == [LabelRow(section), CaseRow(tc, tracking)];
    assert CaseCount([section]) == 1 + CaseCount([]) == 1;
  }

  /** The whole way of a row from the guide to the sheet, with the section's label row before it and the total below. */
  lemma RowReachesSheet(num: SectionNum, name: string, columns: nat, rowNum: nat, cells: seq<string>, names: Names,
                        tracking: map<string, Tracking>)
    ensures var title := ShortLabel(num, Strip(name), names);
            SheetOf(Parse(OneRowGuide(num, name, columns, rowNum, cells), names), tracking)
              == [HEADINGS, Row(Text("\U{00A7}" + title), Text(title), Blank, Blank, Blank, NOTHING),
                  CaseRow(BuildCase(num, title, columns, rowNum, cells), tracking),
                  Row(Blank, Blank, Blank, Blank, Blank, NOTHING),
                  Row(Text("Total Test Cases:"), Number(1), Blank, Blank, Blank, NOTHING)]
  {
    var title := ShortLabel(num, Strip(name), names);
    var tc := BuildCase(num, title, columns, rowNum, cells);
    OneRowParsed(num, name, columns, rowNum, cells, names);
    SheetOfOneCase(Section(num, title, "\U{00A7}" + title, [tc]), tc, tracking);
  }

  /** A label is the section's number and its short name, or its own name when it has no short one. */
  lemma LabelText(names: Names, name: string)
    ensures var short := if name in names.short then names.short[name] else name;
            && ShortLabel(SectionNum(3, None), name, names) == "12.3 " + short
            && ShortLabel(SectionNum(4, Some(1)), name, names) == "12.4.1 " + short
  {
    var short := if name in names.short then names.short[name] else name;
    assert Digits(3) == "3" && Digits(4) == "4" && Digits(1) == "1";
    assert NumText(SectionNum(3, None)) == "12.3" && NumText(SectionNum(4, Some(1))) == "12.4.1";
    assert "12.3" + " " + short == "12.3 " + short && "12.4.1" + " " + short == "12.4.1 " + short;
  }

  // ---------- Write, then check and reload ----------

  /** Sections as the parser makes them: case identifiers start with "TC-", section rows do not. */
  predicate WellLabelled(sections: seq<Section>) {
    forall i :: 0 <= i < |sections| ==>
      && !("TC-" <= sections[i].headerLabel)
      && forall j :: 0 <= j < |sections[i].testCases| ==> "TC-" <= sections[i].testCases[j].tcId
  }

  lemma {:induction false} RowsHaveIds(build: Builder, lines: seq<Line>)
    requires forall rowNum, cells :: "TC-" <= build(rowNum, cells).tcId
    ensures forall i :: 0 <= i < |RowsAt(build, lines)| ==>
              "TC-" <= RowsAt(build, lines)[i].tcId
  {
    if lines != [] && lines[0].DataRow? {
      RowsHaveIds(build, lines[1..]);
    }
  }

  lemma {:induction false} TableHasIds(num: SectionNum, title: string, lines: seq<Line>)
    ensures forall i :: 0 <= i < |TableCases(num, title, lines)| ==> "TC-" <= TableCases(num, title, lines)[i].tcId
  {
    if lines == [] || lines[0].SectionHeader? {
    } else if lines[0].TableHeader? {
      RowsHaveIds(CaseBuilder(num, title, lines[0].columns), SkipSeparator(lines[1..]));
    } else {
      TableHasIds(num, title, lines[1..]);
    }
  }

  lemma SectionIsWellLabelled(num: SectionNum, name: string, lines: seq<Line>, names: Names)
    ensures WellLabelled([BuildSection(num, name, lines, names)])
  {
    var title := ShortLabel(num, Strip(name), names);
    TableHasIds(num, title, lines);
    LabelIsNoId(title);
  }

  lemma LabelIsNoId(title: string)
    ensures !("TC-" <= "\U{00A7}" + title)
  {
    assert ("\U{00A7}" + title)[0] != "TC-"[0];
  }

  lemma {:induction false} ParsedSectionsAreWellLabelled(lines: seq<Line>, names: Names)
    ensures WellLabelled(Parse(lines, names))
  {
    if lines != [] {
      ParsedSectionsAreWellLabelled(lines[1..], names);
      if lines[0].SectionHeader? {
        SectionIsWellLabelled(lines[0].num, lines[0].name, lines[1..], names);
        WellLabelledFirst(BuildSection(lines[0].num, lines[0].name, lines[1..], names), Parse(lines[1..], names));
      }
    }
  }

  lemma WellLabelledFirst(section: Section, rest: seq<Section>)
    requires WellLabelled([section]) && WellLabelled(rest)
    ensures WellLabelled([section] + rest)
  {
    assert [section][0] == section;
  }

  lemma {:induction false} RowPairsAppend<V>(a: seq<Row>, b: seq<Row>, value: Row -> V)
    ensures RowPairs(a + b, value) == RowPairs(a, value) + RowPairs(b, value)
  {
    if a == [] {
      assert a + b == b;
    } else {
      RowPairsAppend(a[1..], b, value);
      assert (a + b)[1..] == a[1..] + b;
      Associate(if IsCaseRow(a[0]) then [(a[0].id.text, value(a[0]))] else [],
                RowPairs(a[1..], value), RowPairs(b, value));
    }
  }

  function CasePairs<V>(cases: seq<TestCase>, tracking: map<string, Tracking>, value: Row -> V): seq<(string, V)> {
    seq(|cases|, i requires 0 <= i < |cases| => (cases[i].tcId, value(CaseRow(cases[i], tracking))))
  }

  lemma {:induction false} CaseRowsPairs<V>(cases: seq<TestCase>, tracking: map<string, Tracking>, value: Row -> V)
    requires forall j :: 0 <= j < |cases| ==> "TC-" <= cases[j].tcId
    ensures RowPairs(CaseRows(cases, tracking), value) == CasePairs(cases, tracking, value)
  {
    if cases != [] {
      CaseRowsPairs(cases[1..], tracking, value);
      assert CaseRows(cases, tracking)[1..] == CaseRows(cases[1..], tracking);
      assert CasePairs(cases, tracking, value)
          == [(cases[0].tcId, value(CaseRow(cases[0], tracking)))] + CasePairs(cases[1..], tracking, value);
    }
  }

  lemma CasePairsAppend<V>(a: seq<TestCase>, b: seq<TestCase>, tracking: map<string, Tracking>, value: Row -> V)
    ensures CasePairs(a + b, tracking, value) == CasePairs(a, tracking, value) + CasePairs(b, tracking, value)
  {
  }

  lemma OtherRow<V>(row: Row, value: Row -> V)
    requires !IsCaseRow(row)
    ensures RowPairs([row], value) == []
  {
    assert [row][1..] == [];
  }

  lemma SectionPairs<V>(section: Section, rest: seq<Row>, tracking: map<string, Tracking>, value: Row -> V)
    requires WellLabelled([section])
    ensures RowPairs([LabelRow(section)] + CaseRows(section.testCases, tracking) + rest, value)
         == CasePairs(section.testCases, tracking, value) + RowPairs(rest, value)
  {
    var head, cases := LabelRow(section), section.testCases;
    assert [section][0] == section;
    CaseRowsPairs(cases, tracking, value);
    OtherRow(head, value);
    RowPairsAppend([head] + CaseRows(cases, tracking), rest, value);
    RowPairsAppend([head], CaseRows(cases, tracking), value);
  }

  lemma {:induction false} SectionRowsPairs<V>(sections: seq<Section>, tracking: map<string, Tracking>, value: Row -> V)
    requires WellLabelled(sections)
    ensures RowPairs(SectionRows(sections, tracking), value) == CasePairs(AllCases(sections), tracking, value)
  {
    if sections != [] {
      SectionRowsPairs(sections[1..], tracking, value);
      SectionPairs(sections[0], SectionRows(sections[1..], tracking), tracking, value);
      CasePairsAppend(sections[0].testCases, AllCases(sections[1..]), tracking, value);
    }
  }

  /** Whatever a loop collects from a written sheet, it collects from its test cases. */
  lemma SheetPairs<V>(sections: seq<Section>, tracking: map<string, Tracking>, value: Row -> V)
    requires WellLabelled(sections)
    ensures RowPairs(SheetOf(sections, tracking)[1..], value) == CasePairs(AllCases(sections), tracking, value)
  {
    var rows, blank := SectionRows(sections, tracking), Row(Blank, Blank, Blank, Blank, Blank, NOTHING);
    var total := Row(Text("Total Test Cases:"), Number(CaseCount(sections)), Blank, Blank, Blank, NOTHING);
    assert SheetOf(sections, tracking)[1..] == rows + ([blank] + [total]);
    assert !IsCaseRow(total) by { assert "TC-"[1] != "Total Test Cases:"[1]; }
    OtherRow(blank, value);
    OtherRow(total, value);
    RowPairsAppend(rows, [blank] + [total], value);
    RowPairsAppend([blank], [total], value);
    SectionRowsPairs(sections, tracking, value);
  }

  /** What the previous sheet tracked for an identifier, nothing if it did not have it. */
  function Tracked(tracking: map<string, Tracking>, id: string): Tracking {
    if id in tracking then SavedTracking(tracking[id]) else NOTHING
  }

  function Ids(cases: seq<TestCase>): set<string> {
    set tc | tc in cases :: tc.tcId
  }

  lemma IdsNext(cases: seq<TestCase>, tc: TestCase)
    ensures Ids(cases + [tc]) == Ids(cases) + {tc.tcId}
  {
    assert forall x :: x in cases + [tc] <==> x in cases || x == tc;
    assert tc in cases + [tc];
  }

  lemma {:induction false} LastWinsOfFunction<V>(cases: seq<TestCase>, pairs: seq<(string, V)>, f: string -> V)
    requires |pairs| == |cases|
    requires forall i :: 0 <= i < |cases| ==> pairs[i] == (cases[i].tcId, f(cases[i].tcId))
    ensures LastWins(pairs) == map id | id in Ids(cases) :: f(id)
  {
    if cases == [] {
      assert Ids(cases) == {};
    } else {
      var n := |cases| - 1;
      LastWinsOfFunction(cases[..n], pairs[..n], f);
      assert cases == cases[..n] + [cases[n]];
      IdsNext(cases[..n], cases[n]);
    }
  }

  lemma TextSurvives(text: string)
    ensures TextOf(Saved(Text(text))) == text
  {
  }

  lemma ContentOfCase(tc: TestCase, tracking: map<string, Tracking>)
    ensures ContentOf(CaseRow(tc, tracking)) == (tc.title, tc.testName, tc.steps, tc.expected)
  {
    TextSurvives(tc.title);
    TextSurvives(tc.testName);
    TextSurvives(tc.steps);
    TextSurvives(tc.expected);
  }

  lemma ContentPairs(cases: seq<TestCase>, tracking: map<string, Tracking>)
    ensures CasePairs(cases, tracking, ContentOf) == GuidePairs(cases)
  {
    forall i | 0 <= i < |cases|
      ensures CasePairs(cases, tracking, ContentOf)[i] == GuidePairs(cases)[i]
    {
      ContentOfCase(cases[i], tracking);
    }
  }

  lemma TrackingOfCase(tc: TestCase, tracking: map<string, Tracking>)
    ensures TrackingOf(CaseRow(tc, tracking)) == Tracked(tracking, tc.tcId)
  {
  }

  lemma TrackingPairs(cases: seq<TestCase>, tracking: map<string, Tracking>)
    ensures LastWins(CasePairs(cases, tracking, TrackingOf)) == map id | id in Ids(cases) :: Tracked(tracking, id)
  {
    var f := id => Tracked(tracking, id);
    forall i | 0 <= i < |cases|
      ensures CasePairs(cases, tracking, TrackingOf)[i] == (cases[i].tcId, f(cases[i].tcId))
    {
      TrackingOfCase(cases[i], tracking);
    }
    LastWinsOfFunction(cases, CasePairs(cases, tracking, TrackingOf), f);
  }

  /** After writing the sheet, whatever was tracked before and even when identifiers collide, the check finds no
      difference, and reloading the tracking columns gives every identifier of the guide what it had. */
  lemma WriteThenCheck(lines: seq<Line>, names: Names, tracking: map<string, Tracking>)
    ensures var sections := Parse(lines, names);
            var sheet := SheetOf(sections, tracking);
            && CheckSync(sections, sheet) == IN_SYNC
            && LoadTracking(sheet) == map id | id in Ids(AllCases(sections)) :: Tracked(tracking, id)
  {
    var sections := Parse(lines, names);
    var cases := AllCases(sections);
    ParsedSectionsAreWellLabelled(lines, names);
    SheetPairs(sections, tracking, ContentOf);
    SheetPairs(sections, tracking, TrackingOf);
    ContentPairs(cases, tracking);
    TrackingPairs(cases, tracking);
    NoDiffsExactly(GuideCases(cases), LoadCases(SheetOf(sections, tracking)));
  }

  /** Field by field: status, tester, date and notes come back as they were, an empty text as no value. */
  lemma FieldsReload(lines: seq<Line>, names: Names, tracking: map<string, Tracking>, id: string)
    requires id in Ids(AllCases(Parse(lines, names))) && id in tracking
    ensures var reloaded := LoadTracking(SheetOf(Parse(lines, names), tracking));
            && id in reloaded
            && reloaded[id].status == Saved(tracking[id].status) && reloaded[id].tester == Saved(tracking[id].tester)
            && reloaded[id].date == Saved(tracking[id].date) && reloaded[id].notes == Saved(tracking[id].notes)
  {
    WriteThenCheck(lines, names, tracking);
  }

  /** Syncing again from the same guide writes the same sheet: nothing tracked is lost by repeating it. */
  lemma SyncTwice(lines: seq<Line>, names: Names, tracking: map<string, Tracking>)
    requires forall id :: id in tracking ==> SavedTracking(tracking[id]) == tracking[id]
    ensures var sections := Parse(lines, names);
            SheetOf(sections, LoadTracking(SheetOf(sections, tracking))) == SheetOf(sections, tracking)
  {
    var sections := Parse(lines, names);
    WriteThenCheck(lines, names, tracking);
    SameRows(sections, LoadTracking(SheetOf(sections, tracking)), tracking);
  }

  lemma {:induction false} SameRows(sections: seq<Section>, a: map<string, Tracking>, b: map<string, Tracking>)
    requires forall tc :: tc in AllCases(sections) ==> CaseRow(tc, a) == CaseRow(tc, b)
    ensures SectionRows(sections, a) == SectionRows(sections, b)
  {
    if sections != [] {
      var cases := sections[0].testCases;
      assert AllCases(sections) == cases + AllCases(sections[1..]);
      SameRows(sections[1..], a, b);
      assert forall j :: 0 <= j < |cases| ==> cases[j] in AllCases(sections);
      assert CaseRows(cases, a) == CaseRows(cases, b);
    }
  }

  // ---------- The code ----------

  lemma ParseNext(lines: seq<Line>, i: nat, names: Names)
    requires i < |lines|
    ensures Parse(lines[i..], names)
         == if lines[i].SectionHeader?
            then [BuildSection(lines[i].num, lines[i].name, lines[i + 1..], names)] + Parse(lines[i + 1..], names)
            else Parse(lines[i + 1..], names)
  {
    assert lines[i..][1..] == lines[i + 1..];
  }

  predicate NoHeaders(lines: seq<Line>, from: nat, to: nat)
    requires to <= |lines|
  {
    forall k :: from <= k < to ==> !lines[k].SectionHeader?
  }

  lemma {:induction false} NoHeaderSkipped(lines: seq<Line>, from: nat, to: nat, names: Names)
    requires from <= to <= |lines| && NoHeaders(lines, from, to)
    ensures Parse(lines[from..], names) == Parse(lines[to..], names)
    decreases |lines| - from
  {
    if from < to {
      NoHeaderSkipped(lines, from + 1, to, names);
      ParseNext(lines, from, names);
    }
  }

  method ParseMarkdown(lines: seq<Line>, names: Names) returns (sections: seq<Section>)
    ensures sections == Parse(lines, names)
  {
    sections := [];
    var i := 0;
    assert lines[i..] == lines;
    while i < |lines|
      invariant 0 <= i <= |lines|
      invariant Parse(lines, names) == sections + Parse(lines[i..], names)
    {
      ParseNext(lines, i, names);
      if !lines[i].SectionHeader? {
        i := i + 1;
        continue;
      }
      var section, next := ParseSection(lines, i, names);
      NoHeaderSkipped(lines, i + 1, next, names);
      Associate(sections, [section], Parse(lines[next..], names));
      sections := sections + [section];
      i := next;
    }
  }

  /** The body of the loop once a section header is found. */
  method ParseSection(lines: seq<Line>, header: nat, names: Names) returns (section: Section, i: nat)
    requires header < |lines| && lines[header].SectionHeader?
    ensures section == BuildSection(lines[header].num, lines[header].name, lines[header + 1..], names)
    ensures header < i <= |lines| && NoHeaders(lines, header + 1, i)
  {
    var num, name := lines[header].num, Strip(lines[header].name);
    var title := ShortLabel(num, name, names);
    var testCases;
    testCases, i := ParseTable(lines, header + 1, num, title);
    if testCases == [] {
      if names.endToEnd(name) {
        testCases := [SummaryCase(num, title, names)];
      }
    }
    section := Section(num, title, "\U{00A7}" + title, testCases);
  }

  lemma TableNext(lines: seq<Line>, i: nat, num: SectionNum, title: string)
    requires i < |lines| && !lines[i].SectionHeader?
    ensures TableCases(num, title, lines[i..])
         == if lines[i].TableHeader?
            then RowsAt(CaseBuilder(num, title, lines[i].columns), SkipSeparator(lines[i + 1..]))
            else TableCases(num, title, lines[i + 1..])
  {
    assert lines[i..][1..] == lines[i + 1..];
  }

  lemma SeparatorNext(lines: seq<Line>, i: nat)
    requires i <= |lines|
    ensures SkipSeparator(lines[i..]) == if i < |lines| && lines[i].Separator? then lines[i + 1..] else lines[i..]
  {
    assert i < |lines| ==> lines[i..][1..] == lines[i + 1..];
  }

  lemma JoinNoHeaders(lines: seq<Line>, from: nat, at: nat, to: nat)
    requires from <= at < to <= |lines| && !lines[at].SectionHeader?
    requires NoHeaders(lines, from, at) && NoHeaders(lines, at + 1, to)
    ensures NoHeaders(lines, from, to)
  {
  }

  /** The separator line, if there is one, and the data rows. */
  method ParseTableBody(lines: seq<Line>, start: nat, build: Builder) returns (testCases: seq<TestCase>, i: nat)
    requires start <= |lines|
    ensures testCases == RowsAt(build, SkipSeparator(lines[start..]))
    ensures start <= i <= |lines| && NoHeaders(lines, start, i)
  {
    SeparatorNext(lines, start);
    i := start;
    if i < |lines| && lines[i].Separator? {
      i := i + 1;
    }
    testCases, i := ParseRows(lines, i, build);
  }

  /** The part of the loop that looks for a section's table and reads its rows. */
  method ParseTable(lines: seq<Line>, start: nat, num: SectionNum, title: string)
    returns (testCases: seq<TestCase>, i: nat)
    requires start <= |lines|
    ensures testCases == TableCases(num, title, lines[start..])
    ensures start <= i <= |lines| && NoHeaders(lines, start, i)
  {
    testCases, i := [], start;
    while i < |lines| && !lines[i].SectionHeader?
      invariant start <= i <= |lines| && testCases == []
      invariant NoHeaders(lines, start, i)
      invariant TableCases(num, title, lines[start..]) == TableCases(num, title, lines[i..])
    {
      TableNext(lines, i, num, title);
      if lines[i].TableHeader? {
        ghost var header := i;
        testCases, i := ParseTableBody(lines, i + 1, CaseBuilder(num, title, lines[i].columns));
        JoinNoHeaders(lines, start, header, i);
        return;
      }
      i := i + 1;
    }
  }

  lemma RowNext(lines: seq<Line>, i: nat, build: Builder,
                before: seq<TestCase>, tc: TestCase)
    requires i < |lines| && lines[i].DataRow? && tc == build(lines[i].rowNum, lines[i].cells)
    ensures before + RowsAt(build, lines[i..]) == before + [tc] + RowsAt(build, lines[i + 1..])
    ensures !lines[i].SectionHeader?
  {
    assert lines[i..][1..] == lines[i + 1..];
    Associate(before, [tc], RowsAt(build, lines[i + 1..]));
  }

  lemma RowsEnd(lines: seq<Line>, i: nat, build: Builder, before: seq<TestCase>)
    requires i <= |lines| && (i < |lines| ==> !lines[i].DataRow?)
    ensures before + RowsAt(build, lines[i..]) == before
  {
  }

  method ParseRows(lines: seq<Line>, start: nat, build: Builder)
    returns (testCases: seq<TestCase>, i: nat)
    requires start <= |lines|
    ensures testCases == RowsAt(build, lines[start..])
    ensures start <= i <= |lines| && NoHeaders(lines, start, i)
  {
    testCases, i := [], start;
    ghost var all := RowsAt(build, lines[start..]);
    assert [] + all == all;
    while i < |lines|
      invariant start <= i <= |lines|
      invariant NoHeaders(lines, start, i)
      invariant testCases + RowsAt(build, lines[i..]) == all
    {
      if !lines[i].DataRow? {
        break;
      }
      var tc := build(lines[i].rowNum, lines[i].cells);
      RowNext(lines, i, build, testCases, tc);
      testCases := testCases + [tc];
      i := i + 1;
    }
    RowsEnd(lines, i, build, testCases);
  }

  lemma SectionNext(sections: seq<Section>, k: nat, tracking: map<string, Tracking>)
    requires k < |sections|
    ensures SectionRows(sections[k..], tracking)
         == [LabelRow(sections[k])] + CaseRows(sections[k].testCases, tracking)
            + SectionRows(sections[k + 1..], tracking)
    ensures CaseCount(sections[k..]) == |sections[k].testCases| + CaseCount(sections[k + 1..])
  {
    assert sections[k..][1..] == sections[k + 1..];
  }

  /** `_write_xlsx`: rows are filled from the top, and the number of test cases is returned. */
  method WriteXlsx(sections: seq<Section>, tracking: map<string, Tracking>) returns (sheet: Sheet, total: nat)
    ensures sheet == SheetOf(sections, tracking)
    ensures total == CaseCount(sections)
  {
    sheet, total := [HEADINGS], 0;
    var k := 0;
    assert sections[k..] == sections;
    while k < |sections|
      invariant 0 <= k <= |sections|
      invariant sheet + SectionRows(sections[k..], tracking) == [HEADINGS] + SectionRows(sections, tracking)
      invariant total + CaseCount(sections[k..]) == CaseCount(sections)
    {
      SectionNext(sections, k, tracking);
      var rows, written := WriteSection(sections[k], tracking);
      Associate(sheet, rows, SectionRows(sections[k + 1..], tracking));
      sheet := sheet + rows;
      total := total + written;
      k := k + 1;
    }
    assert sheet == [HEADINGS] + SectionRows(sections, tracking);
    sheet := sheet + [Row(Blank, Blank, Blank, Blank, Blank, NOTHING),
                      Row(Text("Total Test Cases:"), Number(total), Blank, Blank, Blank, NOTHING)];
  }

  /** The rows of one section: its label, then its test cases. */
  method WriteSection(section: Section, tracking: map<string, Tracking>) returns (rows: seq<Row>, written: nat)
    ensures rows == [LabelRow(section)] + CaseRows(section.testCases, tracking)
    ensures written == |section.testCases|
  {
    rows, written := [LabelRow(section)], 0;
    for j := 0 to |section.testCases|
      invariant rows == [LabelRow(section)] + CaseRows(section.testCases[..j], tracking)
      invariant written == j
    {
      CaseRowsNext(section.testCases, j, tracking);
      Associate([LabelRow(section)], CaseRows(section.testCases[..j], tracking),
                [CaseRow(section.testCases[j], tracking)]);
      rows := rows + [CaseRow(section.testCases[j], tracking)];
      written := written + 1;
    }
    assert section.testCases[..|section.testCases|] == section.testCases;
  }

  lemma CaseRowsNext(cases: seq<TestCase>, j: nat, tracking: map<string, Tracking>)
    requires j < |cases|
    ensures CaseRows(cases[..j + 1], tracking) == CaseRows(cases[..j], tracking) + [CaseRow(cases[j], tracking)]
  {
  }
}
