/** Unmounting a device in `app/infrastructure/drive_eject.py`: which mount points belong to it, and the
    deepest-first loop over them. */
module DriveEject {
  import opened Sequences

  type Path = string

  /** One line of the mount table. Lines stand in the order in which the mounts were made. */
  datatype Mount = Mount(point: Path, source: string)

  // ---------- Which mounts belong to a device ----------

  predicate IsDigit(c: char) {
    '0' <= c <= '9'
  }

  predicate AllDigits(s: string) {
    s != "" && forall i :: 0 <= i < |s| ==> IsDigit(s[i])
  }

  /** `^(p?\d+)$`. */
  predicate IsPartitionSuffix(s: string) {
    AllDigits(s) || (s != "" && s[0] == 'p' && AllDigits(s[1..]))
  }

  predicate IsPartitionOf(name: string, base: string) {
    base < name && IsPartitionSuffix(name[|base|..])
  }

  /** Whether a mount's source is the device, one of its partitions, or a mapper device over one of these.
      `realPath` resolves symbolic links and `parents` lists the slaves of a mapper device. */
  predicate BelongsTo(source: string, base: string, realPath: string -> string, parents: string -> seq<string>) {
    var device, prefix := realPath(source), realPath("/dev/" + base);
    if device == prefix then true
    else if prefix < device then IsPartitionOf(device, prefix)
    else if "/dev/mapper/" <= device || "/dev/dm-" <= device then
      exists i :: 0 <= i < |parents(device)| && (parents(device)[i] == base || IsPartitionOf(parents(device)[i], base))
    else false
  }

  // ---------- The names that belong to a device ----------

  /** At least one character, each from 0 to 9. */
  predicate IsNumber(s: string) {
    s != "" && forall i :: 0 <= i < |s| ==> '0' <= s[i] <= '9'
  }

  /** The device itself, or its name followed by a number or by a p and a number. */
  ghost predicate NamedFor(name: string, base: string) {
    name == base || exists n :: IsNumber(n) && (name == base + n || name == base + ("p" + n))
  }

  lemma NumberSuffix(name: string, base: string, n: string)
    requires IsNumber(n) && (name == base + n || name == base + ("p" + n))
    ensures IsPartitionOf(name, base)
  {
    var suffix := if name == base + n then n else "p" + n;
    assert name == base + suffix && name[|base|..] == suffix;
    assert suffix == "p" + n ==> suffix[1..] == n;
  }

  lemma NamedForExactly(name: string, base: string)
    ensures (name == base || IsPartitionOf(name, base)) <==> NamedFor(name, base)
  {
    if IsPartitionOf(name, base) {
      var suffix := name[|base|..];
      var n := if suffix[0] == 'p' then suffix[1..] else suffix;
      assert name == base + suffix && (suffix == n || suffix == "p" + n);
      assert IsNumber(n);
    }
    forall n | IsNumber(n) && (name == base + n || name == base + ("p" + n)) ensures IsPartitionOf(name, base) {
      NumberSuffix(name, base, n);
    }
  }

  /** Among the names that begin with the device's own, the device and its partitions belong to it, and no other. */
  lemma OwnNameExactly(source: string, base: string, realPath: string -> string, parents: string -> seq<string>)
    requires realPath("/dev/" + base) <= realPath(source)
    ensures BelongsTo(source, base, realPath, parents) <==> NamedFor(realPath(source), realPath("/dev/" + base))
  {
    NamedForExactly(realPath(source), realPath("/dev/" + base));
  }

  /** A source whose name does not begin with the device's own belongs to it exactly when it is a mapper device one of
      whose parents is the device or a partition of it. */
  lemma OtherNameExactly(source: string, base: string, realPath: string -> string, parents: string -> seq<string>)
    requires !(realPath("/dev/" + base) <= realPath(source))
    ensures BelongsTo(source, base, realPath, parents) <==>
              && ("/dev/mapper/" <= realPath(source) || "/dev/dm-" <= realPath(source))
              && exists parent :: parent in parents(realPath(source)) && NamedFor(parent, base)
  {
    var all := parents(realPath(source));
    forall parent ensures (parent == base || IsPartitionOf(parent, base)) <==> NamedFor(parent, base) {
      NamedForExactly(parent, base);
    }
    if i :| 0 <= i < |all| && (all[i] == base || IsPartitionOf(all[i], base)) {
      assert all[i] in all;
    }
  }

  /** "/dev/sdb1" and "/dev/sdbp2" belong to sdb; "/dev/sdbc" and "/dev/sda1" do not. */
  lemma NamesOfSdb(parents: string -> seq<string>)
    ensures var same := (s: string) => s;
            && BelongsTo("/dev/sdb", "sdb", same, parents)
            && BelongsTo("/dev/sdb1", "sdb", same, parents) && BelongsTo("/dev/sdbp2", "sdb", same, parents)
            && !BelongsTo("/dev/sdbc", "sdb", same, parents) && !BelongsTo("/dev/sda1", "sdb", same, parents)
  {
    var same := (s: string) => s;
    assert "/dev/" + "sdb" == "/dev/sdb";
    assert IsNumber("1") && "/dev/sdb1" == "/dev/sdb" + "1";
    OwnNameExactly("/dev/sdb1", "sdb", same, parents);
    assert IsNumber("2") && "/dev/sdbp2" == "/dev/sdb" + ("p" + "2");
    OwnNameExactly("/dev/sdbp2", "sdb", same, parents);
    assert "/dev/sdbc"[8..] == "c" && !IsDigit("c"[0]) && !IsPartitionSuffix("c");
    assert "/dev/sda1"[7] != "/dev/sdb"[7];
    assert "/dev/sda1"[5] != "/dev/mapper/"[5] && "/dev/sda1"[5] != "/dev/dm-"[5];
  }

  /** The lines of the table whose mounts are still there, by position. */
  type Left = set<nat>

  function Positions(n: nat): (r: set<nat>)
    ensures forall i :: i in r <==> 0 <= i < n
  {
    if n == 0 then {} else Positions(n - 1) + {n - 1}
  }

  function All(table: seq<Mount>): Left {
    Positions(|table|)
  }

  function TopBefore(table: seq<Mount>, left: Left, p: Path, n: nat): (r: int)
    requires n <= |table|
    ensures -1 <= r < n
    ensures r >= 0 ==> r in left && table[r].point == p
    ensures forall j :: r < j < n && j in left ==> table[j].point != p
  {
    if n == 0 then -1
    else if n - 1 in left && table[n - 1].point == p then n - 1
    else TopBefore(table, left, p, n - 1)
  }

  /** The topmost mount at a point, -1 if there is none. */
  function TopAt(table: seq<Mount>, left: Left, p: Path): (r: int)
    ensures -1 <= r < |table|
    ensures r >= 0 ==> r in left && table[r].point == p
    ensures forall j :: r < j < |table| && j in left ==> table[j].point != p
  {
    TopBefore(table, left, p, |table|)
  }

  /** The lines whose mount is topmost at its point and belongs to the device: the ones the dictionary shows. */
  function DeviceLines(table: seq<Mount>, owned: string -> bool): Left {
    set i | 0 <= i < |table| && TopAt(table, All(table), table[i].point) == i && owned(table[i].source)
  }

  function DevicePoints(table: seq<Mount>, owned: string -> bool): set<Path> {
    set i | i in DeviceLines(table, owned) :: table[i].point
  }

  // ---------- Mount points below each other ----------

  /** `q` lies strictly below `p`. */
  predicate Below(q: Path, p: Path) {
    q != p && (if p == "/" then "/" else p + "/") <= q
  }

  /** A path lies below another one exactly when that one and a slash come first; a mere prefix is not enough. */
  lemma BelowExactly(p: Path, rest: string)
    requires p != "/" && rest != ""
    ensures Below(p + rest, p) <==> rest[0] == '/'
    ensures rest != "/" && rest[0] == '/' ==> Below(rest, "/")
  {
    var q := p + rest;
    assert q != p by { assert |q| > |p|; }
    assert q[..|p|] == p && q[|p|] == rest[0];
    if rest[0] == '/' {
      assert q[..|p| + 1] == p + "/";
    } else {
      assert (p + "/")[|p|] != q[|p|];
    }
  }

  lemma BelowIsLonger(q: Path, p: Path)
    requires Below(q, p)
    ensures |q| > |p|
  {
    if p != "/" {
      assert |p + "/"| <= |q|;
    }
  }

  lemma BelowIsTransitive(q: Path, m: Path, p: Path)
    requires Below(q, m) && Below(m, p)
    ensures Below(q, p)
  {
    BelowIsLonger(q, m);
    BelowIsLonger(m, p);
  }

  // ---------- What the loop can achieve ----------

  /** A later mount at a point above hides this one: its path leads into the later mount. */
  predicate Hidden(table: seq<Mount>, left: Left, i: nat)
    requires i < |table|
  {
    exists j :: i < j < |table| && j in left && Below(table[i].point, table[j].point)
  }

  /** A mount made later at a point below keeps this one busy. */
  predicate Busy(table: seq<Mount>, left: Left, i: nat)
    requires i < |table|
  {
    exists j :: i < j < |table| && j in left && Below(table[j].point, table[i].point)
  }

  /** Trying its point does not take this mount off: it is not one of the lines to take off, or unmounting there raises,
      or its path leads elsewhere. */
  predicate Stays(table: seq<Mount>, lines: Left, fails: Path -> bool, j: nat)
    requires j < |table|
  {
    j !in lines || fails(table[j].point) || Hidden(table, All(table), j)
  }

  /** Unmounting at its point is refused as long as this line is not hidden: it raises, or something mounted later
      below it stays. */
  predicate Stuck(table: seq<Mount>, lines: Left, fails: Path -> bool, i: nat)
    requires i < |table|
  {
    || fails(table[i].point)
    || exists j :: i < j < |table| && Below(table[j].point, table[i].point) && Stays(table, lines, fails, j)
  }

  /** The lines among `done` that could be taken off. */
  function Freed(table: seq<Mount>, lines: Left, fails: Path -> bool, done: Left): Left {
    set i | i in done && i < |table| && !Hidden(table, All(table), i) && !Stuck(table, lines, fails, i)
  }

  /** What is left once the points of the lines in `done` have been tried. */
  function After(table: seq<Mount>, lines: Left, fails: Path -> bool, done: Left): Left {
    All(table) - Freed(table, lines, fails, done)
  }

  /** Deepest first, an error is reported for a line exactly when unmounting there raises, or it is stuck and not
      hidden. */
  predicate IsRefused(table: seq<Mount>, lines: Left, fails: Path -> bool, i: nat)
    requires i < |table|
  {
    fails(table[i].point) || (!Hidden(table, All(table), i) && Stuck(table, lines, fails, i))
  }

  /** Every line longer than the one to try has been tried, and none that is shorter. */
  ghost predicate Turn(table: seq<Mount>, lines: Left, done: Left, i: nat) {
    && i < |table| && i in lines && i !in done && done <= lines <= All(table)
    && (forall j :: j in lines && |table[j].point| > |table[i].point| ==> j in done)
    && (forall j :: j in done ==> |table[j].point| >= |table[i].point|)
  }

  /** What hides a line is at a shorter point, so it is still there when the line's turn comes. */
  lemma HiddenExactly(table: seq<Mount>, lines: Left, fails: Path -> bool, done: Left, i: nat)
    requires Turn(table, lines, done, i)
    ensures Hidden(table, After(table, lines, fails, done), i) <==> Hidden(table, All(table), i)
  {
    var now := After(table, lines, fails, done);
    if Hidden(table, All(table), i) {
      var j :| i < j < |table| && Below(table[i].point, table[j].point);
      BelowIsLonger(table[i].point, table[j].point);
      assert j in now;
    }
  }

  /** Deepest first, a mount is busy at its turn exactly when something that stays is below it. */
  lemma BusyExactly(table: seq<Mount>, lines: Left, fails: Path -> bool, done: Left, i: nat)
    requires Turn(table, lines, done, i) && !fails(table[i].point)
    ensures Busy(table, After(table, lines, fails, done), i) <==> Stuck(table, lines, fails, i)
  {
    var now := After(table, lines, fails, done);
    if Busy(table, now, i) {
      var j :| i < j < |table| && j in now && Below(table[j].point, table[i].point);
      BelowIsLonger(table[j].point, table[i].point);
      if !Stays(table, lines, fails, j) {
        StuckBelow(table, lines, fails, i, j);
      }
    }
    if Stuck(table, lines, fails, i) {
      var j :| i < j < |table| && Below(table[j].point, table[i].point) && Stays(table, lines, fails, j);
      assert j in now;
    }
  }

  lemma StuckBelow(table: seq<Mount>, lines: Left, fails: Path -> bool, i: nat, j: nat)
    requires i < j < |table| && Below(table[j].point, table[i].point)
    requires !fails(table[j].point) && Stuck(table, lines, fails, j)
    ensures Stuck(table, lines, fails, i)
  {
    var r :| j < r < |table| && Below(table[r].point, table[j].point) && Stays(table, lines, fails, r);
    BelowIsTransitive(table[r].point, table[j].point, table[i].point);
  }

  /** At its turn a topmost line is still there, and still topmost. */
  lemma StillTop(table: seq<Mount>, lines: Left, fails: Path -> bool, done: Left, i: nat)
    requires Turn(table, lines, done, i) && TopAt(table, All(table), table[i].point) == i
    ensures TopAt(table, After(table, lines, fails, done), table[i].point) == i
  {
    assert i in After(table, lines, fails, done);
  }

  function DeeperFirst(): (Path, Path) -> bool {
    (a: Path, b: Path) => |a| >= |b|
  }

  // ---------- The code ----------

  datatype UmountResult = Unmounted | NotMounted | TargetBusy | Error

  ghost predicate LongestFirst(points: seq<Path>) {
    forall i, j :: 0 <= i < j < |points| ==> |points[i]| >= |points[j]| && points[i] != points[j]
  }

  /** `umount(8)` at a path: it raises for reasons of its own, or the path is no mount point or leads elsewhere, or a
      mount below keeps the topmost mount there busy, or that mount goes. */
  function Outcome(table: seq<Mount>, left: Left, p: Path, fails: bool): UmountResult {
    var i := TopAt(table, left, p);
    if fails then Error
    else if i < 0 || Hidden(table, left, i) then NotMounted
    else if Busy(table, left, i) then TargetBusy
    else Unmounted
  }

  class Host {
    const table: seq<Mount>
    var left: Left

    constructor (table: seq<Mount>)
      ensures this.table == table && left == All(table)
    {
      this.table, left := table, All(table);
    }

    method Umount(p: Path, fails: bool) returns (r: UmountResult)
      modifies this`left
      ensures r == Outcome(table, old(left), p, fails)
      ensures left == if r == Unmounted then old(left) - {TopAt(table, old(left), p)} else old(left)
    {
      if fails {
        return Error;
      }
      var i := TopAt(table, left, p);
      if i < 0 || Hidden(table, left, i) {
        return NotMounted;
      }
      if Busy(table, left, i) {
        return TargetBusy;
      }
      left := left - {i};
      r := Unmounted;
    }

    /** The loop of `unmount_device` over the sorted mount points of the device. A point that is not mounted, or hidden,
        is skipped without an error. */
    method UnmountAll(points: seq<Path>, ghost lines: Left, fails: Path -> bool) returns (errors: seq<Path>)
      requires left == All(table) && LongestFirst(points) && PointsOf(table, points, lines)
      modifies this`left
      ensures left == After(table, lines, fails, lines)
      ensures errors == Filter(points, Refused(table, lines, fails))
    {
      errors := [];
      var k := 0;
      ghost var done: Left := {};
      NothingTried(table, lines, fails);
      assert points[..0] == [];
      while k < |points|
        invariant 0 <= k <= |points|
        invariant done == LinesAt(table, points[..k])
        invariant left == After(table, lines, fails, done)
        invariant errors == Filter(points[..k], Refused(table, lines, fails))
      {
        var p := points[k];
        TryPoint(table, points, lines, fails, k);
        var r := Umount(p, fails(p));
        if r == Error || r == TargetBusy {
          errors := errors + [p];
        }
        k := k + 1;
        done := LinesAt(table, points[..k]);
      }
      assert points[..k] == points;
      AllTried(table, points, lines);
    }

    /** `unmount_device`: the device path is checked, the table read, and the device's points tried deepest first. */
    method UnmountDevice(devicePath: string, readable: bool, realPath: string -> string,
                         parents: string -> seq<string>, fails: Path -> bool) returns (ok: bool, errors: seq<Path>)
      requires left == All(table)
      modifies this`left
      ensures !IsDevicePath(devicePath) || !readable ==> !ok && left == old(left)
      ensures IsDevicePath(devicePath) && readable ==>
                var owned := (source: string) => BelongsTo(source, devicePath[5..], realPath, parents);
                var lines := DeviceLines(table, owned);
                && left == After(table, lines, fails, lines)
                && (forall p :: p in errors <==> p in DevicePoints(table, owned) && Refused(table, lines, fails)(p))
                && (ok <==> forall i :: i in lines ==> !IsRefused(table, lines, fails, i))
      ensures ok ==>
                forall i ::
                  && 0 <= i < |table| && InSight(table, i)
                  && BelongsTo(table[i].source, devicePath[5..], realPath, parents)
                  ==> i !in left
    {
      errors := [];
      if !IsDevicePath(devicePath) || !readable {
        return false, [];
      }
      var owned := (source: string) => BelongsTo(source, devicePath[5..], realPath, parents);
      var points := FindDeviceMountpoints(table, owned);
      var sorted := Sort(points, DeeperFirst());
      DeepestFirst(points);
      ghost var lines := DeviceLines(table, owned);
      DeviceLinesArePoints(table, owned, sorted);
      errors := UnmountAll(sorted, lines, fails);
      RefusedPoints(sorted, Refused(table, lines, fails));
      RefusedLines(table, owned, fails);
      ok := errors == [];
      if ok {
        SightedLinesGo(table, owned, fails);
      }
    }
  }

  predicate IsDevicePath(path: string) {
    && "/dev/" <= path && |path| > 5 && IsLetter(path[5])
    && forall i :: 5 <= i < |path| ==> IsLetter(path[i]) || IsDigit(path[i])
  }

  predicate IsLetter(c: char) {
    'a' <= c <= 'z' || 'A' <= c <= 'Z'
  }

  /** Device paths are "/dev/" and a name of letters and digits that begins with a letter. */
  lemma DevicePathExactly(name: string)
    ensures IsDevicePath("/dev/" + name) <==>
              && name != "" && ('a' <= name[0] <= 'z' || 'A' <= name[0] <= 'Z')
              && forall i :: 0 <= i < |name| ==>
                   'a' <= name[i] <= 'z' || 'A' <= name[i] <= 'Z' || '0' <= name[i] <= '9'
  {
    var path := "/dev/" + name;
    assert path[5..] == name && path[..5] == "/dev/";
    if IsDevicePath(path) {
      forall i | 0 <= i < |name| ensures IsLetter(name[i]) || IsDigit(name[i]) {
        assert path[5 + i] == name[i];
      }
    }
  }

  /** `_find_device_mountpoints`: the points whose source in the dictionary belongs to the device. */
  method FindDeviceMountpoints(table: seq<Mount>, owned: string -> bool) returns (mountpoints: seq<Path>)
    ensures Elements(mountpoints) == DevicePoints(table, owned)
    ensures forall i, j :: 0 <= i < j < |mountpoints| ==> mountpoints[i] != mountpoints[j]
  {
    var mountTable, order := ReadMountTable(table);
    mountpoints := [];
    for i := 0 to |order|
      invariant Elements(mountpoints) == set p | p in Elements(order[..i]) && p in mountTable && owned(mountTable[p])
      invariant forall j, k :: 0 <= j < k < |mountpoints| ==> mountpoints[j] != mountpoints[k]
    {
      assert order[..i + 1] == order[..i] + [order[i]];
      assert order[i] !in order[..i];
      if owned(mountTable[order[i]]) {
        assert order[i] !in Elements(mountpoints);
        ElementsAppend(mountpoints, order[i]);
        mountpoints := mountpoints + [order[i]];
      }
      ElementsAppend(order[..i], order[i]);
    }
    assert order[..|order|] == order;
    PointsOfDictionary(table, owned, mountTable);
  }

  function Pairs(table: seq<Mount>): seq<(Path, string)> {
    seq(|table|, i requires 0 <= i < |table| => (table[i].point, table[i].source))
  }

  /** What one more line means for the dictionary and for the order in which its points first appeared. */
  lemma LineRead(table: seq<Mount>, n: nat, order: seq<Path>)
    requires n < |table| && LastWins(Pairs(table[..n])).Keys == Elements(order)
    ensures var before, m := LastWins(Pairs(table[..n])), table[n];
            && LastWins(Pairs(table[..n + 1])) == before[m.point := m.source]
            && (m.point in before <==> m.point in order)
            && Elements(order + [m.point]) == before.Keys + {m.point}
  {
    var pairs := Pairs(table[..n + 1]);
    assert pairs[..n] == Pairs(table[..n]);
    ElementsAppend(order, table[n].point);
    assert table[n].point in order <==> table[n].point in Elements(order);
  }

  lemma OneMorePoint(order: seq<Path>, p: Path)
    requires p !in order && forall j, k :: 0 <= j < k < |order| ==> order[j] != order[k]
    ensures var next := order + [p]; forall j, k :: 0 <= j < k < |next| ==> next[j] != next[k]
  {
  }

  /** The dictionary of the table, and the order in which its points first appeared. */
  method ReadMountTable(table: seq<Mount>) returns (mountTable: map<Path, string>, order: seq<Path>)
    ensures mountTable == LastWins(Pairs(table)) && mountTable.Keys == Elements(order)
    ensures forall j, k :: 0 <= j < k < |order| ==> order[j] != order[k]
  {
    mountTable, order := map[], [];
    for n := 0 to |table|
      invariant mountTable == LastWins(Pairs(table[..n])) && mountTable.Keys == Elements(order)
      invariant forall j, k :: 0 <= j < k < |order| ==> order[j] != order[k]
    {
      var m := table[n];
      LineRead(table, n, order);
      if m.point !in mountTable {
        OneMorePoint(order, m.point);
        order := order + [m.point];
      }
      mountTable := mountTable[m.point := m.source];
    }
    assert table[..|table|] == table;
  }

  /** The dictionary has each point with its topmost source. */
  lemma {:induction false} DictionaryHasTops(table: seq<Mount>, n: nat, p: Path)
    requires n <= |table|
    ensures var i, mountTable := TopBefore(table, All(table), p, n), LastWins(Pairs(table)[..n]);
            (p in mountTable <==> i >= 0) && (i >= 0 ==> mountTable[p] == table[i].source)
  {
    if n > 0 {
      DictionaryHasTops(table, n - 1, p);
      assert Pairs(table)[..n][..n - 1] == Pairs(table)[..n - 1];
    }
  }

  lemma PointsOfDictionary(table: seq<Mount>, owned: string -> bool, mountTable: map<Path, string>)
    requires mountTable == LastWins(Pairs(table))
    ensures DevicePoints(table, owned) == set p | p in mountTable && owned(mountTable[p])
  {
    assert Pairs(table)[..|table|] == Pairs(table);
    forall p ensures p in DevicePoints(table, owned) <==> p in mountTable && owned(mountTable[p]) {
      DictionaryHasTops(table, |table|, p);
      var i := TopAt(table, All(table), p);
      if p in mountTable && owned(mountTable[p]) {
        assert i in DeviceLines(table, owned);
      }
    }
  }

  lemma ElementsAppend(points: seq<Path>, p: Path)
    ensures Elements(points + [p]) == Elements(points) + {p}
  {
  }

  // ---------- Lemmas for the loop ----------

  function Elements(points: seq<Path>): set<Path> {
    set p | p in points
  }

  /** The lines the points lead to at the beginning. */
  function LinesAt(table: seq<Mount>, points: seq<Path>): Left {
    set k | 0 <= k < |points| && TopAt(table, All(table), points[k]) >= 0 :: TopAt(table, All(table), points[k])
  }

  /** `points` are the points of `lines`, each of which is topmost. */
  ghost predicate PointsOf(table: seq<Mount>, points: seq<Path>, lines: Left) {
    && lines == LinesAt(table, points)
    && forall k :: 0 <= k < |points| ==> TopAt(table, All(table), points[k]) >= 0
  }

  /** The points an unmount is refused for. */
  function Refused(table: seq<Mount>, lines: Left, fails: Path -> bool): Path -> bool {
    (p: Path) =>
      var i := TopAt(table, All(table), p);
      i >= 0 && IsRefused(table, lines, fails, i)
  }

  lemma NothingTried(table: seq<Mount>, lines: Left, fails: Path -> bool)
    ensures After(table, lines, fails, {}) == All(table) && LinesAt(table, []) == {}
  {
  }

  lemma AllTried(table: seq<Mount>, points: seq<Path>, lines: Left)
    requires PointsOf(table, points, lines)
    ensures LinesAt(table, points) == lines
  {
  }

  lemma NextPoint(points: seq<Path>, k: nat, refused: Path -> bool)
    requires k < |points|
    ensures Filter(points[..k + 1], refused)
         == if refused(points[k]) then Filter(points[..k], refused) + [points[k]] else Filter(points[..k], refused)
  {
    assert points[..k + 1] == points[..k] + [points[k]];
    FilterAppend(points[..k], [points[k]], refused);
    assert [points[k]][1..] == [];
  }

  lemma NextLine(table: seq<Mount>, points: seq<Path>, k: nat)
    requires k < |points| && TopAt(table, All(table), points[k]) >= 0
    ensures LinesAt(table, points[..k + 1]) == LinesAt(table, points[..k]) + {TopAt(table, All(table), points[k])}
  {
    var i := TopAt(table, All(table), points[k]);
    assert points[..k + 1][k] == points[k];
    forall j | j in LinesAt(table, points[..k]) ensures j in LinesAt(table, points[..k + 1]) {
      var m :| 0 <= m < k && TopAt(table, All(table), points[..k][m]) == j;
      assert points[..k + 1][m] == points[..k][m];
    }
    forall j | j in LinesAt(table, points[..k + 1]) ensures j in LinesAt(table, points[..k]) || j == i {
      var m :| 0 <= m < k + 1 && TopAt(table, All(table), points[..k + 1][m]) == j;
      if m < k {
        assert points[..k][m] == points[..k + 1][m];
      }
    }
  }

  /** The loop's order: when point `k` is tried, it is its line's turn. */
  lemma ItsTurn(table: seq<Mount>, points: seq<Path>, lines: Left, k: nat)
    requires k < |points| && LongestFirst(points) && PointsOf(table, points, lines)
    ensures Turn(table, lines, LinesAt(table, points[..k]), TopAt(table, All(table), points[k]))
  {
    var i, done := TopAt(table, All(table), points[k]), LinesAt(table, points[..k]);
    forall j | j in done ensures j in lines && |table[j].point| >= |table[i].point| && j != i {
      var m :| 0 <= m < k && TopAt(table, All(table), points[..k][m]) == j;
      assert points[..k][m] == points[m] != points[k];
    }
    forall j | j in lines && |table[j].point| > |table[i].point| ensures j in done {
      var m :| 0 <= m < |points| && TopAt(table, All(table), points[m]) == j;
      assert points[..k][m] == points[m];
    }
  }

  lemma AfterOneMore(table: seq<Mount>, lines: Left, fails: Path -> bool, done: Left, i: nat)
    requires i < |table| && i !in done
    ensures var now, next := After(table, lines, fails, done), After(table, lines, fails, done + {i});
            next == if Hidden(table, All(table), i) || Stuck(table, lines, fails, i) then now else now - {i}
  {
    var freed := Freed(table, lines, fails, done);
    if !Hidden(table, All(table), i) && !Stuck(table, lines, fails, i) {
      assert Freed(table, lines, fails, done + {i}) == freed + {i};
    } else {
      assert Freed(table, lines, fails, done + {i}) == freed;
    }
  }

  /** What an unmount at a line's turn answers. */
  lemma OutcomeAtTurn(table: seq<Mount>, lines: Left, fails: Path -> bool, done: Left, i: nat)
    requires Turn(table, lines, done, i) && TopAt(table, All(table), table[i].point) == i
    ensures var now, p := After(table, lines, fails, done), table[i].point;
            && TopAt(table, now, p) == i
            && Outcome(table, now, p, fails(p)) ==
                 if fails(p) then Error
                 else if Hidden(table, All(table), i) then NotMounted
                 else if Stuck(table, lines, fails, i) then TargetBusy
                 else Unmounted
  {
    StillTop(table, lines, fails, done, i);
    HiddenExactly(table, lines, fails, done, i);
    if !fails(table[i].point) {
      BusyExactly(table, lines, fails, done, i);
    }
  }

  /** What trying point `k` next does to the mounts that are left and to the errors. */
  lemma TryPoint(table: seq<Mount>, points: seq<Path>, lines: Left, fails: Path -> bool, k: nat)
    requires k < |points| && LongestFirst(points) && PointsOf(table, points, lines)
    ensures var p, done := points[k], LinesAt(table, points[..k]);
            var now, next := After(table, lines, fails, done),
                             After(table, lines, fails, LinesAt(table, points[..k + 1]));
            var r, refused := Outcome(table, now, p, fails(p)), Refused(table, lines, fails);
            && next == (if r == Unmounted then now - {TopAt(table, now, p)} else now)
            && Filter(points[..k + 1], refused)
               == (if r == Error || r == TargetBusy then Filter(points[..k], refused) + [p]
                   else Filter(points[..k], refused))
  {
    var i, done := TopAt(table, All(table), points[k]), LinesAt(table, points[..k]);
    ItsTurn(table, points, lines, k);
    OutcomeAtTurn(table, lines, fails, done, i);
    NextLine(table, points, k);
    AfterOneMore(table, lines, fails, done, i);
    NextPoint(points, k, Refused(table, lines, fails));
  }

  lemma DeviceLinesArePoints(table: seq<Mount>, owned: string -> bool, points: seq<Path>)
    requires Elements(points) == DevicePoints(table, owned)
    ensures PointsOf(table, points, DeviceLines(table, owned))
  {
    forall k | 0 <= k < |points|
      ensures TopAt(table, All(table), points[k]) in DeviceLines(table, owned)
    {
      assert points[k] in Elements(points);
      var i :| i in DeviceLines(table, owned) && table[i].point == points[k];
    }
    forall i | i in DeviceLines(table, owned) ensures i in LinesAt(table, points) {
      assert table[i].point in Elements(points);
      var k :| 0 <= k < |points| && points[k] == table[i].point;
    }
  }

  lemma RefusedLines(table: seq<Mount>, owned: string -> bool, fails: Path -> bool)
    ensures var lines := DeviceLines(table, owned);
            (forall p :: p in DevicePoints(table, owned) ==> !Refused(table, lines, fails)(p))
            <==> forall i :: i in lines ==> !IsRefused(table, lines, fails, i)
  {
    var lines := DeviceLines(table, owned);
    if forall p :: p in DevicePoints(table, owned) ==> !Refused(table, lines, fails)(p) {
      forall i | i in lines ensures !IsRefused(table, lines, fails, i) {
        assert table[i].point in DevicePoints(table, owned);
      }
    }
  }

  lemma RefusedPoints(points: seq<Path>, refused: Path -> bool)
    ensures forall p :: p in Filter(points, refused) <==> p in points && refused(p)
    ensures Filter(points, refused) == [] <==> forall p :: p in points ==> !refused(p)
  {
    if points != [] {
      RefusedPoints(points[1..], refused);
      assert points == [points[0]] + points[1..];
    }
  }

  lemma DeepestFirst(points: seq<Path>)
    requires forall i, j :: 0 <= i < j < |points| ==> points[i] != points[j]
    ensures LongestFirst(Sort(points, DeeperFirst())) && Elements(Sort(points, DeeperFirst())) == Elements(points)
  {
    var sorted := Sort(points, DeeperFirst());
    SortIsSorted(points, DeeperFirst());
    SortKeepsElements(points, DeeperFirst());
    DistinctIsPermutable(points, sorted);
  }

  // ---------- What this means ----------

  /** No source of the device is mounted any more, neither in sight nor under another mount. */
  ghost predicate Gone(table: seq<Mount>, left: Left, owned: string -> bool) {
    forall i :: 0 <= i < |table| && i in left ==> !owned(table[i].source)
  }

  /** The path of this line's point leads to it: it is topmost there, and no later mount above hides it. */
  predicate InSight(table: seq<Mount>, i: nat)
    requires i < |table|
  {
    TopAt(table, All(table), table[i].point) == i && !Hidden(table, All(table), i)
  }

  /** Nothing holds this line: unmounting there does not raise, and every mount made later below it is of the device, in
      sight, and does not raise either. */
  ghost predicate Free(table: seq<Mount>, owned: string -> bool, fails: Path -> bool, i: nat)
    requires i < |table|
  {
    && !fails(table[i].point)
    && forall j :: i < j < |table| && Below(table[j].point, table[i].point) ==>
         owned(table[j].source) && InSight(table, j) && !fails(table[j].point)
  }

  lemma FreeIsNotStuck(table: seq<Mount>, owned: string -> bool, fails: Path -> bool, i: nat)
    requires i < |table|
    ensures Free(table, owned, fails, i) <==> !Stuck(table, DeviceLines(table, owned), fails, i)
  {
    var lines := DeviceLines(table, owned);
    forall j | 0 <= j < |table|
      ensures Stays(table, lines, fails, j) <==>
                !(owned(table[j].source) && InSight(table, j) && !fails(table[j].point))
    {
    }
  }

  /** The device comes off completely, so that none of its sources is mounted any more, if and only if each of them was
      in sight and free. Mounts of other sources are never touched. */
  lemma CleanUnmountExactly(table: seq<Mount>, owned: string -> bool, fails: Path -> bool)
    ensures var lines := DeviceLines(table, owned);
            var after := After(table, lines, fails, lines);
            && (Gone(table, after, owned) <==>
                  forall i :: 0 <= i < |table| && owned(table[i].source) ==>
                    InSight(table, i) && Free(table, owned, fails, i))
            && (forall i :: 0 <= i < |table| && !owned(table[i].source) ==> i in after)
  {
    var lines := DeviceLines(table, owned);
    var after := After(table, lines, fails, lines);
    forall i | 0 <= i < |table| && owned(table[i].source)
      ensures i in after <==> !(InSight(table, i) && Free(table, owned, fails, i))
    {
      FreeIsNotStuck(table, owned, fails, i);
    }
  }

  /** When success is reported, the device is gone if and only if each of its sources was in sight. */
  lemma SuccessMeansGoneExactly(table: seq<Mount>, owned: string -> bool, fails: Path -> bool)
    requires var lines := DeviceLines(table, owned);
             forall i :: i in lines ==> !IsRefused(table, lines, fails, i)
    ensures var lines := DeviceLines(table, owned);
            Gone(table, After(table, lines, fails, lines), owned) <==>
              forall i :: 0 <= i < |table| && owned(table[i].source) ==> InSight(table, i)
  {
    CleanUnmountExactly(table, owned, fails);
    forall i | 0 <= i < |table| && owned(table[i].source) && InSight(table, i)
      ensures Free(table, owned, fails, i)
    {
      assert i in DeviceLines(table, owned);
      FreeIsNotStuck(table, owned, fails, i);
    }
  }

  /** When success is reported, every mount of the device that was in sight is off. */
  lemma SightedLinesGo(table: seq<Mount>, owned: string -> bool, fails: Path -> bool)
    requires var lines := DeviceLines(table, owned);
             forall i :: i in lines ==> !IsRefused(table, lines, fails, i)
    ensures var lines := DeviceLines(table, owned);
            forall i :: 0 <= i < |table| && InSight(table, i) && owned(table[i].source) ==>
              i !in After(table, lines, fails, lines)
  {
    forall i | 0 <= i < |table| && InSight(table, i) && owned(table[i].source)
      ensures i in DeviceLines(table, owned)
    {
    }
  }

  /** Success is reported and the device is not gone. */
  ghost predicate FalseSuccess(table: seq<Mount>, owned: string -> bool) {
    var lines, never := DeviceLines(table, owned), (_: Path) => false;
    && (forall i :: i in lines ==> !IsRefused(table, lines, never, i))
    && !Gone(table, After(table, lines, never, lines), owned)
  }

  function Is(source: string): string -> bool {
    (s: string) => s == source
  }

  lemma NotInSight(table: seq<Mount>, source: string, i: nat)
    requires i < |table| && table[i].source == source && !InSight(table, i)
    requires var lines, never := DeviceLines(table, Is(source)), (_: Path) => false;
             forall j :: j in lines ==> !IsRefused(table, lines, never, j)
    ensures FalseSuccess(table, Is(source))
  {
    SuccessMeansGoneExactly(table, Is(source), (_: Path) => false);
  }

  /** With two mounts of the device on one point the loop takes off one. */
  lemma StackedMountSurvives(point: Path, source: string)
    ensures FalseSuccess([Mount(point, source), Mount(point, source)], Is(source))
  {
    assert !Below(point, point);
    NotInSight([Mount(point, source), Mount(point, source)], source, 0);
  }

  /** A mount of the device under a foreign one at the same point is not even looked at. */
  lemma HiddenMountSurvives(point: Path, source: string, other: string)
    requires source != other
    ensures var table := [Mount(point, source), Mount(point, other)];
            FalseSuccess(table, Is(source)) && DeviceLines(table, Is(source)) == {}
  {
    NotInSight([Mount(point, source), Mount(point, other)], source, 0);
  }

  /** A mount of the device that a later foreign mount above hides is tried in vain, and that counts as success. */
  lemma CoveredMountSurvives(point: Path, above: Path, source: string, other: string)
    requires source != other && Below(point, above)
    ensures FalseSuccess([Mount(point, source), Mount(above, other)], Is(source))
  {
    var table := [Mount(point, source), Mount(above, other)];
    assert 1 in All(table) && Below(table[0].point, table[1].point);
    assert Hidden(table, All(table), 0);
    NotInSight(table, source, 0);
  }

  /** A foreign mount made earlier below a mount of the device is no obstacle: the device comes off. */
  lemma EarlierMountIsNoObstacle(point: Path, above: Path, source: string, other: string)
    requires source != other && Below(point, above)
    ensures var table, never := [Mount(point, other), Mount(above, source)], (_: Path) => false;
            var lines := DeviceLines(table, Is(source));
            Gone(table, After(table, lines, never, lines), Is(source))
  {
    var table := [Mount(point, other), Mount(above, source)];
    BelowIsLonger(point, above);
    assert InSight(table, 1);
    CleanUnmountExactly(table, Is(source), (_: Path) => false);
  }
}
