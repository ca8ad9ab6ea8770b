/** The two orders in which a rotated log family is read: the viewer's, in `app/routers/admin.py`, and the failure
    lookup's, in `app/routers/jobs.py`. */
module LogFamilies {
  import opened Sequences

  // ---------- When two stable sorts agree ----------

  ghost predicate Finer<T(!new)>(fine: (T, T) -> bool, le: (T, T) -> bool) {
    forall a, b :: fine(a, b) ==> le(a, b)
  }

  predicate Tied<T>(a: T, b: T, le: (T, T) -> bool) {
    le(a, b) && le(b, a)
  }

  /** Elements that `le` does not tell apart already stand in the order of `fine`. */
  ghost predicate TiesInOrder<T>(s: seq<T>, fine: (T, T) -> bool, le: (T, T) -> bool) {
    forall i, j :: 0 <= i < j < |s| && Tied(s[i], s[j], le) ==> fine(s[i], s[j])
  }

  lemma {:induction false} InsertAgrees<T(!new)>(x: T, s: seq<T>, fine: (T, T) -> bool, le: (T, T) -> bool)
    requires forall t :: t in s ==> (fine(x, t) <==> le(x, t))
    ensures Insert(x, s, fine) == Insert(x, s, le)
  {
    if s != [] && !le(x, s[0]) {
      InsertAgrees(x, s[1..], fine, le);
    }
  }

  lemma {:induction false} SortsAgreeIf<T(!new)>(s: seq<T>, fine: (T, T) -> bool, le: (T, T) -> bool)
    requires TotalPreorder(fine) && TotalPreorder(le) && Finer(fine, le) && TiesInOrder(s, fine, le)
    ensures Sort(s, fine) == Sort(s, le)
  {
    if s != [] {
      SortsAgreeIf(s[1..], fine, le);
      var rest := Sort(s[1..], le);
      forall t | t in rest ensures fine(s[0], t) <==> le(s[0], t) {
        SortKeepsElements(s[1..], le);
        var j :| 0 <= j < |s[1..]| && s[1..][j] == t;
        assert s[j + 1] == t;
      }
      InsertAgrees(s[0], rest, fine, le);
    }
  }

  function TiedWith<T>(x: T, le: (T, T) -> bool): T -> bool {
    (t: T) => Tied(x, t, le)
  }

  lemma NotInOneClass<T(!new)>(x: T, a: T, k: T, le: (T, T) -> bool)
    requires TotalPreorder(le)
    ensures le(x, a) || !Tied(k, x, le) || !Tied(k, a, le)
  {
    assert le(x, k) && le(k, a) ==> le(x, a);
  }

  lemma {:induction false} InsertIsStable<T>(x: T, s: seq<T>, k: T, le: (T, T) -> bool)
    requires forall a :: a in s ==> le(x, a) || !Tied(k, x, le) || !Tied(k, a, le)
    ensures Filter(Insert(x, s, le), TiedWith(k, le))
         == (if Tied(k, x, le) then [x] else []) + Filter(s, TiedWith(k, le))
  {
    if s == [] || le(x, s[0]) {
      assert ([x] + s)[1..] == s;
    } else {
      var rest := Insert(x, s[1..], le);
      InsertIsStable(x, s[1..], k, le);
      assert ([s[0]] + rest)[1..] == rest;
      assert s[0] in s;
    }
  }

  /** The elements of one class keep their order. */
  lemma {:induction false} SortIsStable<T(!new)>(s: seq<T>, k: T, le: (T, T) -> bool)
    requires TotalPreorder(le)
    ensures Filter(Sort(s, le), TiedWith(k, le)) == Filter(s, TiedWith(k, le))
  {
    if s != [] {
      SortIsStable(s[1..], k, le);
      forall a ensures le(s[0], a) || !Tied(k, s[0], le) || !Tied(k, a, le) {
        NotInOneClass(s[0], a, k, le);
      }
      InsertIsStable(s[0], Sort(s[1..], le), k, le);
    }
  }

  lemma {:induction false} FilterIsSorted<T(!new)>(s: seq<T>, keep: T -> bool, le: (T, T) -> bool)
    requires Sorted(s, le)
    ensures Sorted(Filter(s, keep), le)
  {
    if s != [] {
      FilterIsSorted(s[1..], keep, le);
      FilterElements(s[1..], keep);
      var rest := Filter(s[1..], keep);
      forall j | 0 <= j < |rest| ensures le(s[0], rest[j]) {
        assert rest[j] in rest;
      }
    }
  }

  lemma TailIsSorted<T>(x: T, rest: seq<T>, le: (T, T) -> bool)
    requires Sorted([x] + rest, le)
    ensures Sorted(rest, le)
  {
    forall i, j | 0 <= i < j < |rest| ensures le(rest[i], rest[j]) {
      assert ([x] + rest)[i + 1] == rest[i] && ([x] + rest)[j + 1] == rest[j];
    }
  }

  lemma TailClassInOrder<T>(s: seq<T>, keep: T -> bool, fine: (T, T) -> bool)
    requires s != [] && Sorted(Filter(s, keep), fine)
    ensures Sorted(Filter(s[1..], keep), fine)
  {
    var rest := Filter(s[1..], keep);
    if keep(s[0]) {
      TailIsSorted(s[0], rest, fine);
    } else {
      assert [] + rest == rest;
    }
  }

  lemma {:induction false} ClassesInOrder<T(!new)>(s: seq<T>, fine: (T, T) -> bool, le: (T, T) -> bool)
    requires forall k :: le(k, k)
    requires forall k :: Sorted(Filter(s, TiedWith(k, le)), fine)
    ensures TiesInOrder(s, fine, le)
  {
    if s != [] {
      forall k ensures Sorted(Filter(s[1..], TiedWith(k, le)), fine) {
        TailClassInOrder(s, TiedWith(k, le), fine);
      }
      ClassesInOrder(s[1..], fine, le);
      FirstOfClass(s, fine, le);
      ExtendTies(s, fine, le);
    }
  }

  lemma ExtendTies<T>(s: seq<T>, fine: (T, T) -> bool, le: (T, T) -> bool)
    requires s != [] && TiesInOrder(s[1..], fine, le)
    requires forall j :: 0 < j < |s| && Tied(s[0], s[j], le) ==> fine(s[0], s[j])
    ensures TiesInOrder(s, fine, le)
  {
    forall i, j | 0 <= i < j < |s| && Tied(s[i], s[j], le) ensures fine(s[i], s[j]) {
      if i > 0 {
        assert s[1..][i - 1] == s[i] && s[1..][j - 1] == s[j];
      }
    }
  }

  lemma FirstOfClass<T(!new)>(s: seq<T>, fine: (T, T) -> bool, le: (T, T) -> bool)
    requires s != [] && le(s[0], s[0]) && Sorted(Filter(s, TiedWith(s[0], le)), fine)
    ensures forall j :: 0 < j < |s| && Tied(s[0], s[j], le) ==> fine(s[0], s[j])
  {
    var same := TiedWith(s[0], le);
    var rest := Filter(s[1..], same);
    assert Filter(s, same) == [s[0]] + rest;
    FilterElements(s[1..], same);
    forall j | 0 < j < |s| && Tied(s[0], s[j], le) ensures fine(s[0], s[j]) {
      assert s[j] in s[1..] && s[j] in rest;
      var m :| 0 <= m < |rest| && rest[m] == s[j];
      assert Filter(s, same)[m + 1] == s[j] && Filter(s, same)[0] == s[0];
    }
  }

  /** A stable sort gives the order of a finer one exactly when its ties already stand in that order. */
  lemma SortsAgreeExactly<T(!new)>(s: seq<T>, fine: (T, T) -> bool, le: (T, T) -> bool)
    requires TotalPreorder(fine) && TotalPreorder(le) && Finer(fine, le)
    ensures Sort(s, fine) == Sort(s, le) <==> TiesInOrder(s, fine, le)
  {
    if TiesInOrder(s, fine, le) {
      SortsAgreeIf(s, fine, le);
    } else if Sort(s, fine) == Sort(s, le) {
      SortIsSorted(s, fine);
      forall k ensures Sorted(Filter(s, TiedWith(k, le)), fine) {
        SortIsStable(s, k, le);
        FilterIsSorted(Sort(s, fine), TiedWith(k, le), fine);
      }
      ClassesInOrder(s, fine, le);
    }
  }

  // ---------- The log family ----------

  /** A family member found in the log directory: the active log, or a rotation with its number. */
  datatype Member = Active | Rotation(number: nat, path: string)

  /** `_log_family_sort_key`. */
  function Key(m: Member): nat {
    if m.Active? then 0 else m.number
  }

  function ByKey(): (Member, Member) -> bool {
    (a: Member, b: Member) => Key(a) <= Key(b)
  }

  /** The active log first, then rotations by number and path. */
  function ByRotation(pathLe: (string, string) -> bool): (Member, Member) -> bool {
    (a: Member, b: Member) =>
      a.Active? || (b.Rotation? && (a.number < b.number || (a.number == b.number && pathLe(a.path, b.path))))
  }

  /** The order of `_resolve_log_family` for a directory listed as `entries`. */
  function ViewerOrder(entries: seq<Member>): seq<Member> {
    Sort(entries, ByKey())
  }

  function IsRotation(): Member -> bool {
    (m: Member) => m.Rotation?
  }

  /** The order of `_candidate_log_paths`: the active log is a candidate even when the directory does not have it. */
  function LookupOrder(entries: seq<Member>, pathLe: (string, string) -> bool): seq<Member> {
    [Active] + Sort(Filter(entries, IsRotation()), ByRotation(pathLe))
  }

  /** The candidates that are in the directory; the lookup skips the others, which it cannot open. */
  function LookupReads(entries: seq<Member>, pathLe: (string, string) -> bool): seq<Member> {
    Filter(LookupOrder(entries, pathLe), (m: Member) => m in entries)
  }

  lemma OrdersAreTotal(pathLe: (string, string) -> bool)
    requires TotalPreorder(pathLe)
    ensures TotalPreorder(ByKey()) && TotalPreorder(ByRotation(pathLe)) && Finer(ByRotation(pathLe), ByKey())
  {
  }

  lemma {:induction false} ActiveFirst(entries: seq<Member>, pathLe: (string, string) -> bool)
    ensures var fine, rotations := ByRotation(pathLe), Filter(entries, IsRotation());
            && (Active !in entries ==> Sort(entries, fine) == Sort(rotations, fine))
            && (Count(entries, Active) == 1 ==> Sort(entries, fine) == [Active] + Sort(rotations, fine))
  {
    if entries != [] {
      var fine, rest, m := ByRotation(pathLe), entries[1..], entries[0];
      ActiveFirst(rest, pathLe);
      NoneCounted(rest);
      var rotations := Filter(rest, IsRotation());
      if m.Active? {
        assert [] + rotations == rotations;
        assert Insert(m, Sort(rest, fine), fine) == [m] + Sort(rest, fine);
      } else {
        assert ([m] + rotations)[1..] == rotations;
        assert ([Active] + Sort(rotations, fine))[1..] == Sort(rotations, fine);
        assert !fine(m, Active);
      }
    }
  }

  lemma {:induction false} NoneCounted(entries: seq<Member>)
    ensures Count(entries, Active) == 0 <==> Active !in entries
  {
    if entries != [] {
      NoneCounted(entries[1..]);
    }
  }

  /** What the lookup reads is the directory sorted by number and path, the active log first if it is there. */
  lemma LookupReadsSorted(entries: seq<Member>, pathLe: (string, string) -> bool)
    requires Count(entries, Active) <= 1
    ensures LookupReads(entries, pathLe) == Sort(entries, ByRotation(pathLe))
  {
    var fine, rotations := ByRotation(pathLe), Filter(entries, IsRotation());
    var here := (m: Member) => m in entries;
    var sorted := Sort(rotations, fine);
    ActiveFirst(entries, pathLe);
    NoneCounted(entries);
    SortKeepsElements(rotations, fine);
    FilterElements(entries, IsRotation());
    forall i | 0 <= i < |sorted| ensures here(sorted[i]) {
      assert sorted[i] in sorted;
    }
    FilterKeepsAll(sorted, here);
    assert ([Active] + sorted)[1..] == sorted;
    assert [] + sorted == sorted;
  }

  /** The viewer and the lookup read a family in the same order exactly when the directory lists no rotation numbered 0
      before the active log, and rotations of one number in path order. */
  lemma OrdersAgreeExactly(entries: seq<Member>, pathLe: (string, string) -> bool)
    requires TotalPreorder(pathLe) && Count(entries, Active) <= 1
    ensures ViewerOrder(entries) == LookupReads(entries, pathLe)
       <==> forall i, j :: 0 <= i < j < |entries| && Key(entries[i]) == Key(entries[j]) ==>
              ByRotation(pathLe)(entries[i], entries[j])
  {
    var fine := ByRotation(pathLe);
    OrdersAreTotal(pathLe);
    LookupReadsSorted(entries, pathLe);
    SortsAgreeExactly(entries, fine, ByKey());
    assert forall a: Member, b: Member :: Tied(a, b, ByKey()) <==> Key(a) == Key(b);
  }

  /** With distinct positive rotation numbers the directory's order does not matter. */
  lemma NumberedFamiliesAgree(entries: seq<Member>, pathLe: (string, string) -> bool)
    requires TotalPreorder(pathLe) && Count(entries, Active) <= 1
    requires forall i, j :: 0 <= i < j < |entries| ==> Key(entries[i]) != Key(entries[j])
    ensures ViewerOrder(entries) == LookupReads(entries, pathLe)
  {
    OrdersAgreeExactly(entries, pathLe);
  }

  /** The viewer shows the members of the directory, each once, by ascending rotation number; only rotations numbered 0
      can stand before the active log. */
  lemma ViewerOrderIsByNumber(entries: seq<Member>)
    ensures var order := ViewerOrder(entries);
            && multiset(order) == multiset(entries)
            && (forall i, j :: 0 <= i < j < |order| && order[i].Rotation? && order[j].Rotation? ==>
                  order[i].number <= order[j].number)
            && (forall i, j :: 0 <= i < j < |order| && order[i].Rotation? && order[j].Active? ==> order[i].number == 0)
  {
    SortKeepsElements(entries, ByKey());
    SortIsSorted(entries, ByKey());
    var order := ViewerOrder(entries);
    forall i, j | 0 <= i < j < |order| ensures Key(order[i]) <= Key(order[j]) {
      assert ByKey()(order[i], order[j]);
    }
  }

  /** The lookup tries the active log first, then the rotations by ascending number, then by path. */
  lemma LookupOrderIsByNumber(entries: seq<Member>, pathLe: (string, string) -> bool)
    requires TotalPreorder(pathLe)
    ensures var order := LookupOrder(entries, pathLe);
            && order[0] == Active
            && (forall i :: 0 < i < |order| ==> order[i].Rotation? && order[i] in entries)
            && (forall m :: m in entries && m.Rotation? ==> m in order)
            && (forall i, j :: 0 < i < j < |order| ==>
                  order[i].number < order[j].number
                  || (order[i].number == order[j].number && pathLe(order[i].path, order[j].path)))
  {
    var fine, rotations := ByRotation(pathLe), Filter(entries, IsRotation());
    OrdersAreTotal(pathLe);
    FilterElements(entries, IsRotation());
    SortKeepsElements(rotations, fine);
    SortIsSorted(rotations, fine);
    var sorted, order := Sort(rotations, fine), LookupOrder(entries, pathLe);
    forall i | 0 < i < |order| ensures order[i] == sorted[i - 1] && order[i] in rotations {
      assert sorted[i - 1] in sorted;
    }
    forall i, j | 0 < i < j < |order| ensures fine(order[i], order[j]) {
      assert fine(sorted[i - 1], sorted[j - 1]);
    }
    forall m | m in rotations ensures m in order {
      assert m in sorted;
    }
  }

  /** A rotation numbered 0 can be shown before the active log. */
  lemma RotationZeroGoesFirst(path: string, pathLe: (string, string) -> bool)
    requires TotalPreorder(pathLe)
    ensures var entries := [Rotation(0, path), Active];
            ViewerOrder(entries) == entries && LookupOrder(entries, pathLe) == [Active, Rotation(0, path)]
  {
    var r := Rotation(0, path);
    var entries := [r, Active];
    assert entries[1..] == [Active] && entries[1..][1..] == [];
    assert Sort(entries[1..], ByKey()) == [Active];
    assert Filter(entries, IsRotation()) == [r] + [] by {
      assert Filter([Active], IsRotation()) == [];
    }
    assert [r][1..] == [];
    assert Sort([r], ByRotation(pathLe)) == [r];
  }
}
