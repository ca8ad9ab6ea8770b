/** The clamped progress counters of `app/repositories/job_repository.py`. */
module ProgressCounters {
  import opened Sequences

  /** One signed update of a counter column, as the UPDATE statements of a batch spell it. */
  function Bump(x: int, delta: int): int {
    if delta > 0 then x + delta
    else if delta < 0 then (if x > -delta then x + delta else 0)
    else x
  }

  /** The updates applied one at a time, oldest first. */
  function BumpAll(x: int, deltas: seq<int>): int {
    if deltas == [] then x else Bump(BumpAll(x, deltas[..|deltas| - 1]), deltas[|deltas| - 1])
  }

  function Sum(deltas: seq<int>): int {
    if deltas == [] then 0 else Sum(deltas[..|deltas| - 1]) + deltas[|deltas| - 1]
  }

  lemma SumSuffix(deltas: seq<int>, i: nat)
    requires i < |deltas|
    ensures Sum(deltas[i..]) == Sum(deltas[..|deltas| - 1][i..]) + deltas[|deltas| - 1]
  {
    var n := |deltas| - 1;
    assert deltas[i..][..n - i] == deltas[..n][i..];
  }

  /** The closed form: from a counter that is not negative, signed updates give the larger of the plain sum and
      the largest sum of a run of updates at the end (the empty run included once there was an update). */
  lemma {:induction false} ClosedForm(x: int, deltas: seq<int>)
    requires x >= 0
    ensures BumpAll(x, deltas) >= x + Sum(deltas)
    ensures forall i :: 1 <= i <= |deltas| ==> BumpAll(x, deltas) >= Sum(deltas[i..])
    ensures BumpAll(x, deltas) == x + Sum(deltas)
         || exists i :: 1 <= i <= |deltas| && BumpAll(x, deltas) == Sum(deltas[i..])
    ensures BumpAll(x, deltas) >= 0
  {
    if deltas != [] {
      var n := |deltas| - 1;
      var before, d := deltas[..n], deltas[n];
      ClosedForm(x, before);
      assert Sum(deltas[n + 1..]) == 0;
      forall i | 1 <= i <= n ensures BumpAll(x, deltas) >= Sum(deltas[i..]) {
        SumSuffix(deltas, i);
      }
      if BumpAll(x, before) != x + Sum(before) {
        var i :| 1 <= i <= n && BumpAll(x, before) == Sum(before[i..]);
        SumSuffix(deltas, i);
      }
    }
  }

  /** One aggregated update never ends above the single ones, and ends level with them exactly when no run of
      updates at the end adds up to more than the aggregated result. */
  lemma BatchAgainstSingles(x: int, deltas: seq<int>)
    requires x >= 0
    ensures Bump(x, Sum(deltas)) <= BumpAll(x, deltas)
    ensures Bump(x, Sum(deltas)) == BumpAll(x, deltas) <==>
              forall i :: 1 <= i <= |deltas| ==> Sum(deltas[i..]) <= Bump(x, Sum(deltas))
  {
    ClosedForm(x, deltas);
  }

  /** When no running total dips below zero, nothing is ever clamped: singles and batch are the plain sum. */
  lemma {:induction false} NoDipNoClamp(x: int, deltas: seq<int>)
    requires forall i :: 0 <= i <= |deltas| ==> x + Sum(deltas[..i]) >= 0
    ensures BumpAll(x, deltas) == x + Sum(deltas) == Bump(x, Sum(deltas))
  {
    assert deltas[..|deltas|] == deltas;
    assert x + Sum(deltas[..0]) >= 0;
    if deltas != [] {
      var before := deltas[..|deltas| - 1];
      forall i | 0 <= i <= |before| ensures x + Sum(before[..i]) >= 0 {
        assert before[..i] == deltas[..i];
      }
      NoDipNoClamp(x, before);
    }
  }

  // ---------- Columns keyed by assignment ----------

  /** The sum of a column over a set of rows. */
  ghost function Total<K>(rows: set<K>, column: map<K, int>): int
    requires rows <= column.Keys
  {
    if rows == {} then 0
    else
      var r :| r in rows;
      column[r] + Total(rows - {r}, column)
  }

  lemma TotalWithout<K>(rows: set<K>, column: map<K, int>, r: K)
    requires rows <= column.Keys && r in rows
    ensures Total(rows, column) == column[r] + Total(rows - {r}, column)
    decreases |rows|
  {
    var q :| q in rows && Total(rows, column) == column[q] + Total(rows - {q}, column);
    if q != r {
      TotalWithout(rows - {q}, column, r);
      TotalWithout(rows - {r}, column, q);
      assert rows - {q} - {r} == rows - {r} - {q};
    }
  }

  lemma {:induction false} TotalOf<K>(rows: set<K>, a: map<K, int>, b: map<K, int>)
    requires rows <= a.Keys && rows <= b.Keys
    requires forall r :: r in rows ==> a[r] == b[r]
    ensures Total(rows, a) == Total(rows, b)
    decreases |rows|
  {
    if rows != {} {
      var r :| r in rows;
      TotalWithout(rows, a, r);
      TotalWithout(rows, b, r);
      TotalOf(rows - {r}, a, b);
    }
  }

  /** Rewriting one row changes the total by that row's change. */
  lemma TotalUpdate<K>(column: map<K, int>, r: K, v: int)
    requires r in column
    ensures Total(column.Keys, column[r := v]) == Total(column.Keys, column) - column[r] + v
  {
    var next := column[r := v];
    TotalWithout(column.Keys, column, r);
    TotalWithout(column.Keys, next, r);
    TotalOf(column.Keys - {r}, column, next);
  }
}
