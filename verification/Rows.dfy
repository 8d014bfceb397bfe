/**
  Append-only tables as sequences: the latest matching row, sums over rows, and totals over a keyed table.
  A row's identifier is its position.
 */
module Rows {
  datatype Option<+T> = None | Some(value: T)

  datatype Found<+T> = Found(id: nat, row: T)

  /** The latest row that satisfies `p`, with its identifier. */
  function Find<T>(rows: seq<T>, p: T -> bool): (r: Option<Found<T>>)
    ensures r.Some? ==> r.value.id < |rows| && p(r.value.row)
  {
    if |rows| == 0 then None
    else
      var last := |rows| - 1;
      if p(rows[last]) then Some(Found(last, rows[last])) else Find(rows[..last], p)
  }

  /** Find is what an index scan returns: a match with nothing newer matching, or nothing because nothing matches. */
  lemma {:induction false} FindMeaning<T>(rows: seq<T>, p: T -> bool)
    ensures match Find(rows, p)
      case Some(f) =>
        f.id < |rows| && rows[f.id] == f.row && p(f.row) && forall i :: f.id < i < |rows| ==> !p(rows[i])
      case None => forall i :: 0 <= i < |rows| ==> !p(rows[i])
  {
    if |rows| > 0 {
      FindMeaning(rows[..|rows| - 1], p);
    }
  }

  lemma FindAppend<T>(rows: seq<T>, row: T, p: T -> bool)
    ensures Find(rows + [row], p) == if p(row) then Some(Found(|rows|, row)) else Find(rows, p)
  {
    assert (rows + [row])[..|rows|] == rows;
  }

  lemma {:induction false} FindUpdate<T>(rows: seq<T>, i: nat, row: T, p: T -> bool)
    requires i < |rows| && p(row) == p(rows[i])
    ensures Find(rows[i := row], p) ==
      var f := Find(rows, p);
      if f.Some? && f.value.id == i then Some(Found(i, row)) else f
  {
    var last := |rows| - 1;
    if i == last {
      assert rows[i := row][..last] == rows[..last];
    } else {
      assert rows[i := row][..last] == rows[..last][i := row];
      FindUpdate(rows[..last], i, row, p);
    }
  }

  function Count<T>(rows: seq<T>, p: T -> bool): nat {
    if |rows| == 0 then 0 else Count(rows[..|rows| - 1], p) + (if p(rows[|rows| - 1]) then 1 else 0)
  }

  lemma {:induction false} CountNone<T>(rows: seq<T>, p: T -> bool)
    requires forall i :: 0 <= i < |rows| ==> !p(rows[i])
    ensures Count(rows, p) == 0
  {
    if |rows| > 0 {
      CountNone(rows[..|rows| - 1], p);
    }
  }

  /** A row whose match is unique is counted once. */
  lemma {:induction false} CountOne<T>(rows: seq<T>, k: nat, p: T -> bool)
    requires k < |rows| && p(rows[k]) && forall i :: 0 <= i < |rows| && i != k ==> !p(rows[i])
    ensures Count(rows, p) == 1
  {
    var last := |rows| - 1;
    if k == last {
      CountNone(rows[..last], p);
    } else {
      CountOne(rows[..last], k, p);
    }
  }

  function Sum<T>(rows: seq<T>, f: T -> int): int {
    if |rows| == 0 then 0 else Sum(rows[..|rows| - 1], f) + f(rows[|rows| - 1])
  }

  lemma SumAppend<T>(rows: seq<T>, row: T, f: T -> int)
    ensures Sum(rows + [row], f) == Sum(rows, f) + f(row)
  {
    assert (rows + [row])[..|rows|] == rows;
  }

  lemma {:induction false} SumUpdate<T>(rows: seq<T>, i: nat, row: T, f: T -> int)
    requires i < |rows|
    ensures Sum(rows[i := row], f) == Sum(rows, f) - f(rows[i]) + f(row)
  {
    var last := |rows| - 1;
    if i == last {
      assert rows[i := row][..last] == rows[..last];
    } else {
      assert rows[i := row][..last] == rows[..last][i := row];
      SumUpdate(rows[..last], i, row, f);
    }
  }

  /** With no negative summand, a sum covers each of its summands. */
  lemma {:induction false} SumCovers<T>(rows: seq<T>, i: nat, f: T -> int)
    requires i < |rows|
    requires forall k :: 0 <= k < |rows| ==> f(rows[k]) >= 0
    ensures Sum(rows, f) >= f(rows[i])
  {
    var last := |rows| - 1;
    SumNonNegative(rows[..last], f);
    if i < last {
      SumCovers(rows[..last], i, f);
    }
  }

  lemma {:induction false} SumNonNegative<T>(rows: seq<T>, f: T -> int)
    requires forall k :: 0 <= k < |rows| ==> f(rows[k]) >= 0
    ensures Sum(rows, f) >= 0
  {
    if |rows| > 0 {
      SumNonNegative(rows[..|rows| - 1], f);
    }
  }

  lemma {:induction false} SumPrefix<T>(rows: seq<T>, k: nat, f: T -> int)
    requires k <= |rows| && forall i :: 0 <= i < |rows| ==> f(rows[i]) >= 0
    ensures Sum(rows[..k], f) <= Sum(rows, f)
  {
    if k == |rows| {
      assert rows[..k] == rows;
    } else {
      assert rows[..|rows| - 1][..k] == rows[..k];
      SumPrefix(rows[..|rows| - 1], k, f);
    }
  }

  lemma {:induction false} SumMonotone<T>(rows: seq<T>, f: T -> int, g: T -> int)
    requires forall i :: 0 <= i < |rows| ==> f(rows[i]) <= g(rows[i])
    ensures Sum(rows, f) <= Sum(rows, g)
  {
    if |rows| > 0 {
      SumMonotone(rows[..|rows| - 1], f, g);
    }
  }

  /** The total of all the values of a keyed table. */
  ghost function Total<K(!new)>(m: map<K, int>): int {
    if m == map[] then 0
    else
      var k :| k in m;
      m[k] + Total(m - {k})
  }

  lemma {:induction false} TotalRemove<K(!new)>(m: map<K, int>, k: K)
    requires k in m
    ensures Total(m) == m[k] + Total(m - {k})
    decreases |m|
  {
    var j :| j in m && Total(m) == m[j] + Total(m - {j});
    if j != k {
      TotalRemove(m - {j}, k);
      TotalRemove(m - {k}, j);
      assert m - {j} - {k} == m - {k} - {j};
    }
  }

  lemma TotalUpdate<K(!new)>(m: map<K, int>, k: K, v: int)
    ensures Total(m[k := v]) == Total(m) - (if k in m then m[k] else 0) + v
  {
    TotalRemove(m[k := v], k);
    if k in m {
      TotalRemove(m, k);
      assert m[k := v] - {k} == m - {k};
    } else {
      assert m[k := v] - {k} == m;
    }
  }

  lemma {:induction false} TotalNonNegative<K(!new)>(m: map<K, int>)
    requires forall k :: k in m ==> m[k] >= 0
    ensures Total(m) >= 0
    decreases |m|
  {
    if m != map[] {
      var k :| k in m;
      TotalRemove(m, k);
      TotalNonNegative(m - {k});
    }
  }

  lemma TotalCovers<K(!new)>(m: map<K, int>, k: K)
    requires k in m && forall j :: j in m ==> m[j] >= 0
    ensures 0 <= m[k] <= Total(m)
  {
    TotalRemove(m, k);
    TotalNonNegative(m - {k});
  }
}
