/** Sums over the values of a finite map: totals over table rows. */
module Sums {
  ghost function Sum<K>(m: map<K, int>): int {
    if m == map[] then 0
    else
      var k :| k in m;
      m[k] + Sum(m - {k})
  }

  /** The sum does not depend on the order in which rows are picked. */
  lemma {:induction false} SumRemove<K>(m: map<K, int>, k: K)
    requires k in m
    ensures Sum(m) == m[k] + Sum(m - {k})
    decreases |m|
  {
    var j :| j in m && Sum(m) == m[j] + Sum(m - {j});
    if j != k {
      SumRemove(m - {j}, k);
      SumRemove(m - {k}, j);
      assert m - {j} - {k} == m - {k} - {j};
    }
  }

  lemma SumUpdate<K>(m: map<K, int>, k: K, v: int)
    ensures Sum(m[k := v]) == Sum(m) + v - (if k in m then m[k] else 0)
  {
    SumRemove(m[k := v], k);
    assert m[k := v] - {k} == m - {k};
    if k in m {
      SumRemove(m, k);
    } else {
      assert m - {k} == m;
    }
  }

  lemma {:induction false} SumZero<K>(m: map<K, int>)
    requires forall k <- m :: m[k] == 0
    ensures Sum(m) == 0
    decreases |m|
  {
    if m != map[] {
      var k :| k in m;
      SumRemove(m, k);
      SumZero(m - {k});
    }
  }

  lemma {:induction false} SumMonotone<K>(m: map<K, int>, n: map<K, int>)
    requires m.Keys == n.Keys && forall k <- m :: m[k] <= n[k]
    ensures Sum(m) <= Sum(n)
    decreases |m|
  {
    if m == map[] {
      assert n == map[];
    } else {
      var k :| k in m;
      SumRemove(m, k);
      SumRemove(n, k);
      SumMonotone(m - {k}, n - {k});
    }
  }

  lemma {:induction false} SumPlus<K>(m: map<K, int>, n: map<K, int>, r: map<K, int>)
    requires m.Keys == n.Keys == r.Keys && forall k <- m :: r[k] == m[k] + n[k]
    ensures Sum(r) == Sum(m) + Sum(n)
    decreases |m|
  {
    if m == map[] {
      assert n == map[] && r == map[];
    } else {
      var k :| k in m;
      SumRemove(m, k);
      SumRemove(n, k);
      SumRemove(r, k);
      SumPlus(m - {k}, n - {k}, r - {k});
    }
  }

  ghost function KeysOf<K(!new)>(m: map<K, int>, v: int): set<K> {
    set k | k in m && m[k] == v
  }

  /** Where every value is -1, 0 or 1, the sum counts the ones against the minus ones. */
  lemma {:induction false} SumOfSigns<K(!new)>(m: map<K, int>)
    requires forall k <- m :: -1 <= m[k] <= 1
    ensures Sum(m) == |KeysOf(m, 1)| - |KeysOf(m, -1)|
    decreases |m|
  {
    if m != map[] {
      var k :| k in m;
      SumRemove(m, k);
      SumOfSigns(m - {k});
      KeysOfRemove(m, k, 1);
      KeysOfRemove(m, k, -1);
    }
  }

  lemma KeysOfRemove<K(!new)>(m: map<K, int>, k: K, v: int)
    requires k in m
    ensures |KeysOf(m, v)| == |KeysOf(m - {k}, v)| + (if m[k] == v then 1 else 0)
  {
    assert KeysOf(m - {k}, v) == KeysOf(m, v) - {k};
  }
}
