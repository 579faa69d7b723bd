/** Sums of integer values over a finite map. */
module Sums {

  ghost function Sum<K(!new)>(m: map<K, int>): int
    decreases |m|
  {
    if m == map[] then 0
    else
      var k :| k in m;
      m[k] + Sum(m - {k})
  }

  /** Which key is taken out first does not matter. */
  lemma {:induction false} SumRemove<K(!new)>(m: map<K, int>, k: K)
    requires k in m
    ensures Sum(m) == m[k] + Sum(m - {k})
    decreases |m|
  {
    var j :| j in m && Sum(m) == m[j] + Sum(m - {j});
    if j != k {
      SumRemove(m - {j}, k);
      SumRemove(m - {k}, j);
      assert m - {j} - {k} == m - {k} - {j};
    }
  }

  lemma SumUpdate<K(!new)>(m: map<K, int>, k: K, v: int)
    ensures Sum(m[k := v]) == Sum(m) + v - (if k in m then m[k] else 0)
  {
    var n := m[k := v];
    SumRemove(n, k);
    if k in m {
      SumRemove(m, k);
      assert n - {k} == m - {k};
    } else {
      assert n - {k} == m;
    }
  }

  /** A sum is the sum over some keys and the sum over the others. */
  lemma {:induction false} SumSplit<K(!new)>(m: map<K, int>, ks: set<K>)
    requires ks <= m.Keys
    ensures Sum(m) == Sum(m - ks) + Sum(m - (m.Keys - ks))
    decreases |ks|
  {
    if ks == {} {
      assert m - ks == m && m - (m.Keys - ks) == map[];
    } else {
      var k :| k in ks;
      var rest, part := m - {k}, m - (m.Keys - ks);
      SumRemove(m, k);
      SumSplit(rest, ks - {k});
      assert rest - (ks - {k}) == m - ks;
      SumRemove(part, k);
      assert part - {k} == rest - (rest.Keys - (ks - {k}));
    }
  }
}
