/** Sums over the values of a map. */
module Sums {
  ghost function Total<K(!new)>(m: map<K, int>): int {
    if k :| k in m then m[k] + Total(m - {k}) else 0
  }

  lemma {:induction false} Fewer<K>(m: map<K, int>, k: K)
    requires k in m
    ensures |m - {k}| < |m|
  {
    assert m.Keys == (m - {k}).Keys + {k};
  }

  lemma {:induction false} Either<K>(m: map<K, int>, j: K, k: K)
    ensures m - {j} - {k} == m - {k} - {j}
  {
  }

  /** `Total` does not depend on the order in which keys are taken. */
  lemma {:induction false} TotalMinus<K(!new)>(m: map<K, int>, k: K)
    requires k in m
    ensures Total(m) == m[k] + Total(m - {k})
    decreases |m|
  {
    var j :| j in m && Total(m) == m[j] + Total(m - {j});
    if j != k {
      var a, b := m - {j}, m - {k};
      Fewer(m, j);
      Fewer(m, k);
      TotalMinus(a, k);
      TotalMinus(b, j);
      Either(m, j, k);
    }
  }

  lemma {:induction false} TotalPut<K(!new)>(m: map<K, int>, k: K, v: int)
    ensures Total(m[k := v]) == Total(m) - (if k in m then m[k] else 0) + v
  {
    var n := m[k := v];
    TotalMinus(n, k);
    if k in m {
      TotalMinus(m, k);
      assert n - {k} == m - {k};
    } else {
      assert n - {k} == m;
    }
  }

  lemma {:induction false} TotalPositive<K(!new)>(m: map<K, int>)
    requires forall k :: k in m ==> m[k] >= 0
    ensures Total(m) >= 0
    decreases |m|
  {
    if k :| k in m {
      TotalMinus(m, k);
      Fewer(m, k);
      TotalPositive(m - {k});
    }
  }
}
