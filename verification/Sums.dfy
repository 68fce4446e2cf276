/** Sums over finite maps. */
module Sums {

  ghost function Sum<K>(m: map<K, nat>): nat
  {
    if m == map[] then 0
    else
      var k :| k in m;
      m[k] + Sum(m - {k})
  }

  lemma {:induction false} SumTake<K>(m: map<K, nat>, k: K)
    requires k in m
    ensures Sum(m) == m[k] + Sum(m - {k})
    decreases |m|
  {
    var j :| j in m && Sum(m) == m[j] + Sum(m - {j});
    if j != k {
      SumTake(m - {j}, k);
      SumTake(m - {k}, j);
      assert m - {j} - {k} == m - {k} - {j};
    }
  }

  lemma {:induction false} SumPut<K>(m: map<K, nat>, k: K, v: nat)
    ensures Sum(m[k := v]) == Sum(m) - (if k in m then m[k] else 0) + v
  {
    SumTake(m[k := v], k);
    assert m[k := v] - {k} == m - {k};
    if k in m {
      SumTake(m, k);
    } else {
      assert m - {k} == m;
    }
  }

  lemma {:induction false} SumAtLeast<K>(m: map<K, nat>, k: K)
    requires k in m
    ensures m[k] <= Sum(m)
  {
    SumTake(m, k);
  }

  /** Two different entries together. */
  lemma {:induction false} SumAtLeastTwo<K>(m: map<K, nat>, j: K, k: K)
    requires j in m && k in m && j != k
    ensures m[j] + m[k] <= Sum(m)
  {
    SumTake(m, j);
    SumAtLeast(m - {j}, k);
  }
}
