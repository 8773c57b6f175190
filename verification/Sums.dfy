/** Totals over the values of a finite map. */
module Sums {

  ghost function Sum<K(!new)>(m: map<K, nat>): nat
    decreases |m|
  {
    if m == map[] then 0
    else
      var k :| k in m;
      Drops(m, k);
      m[k] + Sum(m - {k})
  }

  lemma Drops<K, V>(m: map<K, V>, k: K)
    requires k in m
    ensures |m - {k}| == |m| - 1
  {
    assert (m - {k}).Keys == m.Keys - {k};
  }

  /** Any one entry can be split off the total. */
  lemma {:induction false} SumTake<K(!new)>(m: map<K, nat>, k: K)
    requires k in m
    ensures Sum(m) == m[k] + Sum(m - {k})
    decreases |m|
  {
    var j :| j in m && Sum(m) == m[j] + Sum(m - {j});
    if j != k {
      Drops(m, j);
      SumTake(m - {j}, k);
      SumTake(m - {k}, j) by { Drops(m, k); }
      assert m - {j} - {k} == m - {k} - {j};
    }
  }

  lemma SumPut<K(!new)>(m: map<K, nat>, k: K, v: nat)
    ensures Sum(m[k := v]) == Sum(m - {k}) + v
  {
    SumTake(m[k := v], k);
    assert m[k := v] - {k} == m - {k};
  }

  lemma SumDrop<K(!new)>(m: map<K, nat>, k: K)
    ensures Sum(m) == Sum(m - {k}) + if k in m then m[k] else 0
  {
    if k in m {
      SumTake(m, k);
    } else {
      assert m - {k} == m;
    }
  }
}
