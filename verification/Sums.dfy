/** Sums over the values of a finite map, in whatever order they are taken. */
module Sums {
  ghost function Total<K>(f: map<K, nat>): nat
    decreases |f|
  {
    if f == map[] then 0
    else
      var k :| k in f;
      f[k] + Total(f - {k})
  }

  /** Any key may be taken out first. */
  lemma {:induction false} TotalSplits<K>(f: map<K, nat>, k: K)
    requires k in f
    ensures Total(f) == f[k] + Total(f - {k})
    decreases |f|
  {
    var j :| j in f && Total(f) == f[j] + Total(f - {j});
    if j != k {
      TotalSplits(f - {j}, k);
      TotalSplits(f - {k}, j);
      assert f - {j} - {k} == f - {k} - {j};
    }
  }

  lemma TotalPut<K>(f: map<K, nat>, k: K, v: nat)
    ensures Total(f[k := v]) == Total(f) - (if k in f then f[k] else 0) + v
  {
    var g := f[k := v];
    TotalSplits(g, k);
    assert g - {k} == f - {k};
    if k in f {
      TotalSplits(f, k);
    } else {
      assert f - {k} == f;
    }
  }

  lemma KeepOneMore<K, V>(f: map<K, V>, rest: set<K>, k: K)
    requires k in f && k in rest
    ensures (f - rest)[k := f[k]] == f - (rest - {k})
  {
  }

  lemma KeepAll<K, V>(f: map<K, V>)
    ensures f - {} == f
  {
  }
}
