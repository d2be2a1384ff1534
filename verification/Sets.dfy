/** Cardinality facts used by the bounded tables. */
module Sets {
  lemma {:induction false} SubsetSize<T>(a: set<T>, b: set<T>)
    requires a <= b
    ensures |a| <= |b|
    decreases b
  {
    if a != {} {
      var x :| x in a;
      SubsetSize(a - {x}, b - {x});
    }
  }

  lemma MapUpdateSize<K, V>(m: map<K, V>, k: K, v: V)
    ensures |m[k := v]| <= |m| + 1
  {
    var n := m[k := v];
    assert n.Keys == m.Keys + {k};
    assert |n| == |n.Keys| && |m| == |m.Keys|;
  }
}
