/** Sizes of sets and maps, and sums over maps. */
module Sums {

  lemma {:induction false} SubsetSize<T>(a: set<T>, b: set<T>)
    requires a <= b
    ensures |a| <= |b|
    ensures a != b ==> |a| < |b|
  {
    if a != {} {
      var x :| x in a;
      SubsetSize(a - {x}, b - {x});
    }
  }

  lemma MapSizes<K, V>(m: map<K, V>, k: K, v: V)
    ensures |m[k := v]| == if k in m then |m| else |m| + 1
    ensures |m - {k}| == if k in m then |m| - 1 else |m|
  {
    var grown, shrunk := m[k := v], m - {k};
    assert grown.Keys == m.Keys + {k} && shrunk.Keys == m.Keys - {k};
    assert |grown| == |grown.Keys| && |shrunk| == |shrunk.Keys| && |m| == |m.Keys|;
  }

  lemma SubmapSize<K, V>(r: map<K, V>, m: map<K, V>)
    requires forall k :: k in r ==> k in m
    ensures |r| <= |m|
  {
    SubsetSize(r.Keys, m.Keys);
    assert |r| == |r.Keys| && |m| == |m.Keys|;
  }

  lemma SameSizeSame<K, V>(r: map<K, V>, m: map<K, V>)
    requires forall k :: k in r ==> k in m && r[k] == m[k]
    requires |r| == |m|
    ensures r == m
  {
    assert |r| == |r.Keys| && |m| == |m.Keys|;
    forall k | k in m ensures k in r {
      if k !in r {
        SubsetSize(r.Keys, m.Keys - {k});
      }
    }
  }

  ghost function Pick<K, V>(m: map<K, V>): (k: K)
    requires m != map[]
    ensures k in m
  {
    assert m.Keys != {};
    var k :| k in m.Keys;
    k
  }

  ghost function Total<K>(m: map<K, int>): int {
    if m == map[] then 0
    else
      var k := Pick(m);
      m[k] + Total(m - {k})
  }

  /** The sum does not depend on the order in which it is taken. */
  lemma {:induction false} TotalSplit<K>(m: map<K, int>, k: K)
    requires k in m
    ensures Total(m) == m[k] + Total(m - {k})
    decreases |m|
  {
    var first := Pick(m);
    if first != k {
      var rest := m - {first};
      assert |rest.Keys| < |m.Keys|;
      TotalSplit(rest, k);
      assert rest - {k} == (m - {k}) - {first};
      assert |(m - {k}).Keys| < |m.Keys|;
      TotalSplit(m - {k}, first);
    }
  }
}
