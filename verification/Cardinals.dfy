// Counting: intervals, subsets and injective images.

module Cardinals {

  function Interval(first: nat, end: nat): (s: set<nat>)
    ensures forall k :: k in s <==> first <= k < end
    decreases if first < end then end - first else 0
  {
    if first < end then {first} + Interval(first + 1, end) else {}
  }

  lemma {:induction false} IntervalSize(first: nat, end: nat)
    ensures |Interval(first, end)| == if first < end then end - first else 0
    decreases if first < end then end - first else 0
  {
    if first < end {
      IntervalSize(first + 1, end);
    }
  }

  function Image<K, V>(keys: set<K>, f: map<K, V>): set<V>
    requires keys <= f.Keys
  {
    set k | k in keys :: f[k]
  }

  predicate Injective<K, V(==)>(f: map<K, V>) {
    forall k, l | k in f && l in f && f[k] == f[l] :: k == l
  }

  lemma {:induction false} ImageSize<K, V>(keys: set<K>, f: map<K, V>)
    requires keys <= f.Keys && Injective(f)
    ensures |Image(keys, f)| == |keys|
    decreases |keys|
  {
    if keys == {} {
      assert Image(keys, f) == {};
    } else {
      var k :| k in keys;
      ImageSize(keys - {k}, f);
      assert Image(keys, f) == Image(keys - {k}, f) + {f[k]};
    }
  }

  lemma SubsetSize<T>(a: set<T>, b: set<T>)
    requires a <= b
    ensures |a| <= |b| && (|a| == |b| ==> a == b)
  {
    assert b == a + (b - a);
  }
}
