/** Two maps joined key by key. The laws of the join carry over to the maps: if it commutes, is
    idempotent or associates on the values, then so does joining maps, whatever the keys are. */
module PointwiseJoin {

  ghost function JoinMaps<K, V>(a: map<K, V>, b: map<K, V>, join: (V, V) -> V): map<K, V> {
    map k | k in a.Keys + b.Keys :: if k !in b then a[k] else if k !in a then b[k] else join(a[k], b[k])
  }

  lemma Commutes<K, V>(a: map<K, V>, b: map<K, V>, join: (V, V) -> V)
    requires forall k :: k in a && k in b ==> join(a[k], b[k]) == join(b[k], a[k])
    ensures JoinMaps(a, b, join) == JoinMaps(b, a, join)
  {
    assert a.Keys + b.Keys == b.Keys + a.Keys;
  }

  lemma Idempotent<K, V>(a: map<K, V>, join: (V, V) -> V)
    requires forall k :: k in a ==> join(a[k], a[k]) == a[k]
    ensures JoinMaps(a, a, join) == a
  {
  }

  lemma Associates<K, V>(a: map<K, V>, b: map<K, V>, c: map<K, V>, join: (V, V) -> V)
    requires forall k :: k in a && k in b && k in c ==>
               join(join(a[k], b[k]), c[k]) == join(a[k], join(b[k], c[k]))
    ensures JoinMaps(JoinMaps(a, b, join), c, join) == JoinMaps(a, JoinMaps(b, c, join), join)
  {
    var l, r := JoinMaps(JoinMaps(a, b, join), c, join), JoinMaps(a, JoinMaps(b, c, join), join);
    assert l.Keys == r.Keys;
    forall k | k in l ensures l[k] == r[k] {
      assert k in a || k in b || k in c;
    }
  }
}
