/** Keyed pointwise sums of maps: the reference that a merge within limits must equal. */
module KeyedSums {
  import opened Sums

  /** How two values under the same key are combined. */
  type Combine<!K, !V> = (K, V, V) -> V

  ghost predicate Commutative<K(!new), V(!new)>(f: Combine<K, V>) {
    forall k, x, y :: f(k, x, y) == f(k, y, x)
  }

  ghost predicate Associative<K(!new), V(!new)>(f: Combine<K, V>) {
    forall k, x, y, z {:trigger f(k, f(k, x, y), z)} :: f(k, f(k, x, y), z) == f(k, x, f(k, y, z))
  }

  ghost function Union<K, V>(a: map<K, V>, b: map<K, V>, f: Combine<K, V>): (r: map<K, V>)
    ensures r.Keys == a.Keys + b.Keys
  {
    map k | k in a.Keys + b.Keys ::
      if k in a && k in b then f(k, a[k], b[k]) else if k in a then a[k] else b[k]
  }

  ghost function Store<K, V>(m: map<K, V>, k: K, v: V, f: Combine<K, V>): map<K, V> {
    m[k := if k in m then f(k, m[k], v) else v]
  }

  lemma UnionCommutes<K(!new), V(!new)>(a: map<K, V>, b: map<K, V>, f: Combine<K, V>)
    requires Commutative(f)
    ensures Union(a, b, f) == Union(b, a, f)
  {
  }

  lemma UnionAssociates<K(!new), V(!new)>(a: map<K, V>, b: map<K, V>, c: map<K, V>, f: Combine<K, V>)
    requires Associative(f)
    ensures Union(Union(a, b, f), c, f) == Union(a, Union(b, c, f), f)
  {
  }

  lemma UnionStore<K(!new), V(!new)>(a: map<K, V>, b: map<K, V>, k: K, v: V, f: Combine<K, V>)
    requires Associative(f)
    ensures Union(a, Store(b, k, v, f), f) == Store(Union(a, b, f), k, v, f)
  {
  }

  /** A list of keyed items added to a map one by one. */
  ghost function CollectInto<P, K, V>(m: map<K, V>, s: seq<P>, key: P -> K, val: P -> V, f: Combine<K, V>): map<K, V> {
    if s == [] then m
    else
      var last := s[|s| - 1];
      Store(CollectInto(m, s[..|s| - 1], key, val, f), key(last), val(last), f)
  }

  /** A list of keyed items summed up by key. */
  ghost function Collect<P, K, V>(s: seq<P>, key: P -> K, val: P -> V, f: Combine<K, V>): map<K, V> {
    CollectInto(map[], s, key, val, f)
  }

  /** Adding items one by one is adding their sum. */
  lemma {:induction false} CollectIntoIsUnion<P, K(!new), V(!new)>(m: map<K, V>, s: seq<P>, key: P -> K, val: P -> V, f: Combine<K, V>)
    requires Associative(f)
    ensures CollectInto(m, s, key, val, f) == Union(m, Collect(s, key, val, f), f)
  {
    if s == [] {
      assert Union(m, map[], f) == m;
    } else {
      var n := |s| - 1;
      CollectIntoIsUnion(m, s[..n], key, val, f);
      UnionStore(m, Collect(s[..n], key, val, f), key(s[n]), val(s[n]), f);
    }
  }

  lemma StoreGrows<K, V>(m: map<K, V>, k: K, v: V, f: Combine<K, V>)
    ensures m.Keys <= Store(m, k, v, f).Keys
    ensures |m| <= |Store(m, k, v, f)|
    ensures k !in m ==> |Store(m, k, v, f)| == |m| + 1
  {
    KeysGrow(m, Store(m, k, v, f));
    if k !in m {
      assert Store(m, k, v, f).Keys == m.Keys + {k};
      assert |m.Keys + {k}| == |m.Keys| + 1;
    }
  }

  ghost function KeysOf<P, K>(s: seq<P>, key: P -> K): (r: seq<K>)
    ensures |r| == |s| && forall i :: 0 <= i < |s| ==> r[i] == key(s[i])
  {
    seq(|s|, i requires 0 <= i < |s| => key(s[i]))
  }

  /** Listing a map, in any order, and collecting the list gives the map back. */
  lemma {:induction false} CollectListed<P, K(!new), V>(m: map<K, V>, s: seq<P>, key: P -> K, val: P -> V, f: Combine<K, V>)
    requires Lists(m, KeysOf(s, key))
    requires forall i :: 0 <= i < |s| ==> key(s[i]) in m && val(s[i]) == m[key(s[i])]
    ensures Collect(s, key, val, f) == m
    decreases |s|
  {
    if s == [] {
      assert forall k :: k !in m;
      assert m == map[];
    } else {
      var n := |s| - 1;
      var k := key(s[n]);
      var keys, front := KeysOf(s, key), KeysOf(s[..n], key);
      assert front == keys[..n];
      var m' := m - {k};
      forall x
        ensures x in m' <==> x in front
      {
        if x in m' {
          var i :| 0 <= i < |keys| && keys[i] == x;
          assert front[i] == x;
        }
        if x in front {
          var i :| 0 <= i < |front| && front[i] == x;
          assert keys[i] == x && keys[n] == k;
        }
      }
      forall i | 0 <= i < n
        ensures key(s[i]) in m'
      {
        assert keys[i] != keys[n];
      }
      CollectListed(m', s[..n], key, val, f);
      assert k !in m';
    }
  }

  /** A count over a map grows with its keys and values. */
  lemma {:induction false} MapCountGrows<K, V>(a: map<K, V>, c: map<K, V>, size: V -> int)
    requires a.Keys <= c.Keys
    requires forall k :: k in a ==> size(a[k]) <= size(c[k])
    requires forall k :: k in c ==> 0 <= size(c[k])
    ensures MapCount(a, size) <= MapCount(c, size)
    decreases |c|
  {
    if c == map[] {
      assert a == map[];
    } else if k :| k in a {
      MapCountRemove(a, size, k);
      MapCountRemove(c, size, k);
      MapCountGrows(a - {k}, c - {k}, size);
    } else {
      var k :| k in c;
      MapCountRemove(c, size, k);
      assert a == map[];
      MapCountGrows(a, c - {k}, size);
    }
  }

  lemma {:induction false} KeysGrow<K, V>(a: map<K, V>, c: map<K, V>)
    requires a.Keys <= c.Keys
    ensures |a| <= |c|
  {
    assert c.Keys == a.Keys + (c.Keys - a.Keys);
    assert |c.Keys| == |a.Keys| + |c.Keys - a.Keys|;
  }
}
