/** Sums over maps and sequences, independent of the order in which a Go map is ranged over. */
module Sums {

  ghost function MapSum<K, V>(m: map<K, V>, f: V -> real): real
    decreases |m|
  {
    if m == map[] then 0.0
    else
      var k :| k in m;
      f(m[k]) + MapSum(m - {k}, f)
  }

  ghost function MapCount<K, V>(m: map<K, V>, f: V -> int): int
    decreases |m|
  {
    if m == map[] then 0
    else
      var k :| k in m;
      f(m[k]) + MapCount(m - {k}, f)
  }

  ghost function SeqSum<V>(s: seq<V>, f: V -> real): real {
    if s == [] then 0.0 else SeqSum(s[..|s| - 1], f) + f(s[|s| - 1])
  }

  /** Any key may be taken out first. */
  lemma {:induction false} MapSumRemove<K, V>(m: map<K, V>, f: V -> real, k: K)
    requires k in m
    ensures MapSum(m, f) == f(m[k]) + MapSum(m - {k}, f)
    decreases |m|
  {
    var p :| p in m && MapSum(m, f) == f(m[p]) + MapSum(m - {p}, f);
    if p != k {
      MapSumRemove(m - {p}, f, k);
      MapSumRemove(m - {k}, f, p);
      assert (m - {p}) - {k} == (m - {k}) - {p};
    }
  }

  lemma {:induction false} MapCountRemove<K, V>(m: map<K, V>, f: V -> int, k: K)
    requires k in m
    ensures MapCount(m, f) == f(m[k]) + MapCount(m - {k}, f)
    decreases |m|
  {
    var p :| p in m && MapCount(m, f) == f(m[p]) + MapCount(m - {p}, f);
    if p != k {
      MapCountRemove(m - {p}, f, k);
      MapCountRemove(m - {k}, f, p);
      assert (m - {p}) - {k} == (m - {k}) - {p};
    }
  }

  /** Storing a value changes the sum by the difference to what the key held before. */
  lemma MapSumStore<K, V>(m: map<K, V>, f: V -> real, k: K, v: V)
    ensures MapSum(m[k := v], f) == MapSum(m, f) - (if k in m then f(m[k]) else 0.0) + f(v)
  {
    MapSumRemove(m[k := v], f, k);
    if k in m {
      MapSumRemove(m, f, k);
    }
    assert m[k := v] - {k} == m - {k};
    if k !in m {
      assert m - {k} == m;
    }
  }

  lemma MapCountStore<K, V>(m: map<K, V>, f: V -> int, k: K, v: V)
    ensures MapCount(m[k := v], f) == MapCount(m, f) - (if k in m then f(m[k]) else 0) + f(v)
  {
    MapCountRemove(m[k := v], f, k);
    if k in m {
      MapCountRemove(m, f, k);
    }
    assert m[k := v] - {k} == m - {k};
    if k !in m {
      assert m - {k} == m;
    }
  }

  lemma {:induction false} CountNonNegative<K, V>(m: map<K, V>, f: V -> int)
    requires forall k :: k in m ==> f(m[k]) >= 0
    ensures MapCount(m, f) >= 0
    decreases |m|
  {
    if m == map[] {
      assert MapCount(m, f) == 0;
    } else {
      hide MapCount;
      var k :| k in m;
      MapCountRemove(m, f, k);
      CountNonNegative(m - {k}, f);
    }
  }

  lemma SeqSumSnoc<V>(s: seq<V>, x: V, f: V -> real)
    ensures SeqSum(s + [x], f) == SeqSum(s, f) + f(x)
  {
    assert (s + [x])[..|s|] == s;
  }

  lemma {:induction false} SeqSumAppend<V>(s: seq<V>, t: seq<V>, f: V -> real)
    ensures SeqSum(s + t, f) == SeqSum(s, f) + SeqSum(t, f)
    decreases |t|
  {
    if t == [] {
      assert s + t == s;
    } else {
      var n := |t| - 1;
      SeqSumAppend(s, t[..n], f);
      assert s + t == (s + t[..n]) + [t[n]];
      SeqSumSnoc(s + t[..n], t[n], f);
    }
  }

  lemma {:induction false} SeqSumRemove<V>(s: seq<V>, i: nat, f: V -> real)
    requires i < |s|
    ensures SeqSum(s, f) == f(s[i]) + SeqSum(s[..i] + s[i + 1..], f)
  {
    assert s == (s[..i] + [s[i]]) + s[i + 1..];
    SeqSumAppend(s[..i] + [s[i]], s[i + 1..], f);
    SeqSumSnoc(s[..i], s[i], f);
    SeqSumAppend(s[..i], s[i + 1..], f);
  }

  /** The last item of a list, found and taken out of a permutation of the list. */
  lemma TakeLast<V>(s: seq<V>, t: seq<V>) returns (i: nat)
    requires multiset(s) == multiset(t) && s != []
    ensures i < |t| && t[i] == s[|s| - 1]
    ensures t == (t[..i] + [t[i]]) + t[i + 1..]
    ensures multiset(s[..|s| - 1]) == multiset(t[..i] + t[i + 1..])
  {
    var n := |s| - 1;
    var x := s[n];
    assert x in multiset(s);
    assert x in t;
    i :| 0 <= i < |t| && t[i] == x;
    WithoutOne(s, n);
    assert s[..n] + s[n + 1..] == s[..n];
    WithoutOne(t, i);
  }

  lemma WithoutOne<V>(s: seq<V>, i: nat)
    requires i < |s|
    ensures s == (s[..i] + [s[i]]) + s[i + 1..]
    ensures multiset(s[..i] + s[i + 1..]) == multiset(s) - multiset{s[i]}
  {
    var a, b := s[..i], s[i + 1..];
    assert s == (a + [s[i]]) + b;
    assert multiset(s) == multiset(a) + multiset{s[i]} + multiset(b);
  }

  /** A sum does not depend on the order of its terms. */
  lemma {:induction false} SeqSumPermutes<V>(s: seq<V>, t: seq<V>, f: V -> real)
    requires multiset(s) == multiset(t)
    ensures SeqSum(s, f) == SeqSum(t, f)
    decreases |s|
  {
    if s == [] {
      assert |t| == |multiset(t)| == 0;
    } else {
      var i := TakeLast(s, t);
      SeqSumPermutes(s[..|s| - 1], t[..i] + t[i + 1..], f);
      SeqSumRemove(t, i, f);
    }
  }

  /** The map's values, listed once per key in any order. */
  ghost predicate Lists<K(!new), V>(m: map<K, V>, keys: seq<K>) {
    && (forall i, j :: 0 <= i < j < |keys| ==> keys[i] != keys[j])
    && (forall k :: k in m <==> k in keys)
  }

  ghost function ValuesOf<K, V>(m: map<K, V>, keys: seq<K>): (r: seq<V>)
    requires forall i :: 0 <= i < |keys| ==> keys[i] in m
    ensures |r| == |keys| && forall i :: 0 <= i < |r| ==> r[i] == m[keys[i]]
  {
    seq(|keys|, i requires 0 <= i < |keys| => m[keys[i]])
  }

  /** Ranging over a map in any order sums to the same value. */
  lemma {:induction false} MapSumListed<K(!new), V>(m: map<K, V>, keys: seq<K>, vs: seq<V>, f: V -> real)
    requires Lists(m, keys) && |vs| == |keys|
    requires forall i :: 0 <= i < |keys| ==> vs[i] == m[keys[i]]
    ensures SeqSum(vs, f) == MapSum(m, f)
    decreases |keys|
  {
    if keys == [] {
      assert forall k :: k !in m;
      assert m == map[];
    } else {
      var n := |keys| - 1;
      var k := keys[n];
      var m' := m - {k};
      forall x ensures x in m' <==> x in keys[..n] {
        if x in m' {
          var i :| 0 <= i < |keys| && keys[i] == x;
          assert keys[..n][i] == x;
        }
        if x in keys[..n] {
          assert x in keys;
        }
      }
      MapSumListed(m', keys[..n], vs[..n], f);
      MapSumRemove(m, f, k);
    }
  }
}
