/** The counts of events that were aggregated but not harvested yet, as scaled integers. */
module CachedEvents {
  import opened AggregatorSpec

  const SCALE := 65535   // math.MaxUint16, the maximum number of partitions

  type Id = seq<int>

  datatype StatsKey = StatsKey(interval: nat, id: Id)

  /** A call that changed the map. */
  datatype Call = Add(key: StatsKey, n: real) | Load(end: nat)

  /** `uint64(n * math.MaxUint16)`. */
  function Scaled(n: real): int {
    (n * SCALE as real).Floor
  }

  /** What was added to `key` since it was last loaded. */
  ghost function Since(calls: seq<Call>, key: StatsKey): seq<real> {
    if calls == [] then []
    else
      var before := Since(calls[..|calls| - 1], key);
      match calls[|calls| - 1]
      case Add(k, n) => if k == key then before + [n] else before
      case Load(end) => if Aligned(end, key.interval) then [] else before
  }

  ghost function Total(ns: seq<real>): real {
    if ns == [] then 0.0 else Total(ns[..|ns| - 1]) + ns[|ns| - 1]
  }

  ghost function TotalScaled(ns: seq<real>): int {
    if ns == [] then 0 else TotalScaled(ns[..|ns| - 1]) + Scaled(ns[|ns| - 1])
  }

  ghost predicate NonNegative(ns: seq<real>) {
    forall i :: 0 <= i < |ns| ==> ns[i] >= 0.0
  }

  /** Each addition loses less than one scaled unit. */
  lemma {:induction false} ScaledClose(ns: seq<real>)
    ensures TotalScaled(ns) as real <= Total(ns) * SCALE as real
    ensures Total(ns) * SCALE as real <= TotalScaled(ns) as real + |ns| as real
    ensures ns != [] ==> Total(ns) * SCALE as real < TotalScaled(ns) as real + |ns| as real
    ensures NonNegative(ns) ==> TotalScaled(ns) >= 0
  {
    if ns != [] {
      ScaledClose(ns[..|ns| - 1]);
    }
  }

  /** The loaded value is at most the sum added, and falls short of it by less than one event plus one
      part in 65535 per addition. */
  lemma {:induction false} LoadedClose(ns: seq<real>)
    requires ns != []
    ensures var value := (TotalScaled(ns) / SCALE) as real;
            value <= Total(ns) && value > Total(ns) - 1.0 - |ns| as real / 65535.0
  {
    ScaledClose(ns);
    var t := TotalScaled(ns);
    var q := t / SCALE;
    assert q * SCALE <= t <= q * SCALE + SCALE - 1;
    var x := Total(ns);
    assert (q * SCALE) as real <= x * 65535.0;
    assert x * 65535.0 < (q * SCALE + SCALE + |ns|) as real;
  }

  ghost predicate Whole(n: real) {
    n.Floor as real == n
  }

  lemma {:induction false} WholeScaled(ns: seq<real>)
    requires forall i :: 0 <= i < |ns| ==> Whole(ns[i])
    ensures Whole(Total(ns)) && TotalScaled(ns) == Total(ns).Floor * SCALE
  {
    if ns != [] {
      var init, last := ns[..|ns| - 1], ns[|ns| - 1];
      WholeScaled(init);
      assert Whole(last);
      hide Whole, Scaled;
      WholeAdds(Total(init), last);
      WholeScales(last);
    }
  }

  lemma WholeAdds(a: real, b: real)
    requires Whole(a) && Whole(b)
    ensures Whole(a + b) && (a + b).Floor == a.Floor + b.Floor
  {
    assert a + b == (a.Floor + b.Floor) as real;
  }

  lemma WholeScales(n: real)
    requires Whole(n)
    ensures Scaled(n) == n.Floor * SCALE
  {
    assert n * SCALE as real == (n.Floor * SCALE) as real;
  }

  /** Whole additions are loaded exactly. */
  lemma {:induction false} LoadedExact(ns: seq<real>)
    requires forall i :: 0 <= i < |ns| ==> Whole(ns[i])
    ensures (TotalScaled(ns) / SCALE) as real == Total(ns)
  {
    WholeScaled(ns);
  }

  /** One loaded value, in the inner map of its interval, which is made when it is missing. */
  function Stored(loaded: map<nat, map<Id, int>>, key: StatsKey, value: int): (r: map<nat, map<Id, int>>)
    ensures forall ivl, id :: (ivl in r && id in r[ivl])
                              <==> (ivl in loaded && id in loaded[ivl]) || StatsKey(ivl, id) == key
    ensures forall ivl, id :: ivl in r && id in r[ivl] ==>
                                r[ivl][id] == if StatsKey(ivl, id) == key then value else loaded[ivl][id]
    ensures (forall ivl :: ivl in loaded ==> |loaded[ivl]| > 0) ==> forall ivl :: ivl in r ==> |r[ivl]| > 0
  {
    var intervalMetrics := if key.interval in loaded then loaded[key.interval] else map[];
    var added := intervalMetrics[key.id := value];
    assert key.id in added;
    loaded[key.interval := added]
  }

  class CachedEventsMap {
    var m: map<StatsKey, int>
    ghost var calls: seq<Call>

    constructor ()
      ensures Valid() && calls == []
    {
      m, calls := map[], [];
    }

    /** The map holds, for every key added to since its last load, the scaled sum of those additions. */
    ghost predicate Valid()
      reads this
    {
      && (forall k :: k in m <==> Since(calls, k) != [])
      && (forall k :: k in m ==> m[k] == TotalScaled(Since(calls, k)))
    }

    method Add(interval: nat, id: Id, n: real)
      requires Valid() && n >= 0.0
      modifies this
      ensures Valid() && calls == old(calls) + [Call.Add(StatsKey(interval, id), n)]
    {
      var nscaled := Scaled(n);
      var key := StatsKey(interval, id);
      ghost var next := calls + [Call.Add(key, n)];
      assert next[..|calls|] == calls;
      assert forall k :: Since(next, k) == if k == key then Since(calls, k) + [n] else Since(calls, k);
      TotalSnoc(Since(calls, key), n);
      calls := next;
      if key !in m {
        m := m[key := nscaled];
        return;
      }
      m := m[key := m[key] + nscaled];
    }

    /** Exactly the intervals that divide `end` are loaded and cleared, each with the value of the
        additions since its last load. */
    method LoadAndDelete(end: nat) returns (loaded: map<nat, map<Id, int>>)
      requires Valid()
      modifies this
      ensures Valid() && calls == old(calls) + [Load(end)]
      ensures forall ivl :: ivl in loaded ==> |loaded[ivl]| > 0
      ensures forall ivl, id :: (ivl in loaded && id in loaded[ivl])
                                <==> Aligned(end, ivl) && Since(old(calls), StatsKey(ivl, id)) != []
      ensures forall ivl, id :: ivl in loaded && id in loaded[ivl] ==>
                                  loaded[ivl][id] == TotalScaled(Since(old(calls), StatsKey(ivl, id))) / SCALE
    {
      hide Since, TotalScaled, Aligned, Stored;
      loaded := map[];
      var rest := m.Keys;
      while rest != {}
        invariant rest <= old(m).Keys && calls == old(calls)
        invariant forall k :: k in m <==> k in old(m) && (k in rest || !Aligned(end, k.interval))
        invariant forall k :: k in m ==> m[k] == old(m)[k]
        invariant forall ivl :: ivl in loaded ==> |loaded[ivl]| > 0
        invariant forall ivl, id :: (ivl in loaded && id in loaded[ivl])
                                    <==> StatsKey(ivl, id) in old(m).Keys - rest && Aligned(end, ivl)
        invariant forall ivl, id :: ivl in loaded && id in loaded[ivl] ==>
                                      loaded[ivl][id] == old(m)[StatsKey(ivl, id)] / SCALE
        decreases rest
      {
        var key :| key in rest;
        rest := rest - {key};
        if !Aligned(end, key.interval) {
          continue;
        }
        loaded := Stored(loaded, key, m[key] / SCALE);
        m := m - {key};
      }
      SinceLoad(calls, end);
      calls := calls + [Load(end)];
    }
  }

  lemma TotalSnoc(ns: seq<real>, n: real)
    ensures TotalScaled(ns + [n]) == TotalScaled(ns) + Scaled(n)
    ensures TotalScaled([n]) == Scaled(n)
  {
    assert (ns + [n])[..|ns|] == ns;
    assert [n][..0] == [];
  }

  lemma SinceLoad(calls: seq<Call>, end: nat)
    ensures forall k :: Since(calls + [Load(end)], k) == if Aligned(end, k.interval) then [] else Since(calls, k)
  {
    assert (calls + [Load(end)])[..|calls|] == calls;
  }
}
