/** Serialization of a merge state (`ToProto` and `Finish`). Go ranges over its maps in any order, so
    a state has many encodings; `EncodesCombined` holds of exactly those. */
module MergerCodec {
  import opened Histograms
  import opened Models
  import opened Groups
  import opened Sums

  ghost predicate ListedAs<K(!new), M>(g: GroupMap<K, M>, keys: seq<K>, out: seq<Keyed<K, M>>) {
    && Lists(g, keys)
    && |out| == |keys|
    && forall i :: 0 <= i < |keys| ==> out[i] == g[keys[i]]
  }

  ghost predicate EncodesGroups<K(!new), M>(g: GroupMap<K, M>, out: seq<Keyed<K, M>>) {
    exists keys :: ListedAs(g, keys, out)
  }

  ghost predicate EncodesInstance(i: InstanceMetrics, out: PbInstance) {
    && EncodesGroups(i.transactions, out.transactions)
    && EncodesGroups(i.serviceTransactions, out.serviceTransactions)
    && EncodesGroups(i.spans, out.spans)
  }

  /** An overflow pair is written only when its estimator exists. */
  function EncodeBucket<M>(b: Bucket<M>): Bucket<M> {
    if b.estimator.Some? then b else EmptyBucket()
  }

  function EncodeOverflow(o: Overflow): Overflow {
    Overflow(EncodeBucket(o.transactions), EncodeBucket(o.serviceTransactions), EncodeBucket(o.spans))
  }

  ghost function InstanceKeys(s: seq<PbInstance>): (r: seq<InstanceKey>)
    ensures |r| == |s| && forall i :: 0 <= i < |s| ==> r[i] == s[i].key
  {
    seq(|s|, i requires 0 <= i < |s| => s[i].key)
  }

  ghost function ServiceKeys(s: seq<PbService>): (r: seq<ServiceKey>)
    ensures |r| == |s| && forall i :: 0 <= i < |s| ==> r[i] == s[i].key
  {
    seq(|s|, i requires 0 <= i < |s| => s[i].key)
  }

  ghost predicate EncodesInstances(m: map<InstanceKey, InstanceMetrics>, out: seq<PbInstance>) {
    && Lists(m, InstanceKeys(out))
    && forall i :: 0 <= i < |out| ==> out[i].key in m && EncodesInstance(m[out[i].key], out[i])
  }

  ghost predicate EncodesService(s: ServiceMetrics, out: PbService) {
    && EncodesInstances(s.instances, out.instances)
    && out.overflow == Some(EncodeOverflow(s.overflow))
  }

  ghost predicate EncodesServices(m: map<ServiceKey, ServiceMetrics>, out: seq<PbService>) {
    && Lists(m, ServiceKeys(out))
    && forall i :: 0 <= i < |out| ==> out[i].key in m && EncodesService(m[out[i].key], out[i])
  }

  ghost predicate EncodesCombined(cm: CombinedMetrics, out: PbCombined) {
    && EncodesServices(cm.services, out.services)
    && out.estimator == cm.estimator
    && out.overflowServices == (if cm.estimator.Some? then Some(EncodeOverflow(cm.overflowServices)) else None)
    && out.eventsTotal == cm.eventsTotal
    && out.youngest == cm.youngest
  }

  lemma ListsSnoc<K(!new), V>(m: map<K, V>, keys: seq<K>, todo: set<K>, k: K)
    requires todo <= m.Keys && Lists(m - todo, keys) && k in todo
    ensures Lists(m - (todo - {k}), keys + [k])
  {
    var m' := m - (todo - {k});
    assert k !in m - todo;
    forall x
      ensures x in m' <==> x in keys + [k]
    {
      assert x in m' <==> x in m - todo || x == k;
    }
  }

  /** The values of a group map, in whatever order the range statement visits them. */
  method EncodeGroups<K(!new, ==), M>(g: GroupMap<K, M>) returns (out: seq<Keyed<K, M>>)
    ensures EncodesGroups(g, out)
  {
    out := [];
    ghost var keys: seq<K> := [];
    var todo := g.Keys;
    while todo != {}
      invariant todo <= g.Keys
      invariant ListedAs(g - todo, keys, out)
    {
      var k :| k in todo;
      ListsSnoc(g, keys, todo, k);
      out, keys := out + [g[k]], keys + [k];
      todo := todo - {k};
    }
    assert g - {} == g;
    assert ListedAs(g, keys, out);
  }

  method EncodeInstances(m: map<InstanceKey, InstanceMetrics>) returns (out: seq<PbInstance>)
    ensures EncodesInstances(m, out)
  {
    out := [];
    var todo := m.Keys;
    while todo != {}
      invariant todo <= m.Keys
      invariant EncodesInstances(m - todo, out)
    {
      var k :| k in todo;
      ListsSnoc(m, InstanceKeys(out), todo, k);
      var t := EncodeGroups(m[k].transactions);
      var s := EncodeGroups(m[k].serviceTransactions);
      var p := EncodeGroups(m[k].spans);
      var pb := PbInstance(k, t, s, p);
      assert InstanceKeys(out + [pb]) == InstanceKeys(out) + [k];
      out := out + [pb];
      todo := todo - {k};
    }
    assert m - {} == m;
  }

  method EncodeServices(m: map<ServiceKey, ServiceMetrics>) returns (out: seq<PbService>)
    ensures EncodesServices(m, out)
  {
    out := [];
    var todo := m.Keys;
    while todo != {}
      invariant todo <= m.Keys
      invariant EncodesServices(m - todo, out)
    {
      var k :| k in todo;
      ListsSnoc(m, ServiceKeys(out), todo, k);
      var instances := EncodeInstances(m[k].instances);
      var pb := PbService(k, instances, Some(EncodeOverflow(m[k].overflow)));
      assert ServiceKeys(out + [pb]) == ServiceKeys(out) + [k];
      out := out + [pb];
      todo := todo - {k};
    }
    assert m - {} == m;
  }

  /** `combinedMetrics.ToProto`. */
  method ToProto(cm: CombinedMetrics) returns (out: PbCombined)
    ensures EncodesCombined(cm, out)
  {
    var services := EncodeServices(cm.services);
    out := PbCombined(services, None, None, cm.eventsTotal, cm.youngest);
    if cm.estimator.Some? {
      out := out.(overflowServices := Some(EncodeOverflow(cm.overflowServices)), estimator := cm.estimator);
    }
  }
}
