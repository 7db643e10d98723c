/** The limits hold in every state of every merger, and the global constraint counters are exact. */
module MergerLimits {
  import opened Models
  import opened Sums
  import opened Groups
  import opened MergerSpec
  import opened MergerCodec

  datatype Kind = Transactions | ServiceTransactions | Spans

  ghost function InstanceSize(kind: Kind): InstanceMetrics -> int {
    (i: InstanceMetrics) =>
      match kind
      case Transactions => |i.transactions|
      case ServiceTransactions => |i.serviceTransactions|
      case Spans => |i.spans|
  }

  ghost function ServiceSize(kind: Kind): ServiceMetrics -> int {
    (s: ServiceMetrics) => MapCount(s.instances, InstanceSize(kind))
  }

  /** The number of groups of a kind stored across all services and instances. */
  ghost function Stored(kind: Kind, cm: CombinedMetrics): int {
    MapCount(cm.services, ServiceSize(kind))
  }

  ghost function CounterOf(kind: Kind, c: Counters): int {
    match kind
    case Transactions => c.transactions
    case ServiceTransactions => c.serviceTransactions
    case Spans => c.spans
  }

  function GlobalLimit(kind: Kind, limits: Limits): nat {
    match kind
    case Transactions => limits.maxTransactions
    case ServiceTransactions => limits.maxServiceTransactions
    case Spans => limits.maxSpans
  }

  /** Each kind within its per-instance limit, half of the span groups at most with a span name, and
      every group stored under the key it carries. */
  ghost predicate InstanceWithin(limits: Limits, i: InstanceMetrics) {
    && |i.transactions| <= limits.maxTransactionsPerInstance
    && |i.serviceTransactions| <= limits.maxServiceTransactionsPerInstance
    && |i.spans| <= limits.maxSpansPerInstance
    && |Named(i.spans)| <= limits.maxSpansPerInstance / 2
    && KeysEmbedded(i.transactions) && KeysEmbedded(i.serviceTransactions) && KeysEmbedded(i.spans)
  }

  ghost predicate ServiceWithin(limits: Limits, s: ServiceMetrics) {
    && |s.instances| <= limits.maxInstancesPerService
    && forall k :: k in s.instances ==> InstanceWithin(limits, s.instances[k])
  }

  ghost predicate ServicesWithin(limits: Limits, cm: CombinedMetrics) {
    && |cm.services| <= limits.maxServices
    && forall k :: k in cm.services ==> ServiceWithin(limits, cm.services[k])
  }

  /** The counter of each kind equals the number of stored groups and respects the global limit. */
  ghost predicate CountersExact(limits: Limits, st: MergerState) {
    forall kind :: CounterOf(kind, st.counters) == Stored(kind, st.metrics) <= GlobalLimit(kind, limits)
  }

  lemma MergeInstanceWithin(limits: Limits, d: Digest, st: InstanceState, from: PbInstance, kind: Kind)
    requires InstanceWithin(limits, st.instance)
    ensures var r := MergeInstance(limits, d, st, from);
            && InstanceWithin(limits, r.instance)
            && CounterOf(kind, r.counters) - CounterOf(kind, st.counters)
               == InstanceSize(kind)(r.instance) - InstanceSize(kind)(st.instance)
            && (CounterOf(kind, st.counters) <= GlobalLimit(kind, limits) ==>
                  CounterOf(kind, r.counters) <= GlobalLimit(kind, limits))
  {
    var p := GroupState(st.instance.spans, st.counters.spans, st.overflow.spans);
    MergeGroupsKeeps(TransactionRule(limits, d),
                     GroupState(st.instance.transactions, st.counters.transactions, st.overflow.transactions), from.transactions);
    MergeGroupsKeeps(ServiceTransactionRule(limits, d),
                     GroupState(st.instance.serviceTransactions, st.counters.serviceTransactions, st.overflow.serviceTransactions),
                     from.serviceTransactions);
    MergeGroupsKeeps(SpanRule(limits, d), p, from.spans);
    NamedSpansBounded(limits, d, p, from.spans);
  }

  lemma EmptyInstanceWithin(limits: Limits, kind: Kind)
    ensures InstanceWithin(limits, EmptyInstance) && InstanceSize(kind)(EmptyInstance) == 0
  {
    assert Named(EmptyInstance.spans) == {};
  }

  lemma StoreInstanceWithin(limits: Limits, s: ServiceMetrics, k: InstanceKey, i: InstanceMetrics, o: Overflow, kind: Kind)
    requires ServiceWithin(limits, s) && HasRoomForInstance(limits, s, k) && InstanceWithin(limits, i)
    ensures var r := ServiceMetrics(s.instances[k := i], o);
            && ServiceWithin(limits, r)
            && ServiceSize(kind)(r) - ServiceSize(kind)(s) == InstanceSize(kind)(i) - InstanceSize(kind)(InstanceOf(s, k))
  {
    hide MapCount, InstanceWithin;
    MapCountStore(s.instances, InstanceSize(kind), k, i);
  }

  lemma MergeServiceInstanceWithin(limits: Limits, d: Digest, st: ServiceState, from: PbInstance, kind: Kind)
    requires ServiceWithin(limits, st.service)
    ensures var r := MergeServiceInstance(limits, d, st, from);
            && ServiceWithin(limits, r.service)
            && CounterOf(kind, r.counters) - CounterOf(kind, st.counters)
               == ServiceSize(kind)(r.service) - ServiceSize(kind)(st.service)
            && (CounterOf(kind, st.counters) <= GlobalLimit(kind, limits) ==>
                  CounterOf(kind, r.counters) <= GlobalLimit(kind, limits))
  {
    hide MapCount, MergeInstance, InstanceWithin, InstanceSize, DivertInstance;
    if HasRoomForInstance(limits, st.service, from.key) {
      var ist := InstanceState(InstanceOf(st.service, from.key), st.service.overflow, st.counters);
      EmptyInstanceWithin(limits, kind);
      MergeInstanceWithin(limits, d, ist, from, kind);
      var r := MergeInstance(limits, d, ist, from);
      StoreInstanceWithin(limits, st.service, from.key, r.instance, r.overflow, kind);
    }
  }

  lemma {:induction false} MergeInstancesWithin(limits: Limits, d: Digest, st: ServiceState, from: seq<PbInstance>, kind: Kind)
    requires ServiceWithin(limits, st.service)
    ensures var r := MergeInstances(limits, d, st, from);
            && ServiceWithin(limits, r.service)
            && CounterOf(kind, r.counters) - CounterOf(kind, st.counters)
               == ServiceSize(kind)(r.service) - ServiceSize(kind)(st.service)
            && (CounterOf(kind, st.counters) <= GlobalLimit(kind, limits) ==>
                  CounterOf(kind, r.counters) <= GlobalLimit(kind, limits))
  {
    if from != [] {
      var n := |from| - 1;
      MergeInstancesWithin(limits, d, st, from[..n], kind);
      MergeServiceInstanceWithin(limits, d, MergeInstances(limits, d, st, from[..n]), from[n], kind);
    }
  }

  lemma MergeServiceWithin(limits: Limits, st: MergerState, from: PbService, kind: Kind)
    requires ServicesWithin(limits, st.metrics)
    ensures var r := MergeService(limits, st, from);
            && ServicesWithin(limits, r.metrics)
            && CounterOf(kind, r.counters) - CounterOf(kind, st.counters) == Stored(kind, r.metrics) - Stored(kind, st.metrics)
            && (CounterOf(kind, st.counters) <= GlobalLimit(kind, limits) ==>
                  CounterOf(kind, r.counters) <= GlobalLimit(kind, limits))
  {
    var cm := st.metrics;
    if HasRoomForService(limits, cm, from.key) {
      var svc := ServiceOf(cm, from.key);
      var sst := ServiceState(svc.(overflow := MergeOverflow(svc.overflow, from.overflow)), st.counters, cm.estimator);
      MergeInstancesWithin(limits, ServiceDigest(from.key), sst, from.instances, kind);
      MapCountStore(cm.services, ServiceSize(kind), from.key,
                    MergeInstances(limits, ServiceDigest(from.key), sst, from.instances).service);
      assert ServiceSize(kind)(EmptyService) == 0;
    }
  }

  lemma {:induction false} MergeServicesWithin(limits: Limits, st: MergerState, from: seq<PbService>, kind: Kind)
    requires ServicesWithin(limits, st.metrics)
    ensures var r := MergeServices(limits, st, from);
            && ServicesWithin(limits, r.metrics)
            && CounterOf(kind, r.counters) - CounterOf(kind, st.counters) == Stored(kind, r.metrics) - Stored(kind, st.metrics)
            && (CounterOf(kind, st.counters) <= GlobalLimit(kind, limits) ==>
                  CounterOf(kind, r.counters) <= GlobalLimit(kind, limits))
  {
    if from != [] {
      var n := |from| - 1;
      MergeServicesWithin(limits, st, from[..n], kind);
      MergeServiceWithin(limits, MergeServices(limits, st, from[..n]), from[n], kind);
    }
  }

  /** One message keeps every limit and the exactness of the counters. */
  lemma {:induction false} MergeMessageWithin(limits: Limits, st: MergerState, from: PbCombined)
    requires ServicesWithin(limits, st.metrics) && CountersExact(limits, st)
    ensures var r := MergeMessage(limits, st, from);
            ServicesWithin(limits, r.metrics) && CountersExact(limits, r)
  {
    var h := st.(metrics := MergeHeader(st.metrics, from));
    assert h.metrics.services == st.metrics.services;
    MergeServicesWithin(limits, h, from.services, Transactions);
    var r := MergeMessage(limits, st, from);
    forall kind
      ensures CounterOf(kind, r.counters) == Stored(kind, r.metrics) <= GlobalLimit(kind, limits)
    {
      assert CounterOf(kind, st.counters) == Stored(kind, st.metrics);
      MergeServicesWithin(limits, h, from.services, kind);
    }
  }

  /** Every state of every merger started from empty is within all limits, with exact counters. */
  lemma {:induction false} MergeAllWithin(limits: Limits, from: seq<PbCombined>)
    ensures ServicesWithin(limits, MergeAll(limits, from).metrics)
    ensures CountersExact(limits, MergeAll(limits, from))
  {
    if from == [] {
      assert forall kind :: CounterOf(kind, EmptyMerger.counters) == Stored(kind, EmptyMerger.metrics);
    } else {
      var n := |from| - 1;
      MergeAllWithin(limits, from[..n]);
      MergeMessageWithin(limits, MergeAll(limits, from[..n]), from[n]);
    }
  }

  /** Emitting only the values of a group map never emits two groups with the same key. */
  lemma {:induction false} EncodedKeysDistinct<K(!new), M>(g: GroupMap<K, M>, out: seq<Keyed<K, M>>)
    requires KeysEmbedded(g) && EncodesGroups(g, out)
    ensures forall i, j :: 0 <= i < j < |out| ==> out[i].key != out[j].key
    ensures forall k :: k in g <==> exists i :: 0 <= i < |out| && out[i].key == k
  {
    var keys :| ListedAs(g, keys, out);
    forall i | 0 <= i < |out|
      ensures out[i].key == keys[i]
    {
      assert keys[i] in keys;
    }
    forall k
      ensures k in g <==> exists i :: 0 <= i < |out| && out[i].key == k
    {
      if k in g {
        var i :| 0 <= i < |keys| && keys[i] == k;
        assert out[i].key == k;
      }
    }
  }
}
