/** No event is lost or counted twice by merging, whatever the limits, the order of the operands
    and the bracketing, with a serialization round trip at every inner node of the merge tree. */
module MergerTotals {
  import opened Histograms
  import opened Models
  import opened Sums
  import opened Groups
  import opened MergerSpec
  import opened MergerCodec

  /** The totals that a merge must not change. */
  datatype Quantity =
    | EventsTotal
    | TransactionsIn(bucket: int)
    | ServiceTransactionsIn(bucket: int)
    | Failures
    | Successes
    | SpanCount
    | SpanSum

  // ----- what a value contributes to a quantity

  ghost function HistogramMass(h: Option<Histogram>, bucket: int): real {
    if h.Some? then CountAt(h.value, bucket) as real else 0.0
  }

  ghost function TransactionMass(q: Quantity): TransactionMetrics -> real {
    (m: TransactionMetrics) => if q.TransactionsIn? then HistogramMass(m.histogram, q.bucket) else 0.0
  }

  ghost function ServiceTransactionMass(q: Quantity): ServiceTransactionMetrics -> real {
    (m: ServiceTransactionMetrics) =>
      match q
      case ServiceTransactionsIn(b) => HistogramMass(m.histogram, b)
      case Failures => m.failureCount
      case Successes => m.successCount
      case _ => 0.0
  }

  ghost function SpanMass(q: Quantity): SpanMetrics -> real {
    (m: SpanMetrics) =>
      match q
      case SpanCount => m.count
      case SpanSum => m.sum
      case _ => 0.0
  }

  ghost function OverflowMass(q: Quantity, o: Overflow): real {
    BucketMass(o.transactions, TransactionMass(q))
    + BucketMass(o.serviceTransactions, ServiceTransactionMass(q))
    + BucketMass(o.spans, SpanMass(q))
  }

  ghost function OptionalOverflowMass(q: Quantity, o: Option<Overflow>): real {
    if o.Some? then OverflowMass(q, o.value) else 0.0
  }

  ghost function InstanceMass(q: Quantity): InstanceMetrics -> real {
    (i: InstanceMetrics) =>
      MapSum(i.transactions, OfKeyed<TransactionKey, TransactionMetrics>(TransactionMass(q)))
      + MapSum(i.serviceTransactions, OfKeyed<ServiceTransactionKey, ServiceTransactionMetrics>(ServiceTransactionMass(q)))
      + MapSum(i.spans, OfKeyed<SpanKey, SpanMetrics>(SpanMass(q)))
  }

  ghost function ServiceMass(q: Quantity): ServiceMetrics -> real {
    (s: ServiceMetrics) => MapSum(s.instances, InstanceMass(q)) + OverflowMass(q, s.overflow)
  }

  /** The total of a quantity over kept groups and all overflow buckets of a merge state. */
  ghost function Total(q: Quantity, cm: CombinedMetrics): real {
    (if q.EventsTotal? then cm.eventsTotal else 0.0)
    + MapSum(cm.services, ServiceMass(q)) + OverflowMass(q, cm.overflowServices)
  }

  ghost function PbInstanceMass(q: Quantity): PbInstance -> real {
    (i: PbInstance) =>
      SeqSum(i.transactions, OfKeyed<TransactionKey, TransactionMetrics>(TransactionMass(q)))
      + SeqSum(i.serviceTransactions, OfKeyed<ServiceTransactionKey, ServiceTransactionMetrics>(ServiceTransactionMass(q)))
      + SeqSum(i.spans, OfKeyed<SpanKey, SpanMetrics>(SpanMass(q)))
  }

  ghost function PbServiceMass(q: Quantity): PbService -> real {
    (s: PbService) => SeqSum(s.instances, PbInstanceMass(q)) + OptionalOverflowMass(q, s.overflow)
  }

  /** The total of a quantity in a message. */
  ghost function PbTotal(q: Quantity): PbCombined -> real {
    (pb: PbCombined) =>
      (if q.EventsTotal? then pb.eventsTotal else 0.0)
      + SeqSum(pb.services, PbServiceMass(q)) + OptionalOverflowMass(q, pb.overflowServices)
  }

  lemma MassesAreAdditive(q: Quantity)
    ensures Additive(TransactionOps, TransactionMass(q))
    ensures Additive(ServiceTransactionOps, ServiceTransactionMass(q))
    ensures Additive(SpanOps, SpanMass(q))
  {
  }

  // ----- merge states and messages that serialize without loss

  ghost predicate PairedOverflow(o: Overflow) {
    Paired(o.transactions) && Paired(o.serviceTransactions) && Paired(o.spans)
  }

  ghost predicate PairedServices(s: seq<PbService>) {
    forall i :: 0 <= i < |s| && s[i].overflow.Some? ==> PairedOverflow(s[i].overflow.value)
  }

  ghost predicate NoOverflow(o: Option<Overflow>) {
    o == None || o == Some(EmptyOverflow)
  }

  ghost predicate SealedService(s: ServiceMetrics, estimator: Option<Sketch>) {
    && PairedOverflow(s.overflow)
    && (estimator.None? && s.instances == map[] ==> s.overflow == EmptyOverflow)
  }

  /** Non-empty overflow services, or a service with overflow and no instance, imply that the
      service instance estimator exists; and every overflow bucket has metrics exactly when it has
      an estimator. */
  ghost predicate Sealed(cm: CombinedMetrics) {
    && PairedOverflow(cm.overflowServices)
    && (cm.estimator.None? ==> cm.overflowServices == EmptyOverflow)
    && forall k :: k in cm.services ==> SealedService(cm.services[k], cm.estimator)
  }

  ghost predicate SealedPbService(s: PbService, estimator: Option<Sketch>) {
    && (s.overflow.Some? ==> PairedOverflow(s.overflow.value))
    && (estimator.None? && s.instances == [] ==> NoOverflow(s.overflow))
  }

  ghost predicate SealedPb(pb: PbCombined) {
    && (pb.overflowServices.Some? ==> PairedOverflow(pb.overflowServices.value))
    && (pb.estimator.None? ==> NoOverflow(pb.overflowServices))
    && forall i :: 0 <= i < |pb.services| ==> SealedPbService(pb.services[i], pb.estimator)
  }

  // ----- one merge

  lemma {:induction false} MergeOverflowConserves(q: Quantity, to: Overflow, from: Option<Overflow>)
    requires PairedOverflow(to) && (from.Some? ==> PairedOverflow(from.value))
    ensures OverflowMass(q, MergeOverflow(to, from)) == OverflowMass(q, to) + OptionalOverflowMass(q, from)
    ensures PairedOverflow(MergeOverflow(to, from))
    ensures NoOverflow(from) ==> MergeOverflow(to, from) == to
  {
    MassesAreAdditive(q);
  }

  lemma DivertInstanceConserves(q: Quantity, limits: Limits, to: Overflow, from: PbInstance, d: Digest)
    requires PairedOverflow(to)
    ensures OverflowMass(q, DivertInstance(limits, to, from, d)) == OverflowMass(q, to) + PbInstanceMass(q)(from)
    ensures PairedOverflow(DivertInstance(limits, to, from, d))
  {
    MassesAreAdditive(q);
    DivertAllConserves(TransactionRule(limits, d), TransactionMass(q), to.transactions, from.transactions);
    DivertAllConserves(ServiceTransactionRule(limits, d), ServiceTransactionMass(q), to.serviceTransactions, from.serviceTransactions);
    DivertAllConserves(SpanRule(limits, d), SpanMass(q), to.spans, from.spans);
    DivertAllKeeps(TransactionRule(limits, d), to.transactions, from.transactions);
    DivertAllKeeps(ServiceTransactionRule(limits, d), to.serviceTransactions, from.serviceTransactions);
    DivertAllKeeps(SpanRule(limits, d), to.spans, from.spans);
  }

  lemma MergeInstanceConserves(q: Quantity, limits: Limits, d: Digest, st: InstanceState, from: PbInstance)
    requires PairedOverflow(st.overflow)
    ensures var r := MergeInstance(limits, d, st, from);
            && InstanceMass(q)(r.instance) + OverflowMass(q, r.overflow)
               == InstanceMass(q)(st.instance) + OverflowMass(q, st.overflow) + PbInstanceMass(q)(from)
            && PairedOverflow(r.overflow)
  {
    MassesAreAdditive(q);
    var t := GroupState(st.instance.transactions, st.counters.transactions, st.overflow.transactions);
    var s := GroupState(st.instance.serviceTransactions, st.counters.serviceTransactions, st.overflow.serviceTransactions);
    var p := GroupState(st.instance.spans, st.counters.spans, st.overflow.spans);
    MergeGroupsConserves(TransactionRule(limits, d), TransactionMass(q), t, from.transactions);
    MergeGroupsConserves(ServiceTransactionRule(limits, d), ServiceTransactionMass(q), s, from.serviceTransactions);
    MergeGroupsConserves(SpanRule(limits, d), SpanMass(q), p, from.spans);
    MergeGroupsKeeps(TransactionRule(limits, d), t, from.transactions);
    MergeGroupsKeeps(ServiceTransactionRule(limits, d), s, from.serviceTransactions);
    MergeGroupsKeeps(SpanRule(limits, d), p, from.spans);
  }

  /** A service after merging instances: nothing lost, and it has an instance or the estimator exists. */
  ghost predicate Kept(st: ServiceState, r: ServiceState) {
    && PairedOverflow(r.service.overflow)
    && (st.estimator.Some? ==> r.estimator.Some?)
    && (st.service.instances != map[] ==> r.service.instances != map[])
  }

  lemma MergeServiceInstanceConserves(q: Quantity, limits: Limits, d: Digest, st: ServiceState, from: PbInstance)
    requires PairedOverflow(st.service.overflow)
    ensures var r := MergeServiceInstance(limits, d, st, from);
            && ServiceMass(q)(r.service) == ServiceMass(q)(st.service) + PbInstanceMass(q)(from)
            && Kept(st, r)
            && (r.service.instances != map[] || r.estimator.Some?)
  {
    var r := MergeServiceInstance(limits, d, st, from);
    if HasRoomForInstance(limits, st.service, from.key) {
      var ist := InstanceState(InstanceOf(st.service, from.key), st.service.overflow, st.counters);
      MergeInstanceConserves(q, limits, d, ist, from);
      var i := MergeInstance(limits, d, ist, from).instance;
      MapSumStore(st.service.instances, InstanceMass(q), from.key, i);
      assert from.key in r.service.instances;
      assert InstanceMass(q)(EmptyInstance) == 0.0;
    } else {
      DivertInstanceConserves(q, limits, st.service.overflow, from, InstanceDigest(d, from.key));
    }
  }

  lemma {:induction false} MergeInstancesConserves(q: Quantity, limits: Limits, d: Digest, st: ServiceState, from: seq<PbInstance>)
    requires PairedOverflow(st.service.overflow)
    ensures var r := MergeInstances(limits, d, st, from);
            && ServiceMass(q)(r.service) == ServiceMass(q)(st.service) + SeqSum(from, PbInstanceMass(q))
            && Kept(st, r)
            && (from != [] ==> r.service.instances != map[] || r.estimator.Some?)
  {
    if from != [] {
      var n := |from| - 1;
      MergeInstancesConserves(q, limits, d, st, from[..n]);
      MergeServiceInstanceConserves(q, limits, d, MergeInstances(limits, d, st, from[..n]), from[n]);
    }
  }

  lemma {:induction false} DivertInstancesConserves(q: Quantity, limits: Limits, d: Digest, st: OverflowState, from: seq<PbInstance>)
    requires PairedOverflow(st.overflow)
    ensures var r := DivertInstances(limits, d, st, from);
            && OverflowMass(q, r.overflow) == OverflowMass(q, st.overflow) + SeqSum(from, PbInstanceMass(q))
            && PairedOverflow(r.overflow)
            && (st.estimator.Some? || from != [] ==> r.estimator.Some?)
            && (from == [] ==> r == st)
  {
    if from != [] {
      var n := |from| - 1;
      DivertInstancesConserves(q, limits, d, st, from[..n]);
      var p := DivertInstances(limits, d, st, from[..n]);
      DivertInstanceConserves(q, limits, p.overflow, from[n], InstanceDigest(d, from[n].key));
    }
  }

  /** A service that is kept: stored under its key, sealed, and nothing lost. */
  lemma KeepServiceConserves(q: Quantity, limits: Limits, counters: Counters, svc: ServiceMetrics, estimator: Option<Sketch>, from: PbService)
    requires SealedService(svc, estimator) && SealedPbService(from, estimator)
    ensures var st := ServiceState(svc.(overflow := MergeOverflow(svc.overflow, from.overflow)), counters, estimator);
            var r := MergeInstances(limits, ServiceDigest(from.key), st, from.instances);
            && ServiceMass(q)(r.service) == ServiceMass(q)(svc) + PbServiceMass(q)(from)
            && SealedService(r.service, r.estimator)
            && (estimator.Some? ==> r.estimator.Some?)
  {
    MergeOverflowConserves(q, svc.overflow, from.overflow);
    var st := ServiceState(svc.(overflow := MergeOverflow(svc.overflow, from.overflow)), counters, estimator);
    MergeInstancesConserves(q, limits, ServiceDigest(from.key), st, from.instances);
  }

  lemma SealedMonotone(s: ServiceMetrics, e: Option<Sketch>, e': Option<Sketch>)
    requires SealedService(s, e) && (e.Some? ==> e'.Some?)
    ensures SealedService(s, e')
  {
  }

  lemma {:induction false} MergeServiceConserves(q: Quantity, limits: Limits, st: MergerState, from: PbService)
    requires Sealed(st.metrics) && SealedPbService(from, st.metrics.estimator)
    ensures var r := MergeService(limits, st, from);
            && Total(q, r.metrics) == Total(q, st.metrics) + PbServiceMass(q)(from)
            && Sealed(r.metrics)
            && (st.metrics.estimator.Some? ==> r.metrics.estimator.Some?)
  {
    if HasRoomForService(limits, st.metrics, from.key) {
      KeptServiceConserves(q, limits, st, from);
    } else {
      DivertedServiceConserves(q, limits, st, from);
    }
  }

  lemma EmptySum<K, V>(f: V -> real)
    ensures MapSum<K, V>(map[], f) == 0.0
  {
  }

  lemma EmptyOverflowPaired()
    ensures PairedOverflow(EmptyOverflow)
  {
  }

  lemma EmptyOverflowWeighsNothing(q: Quantity)
    ensures OverflowMass(q, EmptyOverflow) == 0.0
  {
  }

  lemma KeptServiceConserves(q: Quantity, limits: Limits, st: MergerState, from: PbService)
    requires Sealed(st.metrics) && SealedPbService(from, st.metrics.estimator)
    requires HasRoomForService(limits, st.metrics, from.key)
    ensures var r := MergeService(limits, st, from);
            && Total(q, r.metrics) == Total(q, st.metrics) + PbServiceMass(q)(from)
            && Sealed(r.metrics)
            && (st.metrics.estimator.Some? ==> r.metrics.estimator.Some?)
  {
    hide MergeInstances, MergeOverflow, MapSum, PairedOverflow;
    var cm := st.metrics;
    var svc := ServiceOf(cm, from.key);
    assert MapSum(EmptyService.instances, InstanceMass(q)) == 0.0 by { EmptySum<InstanceKey, InstanceMetrics>(InstanceMass(q)); }
    EmptyOverflowPaired();
    assert SealedService(svc, cm.estimator);
    KeepServiceConserves(q, limits, st.counters, svc, cm.estimator, from);
    var sst := ServiceState(svc.(overflow := MergeOverflow(svc.overflow, from.overflow)), st.counters, cm.estimator);
    var sr := MergeInstances(limits, ServiceDigest(from.key), sst, from.instances);
    MapSumStore(cm.services, ServiceMass(q), from.key, sr.service);
    assert ServiceMass(q)(EmptyService) == 0.0;
    var services' := cm.services[from.key := sr.service];
    forall k | k in services'
      ensures SealedService(services'[k], sr.estimator)
    {
      if k != from.key {
        SealedMonotone(cm.services[k], cm.estimator, sr.estimator);
      }
    }
  }

  lemma DivertedServiceConserves(q: Quantity, limits: Limits, st: MergerState, from: PbService)
    requires Sealed(st.metrics) && SealedPbService(from, st.metrics.estimator)
    requires !HasRoomForService(limits, st.metrics, from.key)
    ensures var r := MergeService(limits, st, from);
            && Total(q, r.metrics) == Total(q, st.metrics) + PbServiceMass(q)(from)
            && Sealed(r.metrics)
            && (st.metrics.estimator.Some? ==> r.metrics.estimator.Some?)
  {
    hide DivertInstances, MergeOverflow, MapSum, PairedOverflow, OverflowMass;
    EmptyOverflowPaired();
    assert OverflowMass(q, EmptyOverflow) == 0.0 by { EmptyOverflowWeighsNothing(q); }
    var cm := st.metrics;
    MergeOverflowConserves(q, cm.overflowServices, from.overflow);
    var ost := OverflowState(MergeOverflow(cm.overflowServices, from.overflow), cm.estimator);
    DivertInstancesConserves(q, limits, ServiceDigest(from.key), ost, from.instances);
    var r := DivertInstances(limits, ServiceDigest(from.key), ost, from.instances);
    forall k | k in cm.services
      ensures SealedService(cm.services[k], r.estimator)
    {
      SealedMonotone(cm.services[k], cm.estimator, r.estimator);
    }
  }

  ghost predicate AllSealedServices(s: seq<PbService>, estimator: Option<Sketch>) {
    forall i :: 0 <= i < |s| ==> SealedPbService(s[i], estimator)
  }

  lemma {:induction false} MergeServicesSealed(limits: Limits, st: MergerState, from: seq<PbService>)
    requires Sealed(st.metrics) && AllSealedServices(from, st.metrics.estimator)
    ensures Sealed(MergeServices(limits, st, from).metrics)
    ensures st.metrics.estimator.Some? ==> MergeServices(limits, st, from).metrics.estimator.Some?
  {
    if from != [] {
      var n := |from| - 1;
      MergeServicesSealed(limits, st, from[..n]);
      MergeServiceConserves(EventsTotal, limits, MergeServices(limits, st, from[..n]), from[n]);
    }
  }

  lemma {:induction false} MergeServicesConserves(q: Quantity, limits: Limits, st: MergerState, from: seq<PbService>)
    requires Sealed(st.metrics) && AllSealedServices(from, st.metrics.estimator)
    ensures Total(q, MergeServices(limits, st, from).metrics) == Total(q, st.metrics) + SeqSum(from, PbServiceMass(q))
  {
    if from != [] {
      var n := |from| - 1;
      MergeServicesConserves(q, limits, st, from[..n]);
      MergeServicesSealed(limits, st, from[..n]);
      MergeServiceConserves(q, limits, MergeServices(limits, st, from[..n]), from[n]);
    }
  }

  lemma MergeServicesFrame(limits: Limits, st: MergerState, from: seq<PbService>)
    ensures MergeServices(limits, st, from).metrics.youngest == st.metrics.youngest
    ensures MergeServices(limits, st, from).metrics.eventsTotal == st.metrics.eventsTotal
  {
  }

  /** Merging one message adds its totals to those of the state, and keeps the state sealed. */
  lemma {:induction false} MergeMessageConserves(q: Quantity, limits: Limits, st: MergerState, from: PbCombined)
    requires Sealed(st.metrics) && SealedPb(from)
    ensures var r := MergeMessage(limits, st, from);
            && Total(q, r.metrics) == Total(q, st.metrics) + PbTotal(q)(from)
            && Sealed(r.metrics)
            && r.metrics.youngest == Max(st.metrics.youngest, from.youngest)
  {
    var cm := MergeHeader(st.metrics, from);
    if from.estimator.Some? {
      MergeOverflowConserves(q, st.metrics.overflowServices, from.overflowServices);
    }
    assert Sealed(cm);
    MergeServicesSealed(limits, st.(metrics := cm), from.services);
    MergeServicesConserves(q, limits, st.(metrics := cm), from.services);
    MergeServicesFrame(limits, st.(metrics := cm), from.services);
  }

  // ----- serialization

  lemma EncodesGroupsConserves<K(!new), M>(g: GroupMap<K, M>, out: seq<Keyed<K, M>>, mass: M -> real)
    requires EncodesGroups(g, out)
    ensures SeqSum(out, OfKeyed<K, M>(mass)) == MapSum(g, OfKeyed<K, M>(mass))
  {
    var keys :| ListedAs(g, keys, out);
    MapSumListed(g, keys, out, OfKeyed(mass));
  }

  lemma EncodesInstanceConserves(q: Quantity, i: InstanceMetrics, out: PbInstance)
    requires EncodesInstance(i, out)
    ensures PbInstanceMass(q)(out) == InstanceMass(q)(i)
  {
    EncodesGroupsConserves(i.transactions, out.transactions, TransactionMass(q));
    EncodesGroupsConserves(i.serviceTransactions, out.serviceTransactions, ServiceTransactionMass(q));
    EncodesGroupsConserves(i.spans, out.spans, SpanMass(q));
  }

  lemma {:induction false} SeqSumMatches<V, W>(s: seq<V>, f: V -> real, t: seq<W>, g: W -> real)
    requires |s| == |t|
    requires forall i :: 0 <= i < |s| ==> f(s[i]) == g(t[i])
    ensures SeqSum(s, f) == SeqSum(t, g)
  {
    if s != [] {
      SeqSumMatches(s[..|s| - 1], f, t[..|t| - 1], g);
    }
  }

  lemma EncodesServiceConserves(q: Quantity, s: ServiceMetrics, out: PbService)
    requires EncodesService(s, out) && PairedOverflow(s.overflow)
    ensures PbServiceMass(q)(out) == ServiceMass(q)(s)
  {
    var keys := InstanceKeys(out.instances);
    var vs := ValuesOf(s.instances, keys);
    MapSumListed(s.instances, keys, vs, InstanceMass(q));
    forall i | 0 <= i < |vs|
      ensures PbInstanceMass(q)(out.instances[i]) == InstanceMass(q)(vs[i])
    {
      EncodesInstanceConserves(q, vs[i], out.instances[i]);
    }
    SeqSumMatches(out.instances, PbInstanceMass(q), vs, InstanceMass(q));
  }

  lemma EncodesServiceSealed(s: ServiceMetrics, out: PbService, estimator: Option<Sketch>)
    requires EncodesService(s, out) && SealedService(s, estimator)
    ensures SealedPbService(out, estimator)
  {
    if out.instances == [] {
      assert InstanceKeys(out.instances) == [];
      assert forall k :: k !in s.instances;
      assert s.instances == map[];
    }
  }

  lemma EncodesServicesConserves(q: Quantity, m: map<ServiceKey, ServiceMetrics>, out: seq<PbService>)
    requires EncodesServices(m, out)
    requires forall k :: k in m ==> PairedOverflow(m[k].overflow)
    ensures SeqSum(out, PbServiceMass(q)) == MapSum(m, ServiceMass(q))
  {
    var keys := ServiceKeys(out);
    var vs := ValuesOf(m, keys);
    MapSumListed(m, keys, vs, ServiceMass(q));
    forall i | 0 <= i < |vs|
      ensures PbServiceMass(q)(out[i]) == ServiceMass(q)(vs[i])
    {
      EncodesServiceConserves(q, vs[i], out[i]);
    }
    SeqSumMatches(out, PbServiceMass(q), vs, ServiceMass(q));
  }

  /** Every encoding of a sealed state carries its totals and is sealed again. */
  lemma {:induction false} EncodingConserves(q: Quantity, cm: CombinedMetrics, out: PbCombined)
    requires Sealed(cm) && EncodesCombined(cm, out)
    ensures PbTotal(q)(out) == Total(q, cm) && out.youngest == cm.youngest
    ensures SealedPb(out)
  {
    hide EncodesServices, MapSum, SeqSum, SealedPb, OverflowMass, EncodeOverflow, PairedOverflow;
    EncodingSealed(cm, out);
    assert forall k :: k in cm.services ==> SealedService(cm.services[k], cm.estimator);
    EncodesServicesConserves(q, cm.services, out.services);
    PairedEncodesItself(cm.overflowServices);
    EmptyOverflowWeighsNothing(q);
  }

  /** Paired overflow buckets are written in full. */
  lemma PairedEncodesItself(o: Overflow)
    requires PairedOverflow(o)
    ensures EncodeOverflow(o) == o
  {
  }

  lemma EncodingSealed(cm: CombinedMetrics, out: PbCombined)
    requires Sealed(cm) && EncodesCombined(cm, out)
    ensures SealedPb(out)
  {
    hide EncodesService, SealedService, SealedPbService;
    forall i | 0 <= i < |out.services|
      ensures SealedPbService(out.services[i], out.estimator)
    {
      EncodesServiceSealed(cm.services[out.services[i].key], out.services[i], cm.estimator);
    }
  }

  // ----- merge trees

  /** How pebble may combine operands: each inner node starts a merger with the value of one input,
      feeds it the others, and finishes to one of the encodings of the result. */
  datatype MergeTree = Operand(value: PbCombined) | Merged(inputs: seq<MergeTree>, value: PbCombined)

  ghost function Values(ts: seq<MergeTree>): (r: seq<PbCombined>)
    ensures |r| == |ts| && forall i :: 0 <= i < |ts| ==> r[i] == ts[i].value
  {
    seq(|ts|, i requires 0 <= i < |ts| => ts[i].value)
  }

  lemma ValuesLast(ts: seq<MergeTree>)
    requires ts != []
    ensures Values(ts) == Values(ts[..|ts| - 1]) + [ts[|ts| - 1].value]
  {
  }

  ghost predicate ValidTree(limits: Limits, t: MergeTree) {
    match t
    case Operand(_) => true
    case Merged(inputs, value) =>
      && inputs != []
      && (forall i :: 0 <= i < |inputs| ==> ValidTree(limits, inputs[i]))
      && EncodesCombined(MergeAll(limits, Values(inputs)).metrics, value)
  }

  ghost function Operands(t: MergeTree): seq<PbCombined>
    decreases t
  {
    match t
    case Operand(v) => [v]
    case Merged(inputs, _) => OperandsOf(t, inputs)
  }

  ghost function OperandsOf(t: MergeTree, ts: seq<MergeTree>): seq<PbCombined>
    requires forall i :: 0 <= i < |ts| ==> ts[i] < t
    decreases t, |ts|
  {
    if ts == [] then [] else OperandsOf(t, ts[..|ts| - 1]) + Operands(ts[|ts| - 1])
  }

  ghost function Youngest(s: seq<PbCombined>): nat {
    if s == [] then 0 else Max(Youngest(s[..|s| - 1]), s[|s| - 1].youngest)
  }

  lemma {:induction false} YoungestAppend(s: seq<PbCombined>, t: seq<PbCombined>)
    ensures Youngest(s + t) == Max(Youngest(s), Youngest(t))
    decreases |t|
  {
    if t == [] {
      assert s + t == s;
    } else {
      var n := |t| - 1;
      YoungestAppend(s, t[..n]);
      assert s + t == (s + t[..n]) + [t[n]];
      assert (s + t)[..|s + t| - 1] == s + t[..n];
    }
  }

  ghost predicate AllSealed(s: seq<PbCombined>) {
    s == [] || (AllSealed(s[..|s| - 1]) && SealedPb(s[|s| - 1]))
  }

  lemma {:induction false} AllSealedAppend(s: seq<PbCombined>, t: seq<PbCombined>)
    ensures AllSealed(s + t) <==> AllSealed(s) && AllSealed(t)
    decreases |t|
  {
    if t == [] {
      assert s + t == s;
    } else {
      var n := |t| - 1;
      AllSealedAppend(s, t[..n]);
      assert (s + t)[..|s + t| - 1] == s + t[..n];
    }
  }

  lemma {:induction false} AllSealedIff(s: seq<PbCombined>)
    ensures AllSealed(s) <==> forall x :: x in s ==> SealedPb(x)
  {
    if s != [] {
      var n := |s| - 1;
      AllSealedIff(s[..n]);
      assert s == s[..n] + [s[n]];
      assert forall x :: x in s <==> x in s[..n] || x == s[n];
    }
  }

  lemma EmptyIsSealed(q: Quantity)
    ensures Sealed(EmptyCombined) && Total(q, EmptyCombined) == 0.0
  {
    EmptyOverflowWeighsNothing(q);
    EmptySum<ServiceKey, ServiceMetrics>(ServiceMass(q));
  }

  lemma {:induction false} MergeAllConserves(q: Quantity, limits: Limits, from: seq<PbCombined>)
    requires AllSealed(from)
    ensures var r := MergeAll(limits, from).metrics;
            Sealed(r) && Total(q, r) == SeqSum(from, PbTotal(q)) && r.youngest == Youngest(from)
  {
    hide MergeMessage, Total, PbTotal, Sealed, SealedPb;
    if from == [] {
      EmptyIsSealed(q);
    } else {
      var n := |from| - 1;
      MergeAllConserves(q, limits, from[..n]);
      MergeMessageConserves(q, limits, MergeAll(limits, from[..n]), from[n]);
    }
  }

  /** The theorem on a whole tree: the value at its root is sealed, and every total and the youngest
      timestamp are those of its operands. */
  lemma {:induction false} TreeConserves(q: Quantity, limits: Limits, t: MergeTree)
    requires ValidTree(limits, t) && AllSealed(Operands(t))
    ensures SealedPb(t.value)
    ensures PbTotal(q)(t.value) == SeqSum(Operands(t), PbTotal(q))
    ensures t.value.youngest == Youngest(Operands(t))
    decreases t
  {
    match t
    case Operand(v) =>
      assert Operands(t)[0] == v;
      assert Operands(t)[..0] == [];
    case Merged(inputs, value) =>
      TreesConserve(q, limits, t, inputs);
      MergeAllConserves(q, limits, Values(inputs));
      EncodingConserves(q, MergeAll(limits, Values(inputs)).metrics, value);
  }

  lemma {:induction false} TreesConserve(q: Quantity, limits: Limits, t: MergeTree, ts: seq<MergeTree>)
    requires forall i :: 0 <= i < |ts| ==> ts[i] < t && ValidTree(limits, ts[i])
    requires AllSealed(OperandsOf(t, ts))
    ensures AllSealed(Values(ts))
    ensures SeqSum(Values(ts), PbTotal(q)) == SeqSum(OperandsOf(t, ts), PbTotal(q))
    ensures Youngest(Values(ts)) == Youngest(OperandsOf(t, ts))
    decreases t, |ts|
  {
    if ts != [] {
      var n := |ts| - 1;
      var front, last := OperandsOf(t, ts[..n]), Operands(ts[n]);
      AllSealedAppend(front, last);
      TreesConserve(q, limits, t, ts[..n]);
      TreeConserves(q, limits, ts[n]);
      ValuesLast(ts);
      JoinConserves(q, Values(ts[..n]), ts[n].value, front, last);
    }
  }

  lemma JoinConserves(q: Quantity, values: seq<PbCombined>, value: PbCombined, front: seq<PbCombined>, last: seq<PbCombined>)
    requires AllSealed(values) && SealedPb(value)
    requires SeqSum(values, PbTotal(q)) == SeqSum(front, PbTotal(q)) && PbTotal(q)(value) == SeqSum(last, PbTotal(q))
    requires Youngest(values) == Youngest(front) && value.youngest == Youngest(last)
    ensures AllSealed(values + [value])
    ensures SeqSum(values + [value], PbTotal(q)) == SeqSum(front + last, PbTotal(q))
    ensures Youngest(values + [value]) == Youngest(front + last)
  {
    assert (values + [value])[..|values|] == values;
    SeqSumAppend(front, last, PbTotal(q));
    YoungestAppend(front, last);
  }

  lemma {:induction false} YoungestIsMax(s: seq<PbCombined>)
    ensures forall x :: x in s ==> x.youngest <= Youngest(s)
    ensures Youngest(s) == 0 || exists x :: x in s && x.youngest == Youngest(s)
  {
    if s != [] {
      var n := |s| - 1;
      YoungestIsMax(s[..n]);
      assert s == s[..n] + [s[n]];
      if Youngest(s) != s[n].youngest && Youngest(s) != 0 {
        var x :| x in s[..n] && x.youngest == Youngest(s[..n]);
        assert x in s;
      } else {
        assert s[n] in s;
      }
    }
  }

  /** Order and bracketing do not matter: two merge trees over the same operands, each under its own
      limits, agree on every total and on the youngest timestamp. */
  lemma {:induction false} TreesAgree(q: Quantity, limits: Limits, limits': Limits, t: MergeTree, u: MergeTree)
    requires ValidTree(limits, t) && ValidTree(limits', u)
    requires AllSealed(Operands(t)) && multiset(Operands(t)) == multiset(Operands(u))
    ensures PbTotal(q)(t.value) == PbTotal(q)(u.value)
    ensures t.value.youngest == u.value.youngest
  {
    hide ValidTree, Operands, SealedPb, PbTotal, SeqSum, Youngest;
    var a, b := Operands(t), Operands(u);
    assert forall x :: x in a <==> x in multiset(a);
    assert forall x :: x in b <==> x in multiset(b);
    AllSealedIff(a);
    AllSealedIff(b);
    assert forall x :: x in b ==> x in a;
    TreeConserves(q, limits, t);
    TreeConserves(q, limits', u);
    SeqSumPermutes(a, b, PbTotal(q));
    YoungestIsMax(a);
    YoungestIsMax(b);
  }
}
