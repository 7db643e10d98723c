/** What finds no room: it leaves everything that is kept unchanged, its weight goes to the overflow, and the
    service instance estimator has seen exactly the instances that were diverted, over every merge tree. */
module OverflowEstimators {
  import opened Histograms
  import opened Models
  import opened Sums
  import opened Groups
  import opened MergerSpec
  import opened MergerCodec
  import opened MergerTotals
  import opened GroupPlacement

  // ----- one group, one instance or one service without room

  lemma {:induction false} GroupWithoutRoom<K(!new), M(!new)>(rule: Rule<K, M>, mass: M -> real, st: GroupState<K, M>, from: Keyed<K, M>)
    requires Additive(rule.ops, mass) && Full(rule, st) && rule.slot(st.groups, from.key) !in st.groups
    ensures var r := MergeGroup(rule, st, from);
            && r.groups == st.groups && r.total == st.total
            && BucketMass(r.overflow, mass) == BucketMass(st.overflow, mass) + mass(from.metrics)
            && r.overflow.estimator == Some(Seen(st.overflow.estimator) + {rule.digest(rule.slot(st.groups, from.key))})
  {
    DivertConserves(rule.ops, mass, st.overflow, from.metrics, rule.digest(rule.slot(st.groups, from.key)));
  }

  lemma DivertedMass(q: Quantity, limits: Limits, to: Overflow, from: PbInstance, d: Digest)
    ensures OverflowMass(q, DivertInstance(limits, to, from, d)) == OverflowMass(q, to) + PbInstanceMass(q)(from)
  {
    MassesAreAdditive(q);
    DivertAllConserves(TransactionRule(limits, d), TransactionMass(q), to.transactions, from.transactions);
    DivertAllConserves(ServiceTransactionRule(limits, d), ServiceTransactionMass(q), to.serviceTransactions, from.serviceTransactions);
    DivertAllConserves(SpanRule(limits, d), SpanMass(q), to.spans, from.spans);
  }

  lemma {:induction false} InstanceWithoutRoom(q: Quantity, limits: Limits, d: Digest, st: ServiceState, from: PbInstance)
    requires from.key !in st.service.instances && |st.service.instances| >= limits.maxInstancesPerService
    ensures var r := MergeServiceInstance(limits, d, st, from);
            && r.service.instances == st.service.instances && r.counters == st.counters
            && OverflowMass(q, r.service.overflow) == OverflowMass(q, st.service.overflow) + PbInstanceMass(q)(from)
            && r.estimator == Some(Seen(st.estimator) + {InstanceDigest(d, from.key)})
  {
    hide OverflowMass, PbInstanceMass, DivertInstance;
    DivertedMass(q, limits, st.service.overflow, from, InstanceDigest(d, from.key));
  }

  lemma {:induction false} DivertedInstancesMass(q: Quantity, limits: Limits, d: Digest, st: OverflowState, from: seq<PbInstance>)
    ensures OverflowMass(q, DivertInstances(limits, d, st, from).overflow) == OverflowMass(q, st.overflow) + SeqSum(from, PbInstanceMass(q))
  {
    hide OverflowMass, PbInstanceMass, DivertInstance;
    if from != [] {
      var n := |from| - 1;
      DivertedInstancesMass(q, limits, d, st, from[..n]);
      var p := DivertInstances(limits, d, st, from[..n]);
      DivertedMass(q, limits, p.overflow, from[n], InstanceDigest(d, from[n].key));
    }
  }

  lemma {:induction false} ServiceWithoutRoom(q: Quantity, limits: Limits, st: MergerState, from: PbService)
    requires from.key !in st.metrics.services && |st.metrics.services| >= limits.maxServices
    requires PairedOverflow(st.metrics.overflowServices) && (from.overflow.Some? ==> PairedOverflow(from.overflow.value))
    ensures var r := MergeService(limits, st, from);
            && r.metrics.services == st.metrics.services && r.counters == st.counters
            && OverflowMass(q, r.metrics.overflowServices) == OverflowMass(q, st.metrics.overflowServices) + PbServiceMass(q)(from)
  {
    hide OverflowMass, PbInstanceMass, DivertInstances, MergeOverflow, PairedOverflow;
    var cm := st.metrics;
    MergeOverflowConserves(q, cm.overflowServices, from.overflow);
    DivertedInstancesMass(q, limits, ServiceDigest(from.key), OverflowState(MergeOverflow(cm.overflowServices, from.overflow), cm.estimator),
                          from.instances);
  }

  // ----- what the sketches of the overflow buckets have seen

  function WithoutName(k: SpanKey): SpanKey {
    SpanKey("", k.outcome, k.targetType, k.targetName, k.resource)
  }

  /** The key that a span group ends up under: its own, or the one without name once half of the limit is used. */
  function SpanKeyIn(limits: Limits, g: SpanGroups, k: SpanKey): SpanKey {
    if k in g || |g| < limits.maxSpansPerInstance / 2 then k else WithoutName(k)
  }

  /** The digests of the keys that are not kept. */
  ghost function TransactionsOut(d: Digest, s: seq<Keyed<TransactionKey, TransactionMetrics>>, kept: set<TransactionKey>): Sketch {
    set j | 0 <= j < |s| && s[j].key !in kept :: TransactionDigest(d, s[j].key)
  }

  ghost function ServiceTransactionsOut(d: Digest, s: seq<Keyed<ServiceTransactionKey, ServiceTransactionMetrics>>,
                                        kept: set<ServiceTransactionKey>): Sketch {
    set j | 0 <= j < |s| && s[j].key !in kept :: ServiceTransactionDigest(d, s[j].key)
  }

  ghost function SpansOut(limits: Limits, d: Digest, s: seq<Keyed<SpanKey, SpanMetrics>>, kept: SpanGroups): Sketch {
    set j | 0 <= j < |s| && SpanKeyIn(limits, kept, s[j].key) !in kept :: SpanDigest(d, SpanKeyIn(limits, kept, s[j].key))
  }

  lemma DigestsAre(limits: Limits, d: Digest, from: PbInstance, i: InstanceMetrics)
    ensures DigestsOf(TransactionRule(limits, d), i.transactions, from.transactions)
            == TransactionsOut(d, from.transactions, i.transactions.Keys)
    ensures DigestsOf(ServiceTransactionRule(limits, d), i.serviceTransactions, from.serviceTransactions)
            == ServiceTransactionsOut(d, from.serviceTransactions, i.serviceTransactions.Keys)
    ensures DigestsOf(SpanRule(limits, d), i.spans, from.spans) == SpansOut(limits, d, from.spans, i.spans)
  {
    TransactionDigestsAre(limits, d, from.transactions, i.transactions);
    ServiceTransactionDigestsAre(limits, d, from.serviceTransactions, i.serviceTransactions);
    SpanDigestsAre(limits, d, from.spans, i.spans);
  }

  lemma TransactionDigestsAre(limits: Limits, d: Digest, s: seq<Keyed<TransactionKey, TransactionMetrics>>, g: TransactionGroups)
    ensures DigestsOf(TransactionRule(limits, d), g, s) == TransactionsOut(d, s, g.Keys)
    ensures AllDigests(TransactionRule(limits, d), s) == TransactionsOut(d, s, {})
  {
  }

  lemma ServiceTransactionDigestsAre(limits: Limits, d: Digest, s: seq<Keyed<ServiceTransactionKey, ServiceTransactionMetrics>>,
                                     g: ServiceTransactionGroups)
    ensures DigestsOf(ServiceTransactionRule(limits, d), g, s) == ServiceTransactionsOut(d, s, g.Keys)
    ensures AllDigests(ServiceTransactionRule(limits, d), s) == ServiceTransactionsOut(d, s, {})
  {
  }

  lemma SpanDigestsAre(limits: Limits, d: Digest, s: seq<Keyed<SpanKey, SpanMetrics>>, g: SpanGroups)
    ensures DigestsOf(SpanRule(limits, d), g, s) == SpansOut(limits, d, s, g)
  {
    var rule := SpanRule(limits, d);
    forall j | 0 <= j < |s|
      ensures rule.slot(g, s[j].key) == SpanKeyIn(limits, g, s[j].key)
      ensures rule.digest(rule.slot(g, s[j].key)) == SpanDigest(d, SpanKeyIn(limits, g, s[j].key))
    {
    }
  }

  /** Groups past a limit: the sketches have seen exactly the keys that are not kept, hashed after the service. */
  lemma {:induction false} KeptInstanceSees(limits: Limits, sk: ServiceKey, st: ServiceState, from: PbInstance)
    requires HasRoomForInstance(limits, st.service, from.key)
    ensures var d, r := ServiceDigest(sk), MergeServiceInstance(limits, ServiceDigest(sk), st, from).service;
            var i, o, o' := r.instances[from.key], st.service.overflow, r.overflow;
            && Inserted(o.transactions.estimator, TransactionsOut(d, from.transactions, i.transactions.Keys), o'.transactions.estimator)
            && Inserted(o.serviceTransactions.estimator, ServiceTransactionsOut(d, from.serviceTransactions, i.serviceTransactions.Keys),
                        o'.serviceTransactions.estimator)
            && Inserted(o.spans.estimator, SpansOut(limits, d, from.spans, i.spans), o'.spans.estimator)
  {
    var d, i, o := ServiceDigest(sk), InstanceOf(st.service, from.key), st.service.overflow;
    var t, s, p := GroupState(i.transactions, st.counters.transactions, o.transactions),
                   GroupState(i.serviceTransactions, st.counters.serviceTransactions, o.serviceTransactions),
                   GroupState(i.spans, st.counters.spans, o.spans);
    hide MergeGroups, Gathered, Inserted, Settled, DigestsOf, TransactionsOut, ServiceTransactionsOut, SpansOut, TransactionRule,
         ServiceTransactionRule, SpanRule;
    InstanceGroupsPlaced(limits, d, t, s, p, from);
    DigestsAre(limits, d, from, MergeServiceInstance(limits, d, st, from).service.instances[from.key]);
  }

  /** An instance without room: the sketches have seen all its keys, hashed after the service and the instance. */
  lemma {:induction false} DivertedInstanceSees(limits: Limits, d: Digest, to: Overflow, from: PbInstance)
    ensures var r := DivertInstance(limits, to, from, d);
            && Inserted(to.transactions.estimator, TransactionsOut(d, from.transactions, {}), r.transactions.estimator)
            && Inserted(to.serviceTransactions.estimator, ServiceTransactionsOut(d, from.serviceTransactions, {}), r.serviceTransactions.estimator)
            && Inserted(to.spans.estimator, set j | 0 <= j < |from.spans| :: SpanDigest(d, from.spans[j].key), r.spans.estimator)
  {
    hide DivertAll, Gathered, ZeroFirst, Inserted;
    ZerosAreFirst();
    TransactionDigestsAre(limits, d, from.transactions, map[]);
    ServiceTransactionDigestsAre(limits, d, from.serviceTransactions, map[]);
    assert AllDigests(SpanRule(limits, d), from.spans) == set j | 0 <= j < |from.spans| :: SpanDigest(d, from.spans[j].key);
    DivertAllPlaced(TransactionRule(limits, d), to.transactions, from.transactions);
    DivertAllPlaced(ServiceTransactionRule(limits, d), to.serviceTransactions, from.serviceTransactions);
    DivertAllPlaced(SpanRule(limits, d), to.spans, from.spans);
  }

  lemma {:induction false} InstanceWithoutRoomSees(limits: Limits, d: Digest, st: ServiceState, from: PbInstance)
    requires !HasRoomForInstance(limits, st.service, from.key)
    ensures var di, o := InstanceDigest(d, from.key), st.service.overflow;
            var r := MergeServiceInstance(limits, d, st, from).service.overflow;
            && Inserted(o.transactions.estimator, TransactionsOut(di, from.transactions, {}), r.transactions.estimator)
            && Inserted(o.serviceTransactions.estimator, ServiceTransactionsOut(di, from.serviceTransactions, {}), r.serviceTransactions.estimator)
            && Inserted(o.spans.estimator, set j | 0 <= j < |from.spans| :: SpanDigest(di, from.spans[j].key), r.spans.estimator)
  {
    hide DivertInstance, Inserted, TransactionsOut, ServiceTransactionsOut;
    DivertedInstanceSees(limits, InstanceDigest(d, from.key), st.service.overflow, from);
  }

  // ----- who is admitted

  /** First come, first served: the keys after `keys` asked for one of `max` places, `base` having some. */
  ghost function Admitted<K>(max: nat, base: set<K>, keys: seq<K>): set<K> {
    if keys == [] then base
    else
      var before := Admitted(max, base, keys[..|keys| - 1]);
      var k := keys[|keys| - 1];
      if k in before || |before| < max then before + {k} else before
  }

  lemma {:induction false} AdmittedFacts<K>(max: nat, base: set<K>, keys: seq<K>)
    ensures var r := Admitted(max, base, keys);
            && base <= r && (|base| >= max ==> r == base)
            && (forall k :: k in keys && k !in r ==> |r| >= max)
  {
    if keys != [] {
      var n := |keys| - 1;
      AdmittedFacts(max, base, keys[..n]);
      assert keys == keys[..n] + [keys[n]];
      var before := Admitted(max, base, keys[..n]);
      if keys[n] in before {
        assert before + {keys[n]} == before;
      }
    }
  }

  /** The digests of the keys that were refused. */
  ghost function Refused(d: Digest, keys: seq<InstanceKey>, kept: set<InstanceKey>): Sketch {
    set k | k in keys && k !in kept :: InstanceDigest(d, k)
  }

  lemma AdmittedLast<K>(max: nat, base: set<K>, keys: seq<K>, k: K)
    ensures var before := Admitted(max, base, keys);
            Admitted(max, base, keys + [k]) == if k in before || |before| < max then before + {k} else before
  {
    assert (keys + [k])[..|keys|] == keys;
  }

  lemma RefusedLast(d: Digest, keys: seq<InstanceKey>, k: InstanceKey, before: set<InstanceKey>, r: set<InstanceKey>)
    requires forall x :: x in keys ==> (x in before <==> x in r)
    ensures Refused(d, keys + [k], r) == if k in r then Refused(d, keys, before) else Refused(d, keys, before) + {InstanceDigest(d, k)}
  {
  }

  /** Who was refused stays so. */
  lemma AdmittedStays(max: nat, d: Digest, base: set<InstanceKey>, keys: seq<InstanceKey>, k: InstanceKey)
    ensures var before, r := Admitted(max, base, keys), Admitted(max, base, keys + [k]);
            && r == (if k in before || |before| < max then before + {k} else before)
            && Refused(d, keys + [k], r) == if k in r then Refused(d, keys, before) else Refused(d, keys, before) + {InstanceDigest(d, k)}
  {
    hide Admitted, Refused;
    var before, r := Admitted(max, base, keys), Admitted(max, base, keys + [k]);
    AdmittedLast(max, base, keys, k);
    AdmittedFacts(max, base, keys);
    assert forall x :: x in keys ==> (x in before <==> x in r);
    RefusedLast(d, keys, k, before, r);
  }

  // ----- the instances of a service

  lemma OneInstance(limits: Limits, d: Digest, st: ServiceState, from: PbInstance)
    ensures var before, r := st.service.instances.Keys, MergeServiceInstance(limits, d, st, from);
            if from.key in before || |before| < limits.maxInstancesPerService then
              r.service.instances.Keys == before + {from.key} && r.estimator == st.estimator
            else
              r.service.instances.Keys == before && r.estimator == Some(Seen(st.estimator) + {InstanceDigest(d, from.key)})
  {
    hide MergeInstance, DivertInstance;
  }

  lemma {:induction false} InstancesInserted(limits: Limits, d: Digest, st: ServiceState, from: seq<PbInstance>)
    ensures var r := MergeInstances(limits, d, st, from);
            && r.service.instances.Keys == Admitted(limits.maxInstancesPerService, st.service.instances.Keys, InstanceKeys(from))
            && Inserted(st.estimator, Refused(d, InstanceKeys(from), r.service.instances.Keys), r.estimator)
  {
    hide MergeServiceInstance, Admitted, Refused, Inserted, Seen;
    if from == [] {
      NothingInserted(st.estimator);
      NothingAsked(limits.maxInstancesPerService, d, st.service.instances.Keys, InstanceKeys(from));
    } else {
      var n := |from| - 1;
      InstancesInserted(limits, d, st, from[..n]);
      OneInstance(limits, d, MergeInstances(limits, d, st, from[..n]), from[n]);
      assert InstanceKeys(from) == InstanceKeys(from[..n]) + [from[n].key];
      AdmittedStays(limits.maxInstancesPerService, d, st.service.instances.Keys, InstanceKeys(from[..n]), from[n].key);
      var p := MergeInstances(limits, d, st, from[..n]);
      InsertedOne(st.estimator, Refused(d, InstanceKeys(from[..n]), p.service.instances.Keys), p.estimator, InstanceDigest(d, from[n].key));
    }
  }

  lemma HashInserted(e: Option<Sketch>, d: Digest)
    ensures InsertHash(e, d) == Some(Seen(e) + {d})
  {
    assert {} + {d} == {d};
  }

  lemma NothingInserted(e: Option<Sketch>)
    ensures Inserted(e, {}, e)
  {
  }

  lemma NothingAsked(max: nat, d: Digest, base: set<InstanceKey>, keys: seq<InstanceKey>)
    requires keys == []
    ensures Admitted(max, base, keys) == base && Refused(d, keys, base) == {}
  {
  }

  lemma {:induction false} DivertedInserted(limits: Limits, d: Digest, st: OverflowState, from: seq<PbInstance>)
    ensures Inserted(st.estimator, Refused(d, InstanceKeys(from), {}), DivertInstances(limits, d, st, from).estimator)
  {
    hide DivertInstance, Inserted, Refused;
    if from == [] {
      NothingInserted(st.estimator);
      NothingAsked(0, d, {}, InstanceKeys(from));
    } else {
      var n := |from| - 1;
      DivertedInserted(limits, d, st, from[..n]);
      assert InstanceKeys(from) == InstanceKeys(from[..n]) + [from[n].key];
      RefusedLast(d, InstanceKeys(from[..n]), from[n].key, {}, {});
      var p := DivertInstances(limits, d, st, from[..n]);
      InsertedOne(st.estimator, Refused(d, InstanceKeys(from[..n]), {}), p.estimator, InstanceDigest(d, from[n].key));
      HashInserted(p.estimator, InstanceDigest(d, from[n].key));
    }
  }

  // ----- a service

  type InstanceId = (ServiceKey, InstanceKey)

  function IdDigest(x: InstanceId): Digest {
    InstanceDigest(ServiceDigest(x.0), x.1)
  }

  ghost predicate KeptInstance(cm: CombinedMetrics, x: InstanceId) {
    x.0 in cm.services && x.1 in cm.services[x.0].instances
  }

  /** Neither the service nor the instance can be added any more. */
  ghost predicate NoRoom(limits: Limits, cm: CombinedMetrics, x: InstanceId) {
    if x.0 in cm.services then
      x.1 !in cm.services[x.0].instances && |cm.services[x.0].instances| >= limits.maxInstancesPerService
    else |cm.services| >= limits.maxServices
  }

  ghost function ServiceIds(s: PbService): set<InstanceId> {
    set k | k in InstanceKeys(s.instances) :: (s.key, k)
  }

  /** The digests of the instances that are not kept. */
  ghost function Missed(xs: set<InstanceId>, cm: CombinedMetrics): Sketch {
    set x | x in xs && !KeptInstance(cm, x) :: IdDigest(x)
  }

  lemma ServiceMissed(s: PbService, cm: CombinedMetrics, kept: set<InstanceKey>)
    requires kept == if s.key in cm.services then cm.services[s.key].instances.Keys else {}
    ensures Missed(ServiceIds(s), cm) == Refused(ServiceDigest(s.key), InstanceKeys(s.instances), kept)
  {
    forall k | k in InstanceKeys(s.instances) && k !in kept
      ensures InstanceDigest(ServiceDigest(s.key), k) in Missed(ServiceIds(s), cm)
    {
      var x := (s.key, k);
      assert x in ServiceIds(s) && !KeptInstance(cm, x) && IdDigest(x) == InstanceDigest(ServiceDigest(s.key), k);
    }
  }

  /** Nothing that was kept is dropped, and what found no room never will. */
  ghost predicate Progress(limits: Limits, cm: CombinedMetrics, cm': CombinedMetrics) {
    && (forall x: InstanceId :: KeptInstance(cm, x) ==> KeptInstance(cm', x))
    && (forall x: InstanceId :: NoRoom(limits, cm, x) ==> NoRoom(limits, cm', x))
  }

  ghost predicate Decided(limits: Limits, cm: CombinedMetrics, xs: set<InstanceId>) {
    forall x :: x in xs ==> KeptInstance(cm, x) || NoRoom(limits, cm, x)
  }

  /** A service got more instances, as far as there was room. */
  lemma ServiceProgress(limits: Limits, cm: CombinedMetrics, sk: ServiceKey, s: ServiceMetrics, cm': CombinedMetrics)
    requires HasRoomForService(limits, cm, sk) && cm'.services == cm.services[sk := s]
    requires var was := ServiceOf(cm, sk).instances.Keys;
             was <= s.instances.Keys && (|was| >= limits.maxInstancesPerService ==> s.instances.Keys == was)
    ensures Progress(limits, cm, cm')
  {
    assert cm'.services.Keys == cm.services.Keys + {sk};
    if sk in cm.services {
      assert cm'.services.Keys == cm.services.Keys;
    }
    forall x: InstanceId | NoRoom(limits, cm, x)
      ensures NoRoom(limits, cm', x)
    {
      if x.0 == sk && sk in cm.services {
        assert |cm.services[sk].instances.Keys| >= limits.maxInstancesPerService;
      }
    }
  }

  lemma ServiceDecided(limits: Limits, cm: CombinedMetrics, from: PbService)
    requires from.key in cm.services
    requires forall k :: k in InstanceKeys(from.instances) && k !in cm.services[from.key].instances.Keys ==>
               |cm.services[from.key].instances.Keys| >= limits.maxInstancesPerService
    ensures Decided(limits, cm, ServiceIds(from))
  {
  }

  lemma KeptServiceDecides(limits: Limits, st: MergerState, from: PbService)
    requires HasRoomForService(limits, st.metrics, from.key)
    ensures var cm, r := st.metrics, MergeService(limits, st, from).metrics;
            && Progress(limits, cm, r) && Decided(limits, r, ServiceIds(from))
            && Inserted(cm.estimator, Missed(ServiceIds(from), r), r.estimator)
  {
    var cm, r := st.metrics, MergeService(limits, st, from).metrics;
    var svc := ServiceOf(cm, from.key);
    var sst := ServiceState(svc.(overflow := MergeOverflow(svc.overflow, from.overflow)), st.counters, cm.estimator);
    hide MergeInstances, MergeOverflow, Admitted, Refused, Missed, Inserted, Progress, Decided, HasRoomForService;
    assert r.services == cm.services[from.key := MergeInstances(limits, ServiceDigest(from.key), sst, from.instances).service];
    hide MergeService;
    InstancesInserted(limits, ServiceDigest(from.key), sst, from.instances);
    AdmittedFacts(limits.maxInstancesPerService, sst.service.instances.Keys, InstanceKeys(from.instances));
    ServiceMissed(from, r, r.services[from.key].instances.Keys);
    ServiceProgress(limits, cm, from.key, r.services[from.key], r);
    ServiceDecided(limits, r, from);
  }

  lemma DivertedServiceDecides(limits: Limits, st: MergerState, from: PbService)
    requires !HasRoomForService(limits, st.metrics, from.key)
    ensures var cm, r := st.metrics, MergeService(limits, st, from).metrics;
            && Progress(limits, cm, r) && Decided(limits, r, ServiceIds(from))
            && Inserted(cm.estimator, Missed(ServiceIds(from), r), r.estimator)
  {
    var cm, r := st.metrics, MergeService(limits, st, from).metrics;
    var ost := OverflowState(MergeOverflow(cm.overflowServices, from.overflow), cm.estimator);
    hide DivertInstances, MergeOverflow, Refused, Missed, Inserted;
    DivertedInserted(limits, ServiceDigest(from.key), ost, from.instances);
    ServiceMissed(from, r, {});
  }

  lemma ServiceDecides(limits: Limits, st: MergerState, from: PbService)
    ensures var cm, r := st.metrics, MergeService(limits, st, from).metrics;
            && Progress(limits, cm, r) && Decided(limits, r, ServiceIds(from))
            && Inserted(cm.estimator, Missed(ServiceIds(from), r), r.estimator)
  {
    hide MergeService, Progress, Decided, Inserted, Missed;
    if HasRoomForService(limits, st.metrics, from.key) {
      KeptServiceDecides(limits, st, from);
    } else {
      DivertedServiceDecides(limits, st, from);
    }
  }

  // ----- a message

  /** The decisions on `xs` stand. */
  lemma MissedStays(limits: Limits, cm: CombinedMetrics, cm': CombinedMetrics, xs: set<InstanceId>)
    requires Progress(limits, cm, cm') && Decided(limits, cm, xs)
    ensures Decided(limits, cm', xs) && Missed(xs, cm') == Missed(xs, cm)
  {
    forall x | x in xs
      ensures KeptInstance(cm', x) <==> KeptInstance(cm, x)
    {
      if !KeptInstance(cm, x) {
        assert NoRoom(limits, cm', x);
      }
    }
  }

  lemma MissedBoth(xs: set<InstanceId>, ys: set<InstanceId>, cm: CombinedMetrics)
    ensures Missed(xs + ys, cm) == Missed(xs, cm) + Missed(ys, cm)
  {
  }

  lemma ProgressTwice(limits: Limits, a: CombinedMetrics, b: CombinedMetrics, c: CombinedMetrics)
    requires Progress(limits, a, b) && Progress(limits, b, c)
    ensures Progress(limits, a, c)
  {
    hide KeptInstance, NoRoom;
  }

  ghost function ServicesIds(s: seq<PbService>): set<InstanceId> {
    if s == [] then {} else ServicesIds(s[..|s| - 1]) + ServiceIds(s[|s| - 1])
  }

  lemma DecidedBoth(limits: Limits, cm: CombinedMetrics, xs: set<InstanceId>, ys: set<InstanceId>)
    requires Decided(limits, cm, xs) && Decided(limits, cm, ys)
    ensures Decided(limits, cm, xs + ys)
  {
    hide KeptInstance, NoRoom;
  }

  lemma NothingChanged(limits: Limits, cm: CombinedMetrics, cm': CombinedMetrics)
    requires cm'.services == cm.services
    ensures Progress(limits, cm, cm') && Decided(limits, cm', {}) && Missed({}, cm') == {}
  {
  }

  lemma InsertedTwice(a: Option<Sketch>, s: Sketch, b: Option<Sketch>, t: Sketch, c: Option<Sketch>)
    requires Inserted(a, s, b) && Inserted(b, t, c)
    ensures Inserted(a, s + t, c)
  {
  }

  lemma {:induction false} ServicesDecide(limits: Limits, st: MergerState, from: seq<PbService>)
    ensures var cm, r := st.metrics, MergeServices(limits, st, from).metrics;
            && Progress(limits, cm, r) && Decided(limits, r, ServicesIds(from))
            && Inserted(cm.estimator, Missed(ServicesIds(from), r), r.estimator)
  {
    if from == [] {
      NothingChanged(limits, st.metrics, st.metrics);
    } else {
      hide MergeService, Progress, Decided, Inserted, Missed, ServiceIds;
      var n := |from| - 1;
      ServicesDecide(limits, st, from[..n]);
      var p := MergeServices(limits, st, from[..n]);
      var r := MergeService(limits, p, from[n]).metrics;
      ServiceDecides(limits, p, from[n]);
      ProgressTwice(limits, st.metrics, p.metrics, r);
      MissedStays(limits, p.metrics, r, ServicesIds(from[..n]));
      MissedBoth(ServicesIds(from[..n]), ServiceIds(from[n]), r);
      DecidedBoth(limits, r, ServicesIds(from[..n]), ServiceIds(from[n]));
      InsertedTwice(st.metrics.estimator, Missed(ServicesIds(from[..n]), r), p.metrics.estimator, Missed(ServiceIds(from[n]), r), r.estimator);
    }
  }

  /** An estimator that has seen the sketches of the messages and the missed instances; it exists when one of
      the sketches does or an instance was missed. */
  ghost predicate Estimates(from: seq<PbCombined>, missed: Sketch, e: Option<Sketch>) {
    && Seen(e) == Sketches(from) + missed
    && (e.Some? <==> AnySketch(from) || missed != {})
  }

  ghost function Sketches(s: seq<PbCombined>): Sketch {
    if s == [] then {} else Sketches(s[..|s| - 1]) + Seen(s[|s| - 1].estimator)
  }

  ghost predicate AnySketch(s: seq<PbCombined>) {
    if s == [] then false else AnySketch(s[..|s| - 1]) || s[|s| - 1].estimator.Some?
  }

  ghost function IdsOf(s: seq<PbCombined>): set<InstanceId> {
    if s == [] then {} else IdsOf(s[..|s| - 1]) + ServicesIds(s[|s| - 1].services)
  }

  lemma MessageDecides(limits: Limits, st: MergerState, from: PbCombined)
    ensures var cm, r := st.metrics, MergeMessage(limits, st, from).metrics;
            && Progress(limits, cm, r) && Decided(limits, r, ServicesIds(from.services))
            && Seen(r.estimator) == Seen(cm.estimator) + Seen(from.estimator) + Missed(ServicesIds(from.services), r)
            && (r.estimator.Some? <==> cm.estimator.Some? || from.estimator.Some? || Missed(ServicesIds(from.services), r) != {})
  {
    hide MergeServices, Progress, Decided, Missed, MergeOverflow;
    var h := st.(metrics := MergeHeader(st.metrics, from));
    NothingChanged(limits, st.metrics, h.metrics);
    ServicesDecide(limits, h, from.services);
    ProgressTwice(limits, st.metrics, h.metrics, MergeMessage(limits, st, from).metrics);
  }

  lemma EstimatesMore(s: seq<PbCombined>, x: PbCombined, missed: Sketch, more: Sketch, e: Option<Sketch>, e': Option<Sketch>)
    requires Estimates(s, missed, e)
    requires Seen(e') == Seen(e) + Seen(x.estimator) + more && (e'.Some? <==> e.Some? || x.estimator.Some? || more != {})
    ensures Estimates(s + [x], missed + more, e')
  {
    assert (s + [x])[..|s|] == s;
  }

  /** The estimator has seen the sketches and the instances that are not kept, and these found no room. */
  ghost predicate Estimated(limits: Limits, from: seq<PbCombined>, cm: CombinedMetrics) {
    Decided(limits, cm, IdsOf(from)) && Estimates(from, Missed(IdsOf(from), cm), cm.estimator)
  }

  lemma NothingEstimated(limits: Limits, from: seq<PbCombined>)
    requires from == []
    ensures Estimated(limits, from, MergeAll(limits, from).metrics)
  {
    NothingChanged(limits, EmptyCombined, EmptyCombined);
  }

  /** After any operands, whatever the limits, the service instance estimator has seen the sketches of the
      operands and the digests of exactly those of their instances that are not kept; and these found no room. */
  lemma {:induction false} MergeAllEstimates(limits: Limits, from: seq<PbCombined>)
    ensures Estimated(limits, from, MergeAll(limits, from).metrics)
  {
    hide MergeMessage, Estimated;
    if from == [] {
      NothingEstimated(limits, from);
    } else {
      var n := |from| - 1;
      MergeAllEstimates(limits, from[..n]);
      MessageEstimates(limits, from[..n], MergeAll(limits, from[..n]), from[n]);
      assert from[..n] + [from[n]] == from;
    }
  }

  lemma IdsLast(s: seq<PbCombined>, x: PbCombined)
    ensures IdsOf(s + [x]) == IdsOf(s) + ServicesIds(x.services)
  {
    hide ServicesIds;
    assert (s + [x])[..|s|] == s;
  }

  lemma MessageEstimates(limits: Limits, s: seq<PbCombined>, st: MergerState, x: PbCombined)
    requires Estimated(limits, s, st.metrics)
    ensures Estimated(limits, s + [x], MergeMessage(limits, st, x).metrics)
  {
    hide MergeMessage, Progress, Decided, Missed, Estimates, ServicesIds, Seen, IdsOf;
    var r := MergeMessage(limits, st, x).metrics;
    var xs, ys := IdsOf(s), ServicesIds(x.services);
    MessageDecides(limits, st, x);
    MissedStays(limits, st.metrics, r, xs);
    MissedBoth(xs, ys, r);
    DecidedBoth(limits, r, xs, ys);
    EstimatesMore(s, x, Missed(xs, r), Missed(ys, r), st.metrics.estimator, r.estimator);
    IdsLast(s, x);
  }

  // ----- merge trees

  /** The digests of the instances that were diverted at the inner nodes: those of the inputs that the value
      does not have. */
  ghost function DivertedIn(t: MergeTree): Sketch
    decreases t
  {
    match t
    case Operand(_) => {}
    case Merged(inputs, value) =>
      DivertedInEach(t, inputs) + DivertedAt(Values(inputs), value)
  }

  ghost function DivertedAt(inputs: seq<PbCombined>, value: PbCombined): Sketch {
    set x | x in IdsOf(inputs) && x !in ServicesIds(value.services) :: IdDigest(x)
  }

  ghost function DivertedInEach(t: MergeTree, ts: seq<MergeTree>): Sketch
    requires forall i :: 0 <= i < |ts| ==> ts[i] < t
    decreases t, |ts|
  {
    if ts == [] then {} else DivertedInEach(t, ts[..|ts| - 1]) + DivertedIn(ts[|ts| - 1])
  }

  lemma {:induction false} ServicesIdsAre(s: seq<PbService>, x: InstanceId)
    ensures x in ServicesIds(s) <==> exists i :: 0 <= i < |s| && x in ServiceIds(s[i])
  {
    hide ServiceIds;
    if s != [] {
      var n := |s| - 1;
      ServicesIdsAre(s[..n], x);
      if i :| 0 <= i < |s| && x in ServiceIds(s[i]) {
        if i < n {
          assert s[..n][i] == s[i];
        }
      }
      if x in ServicesIds(s[..n]) {
        var i :| 0 <= i < n && x in ServiceIds(s[..n][i]);
        assert s[i] == s[..n][i];
      }
    }
  }

  /** An encoding has exactly the instances that the state keeps. */
  lemma EncodedIds(cm: CombinedMetrics, out: PbCombined, x: InstanceId)
    requires EncodesCombined(cm, out)
    ensures x in ServicesIds(out.services) <==> KeptInstance(cm, x)
  {
    hide EncodesInstance, EncodeOverflow;
    var s := out.services;
    ServicesIdsAre(s, x);
    if KeptInstance(cm, x) {
      var i :| 0 <= i < |s| && ServiceKeys(s)[i] == x.0;
      assert EncodesService(cm.services[x.0], s[i]);
      assert x.1 in InstanceKeys(s[i].instances);
      assert x in ServiceIds(s[i]);
    }
    if i :| 0 <= i < |s| && x in ServiceIds(s[i]) {
      assert EncodesService(cm.services[s[i].key], s[i]);
    }
  }

  lemma EncodedMissed(cm: CombinedMetrics, out: PbCombined, xs: set<InstanceId>)
    requires EncodesCombined(cm, out)
    ensures Missed(xs, cm) == set x | x in xs && x !in ServicesIds(out.services) :: IdDigest(x)
  {
    hide EncodesCombined, ServicesIds, KeptInstance, IdDigest;
    forall x
      ensures x in ServicesIds(out.services) <==> KeptInstance(cm, x)
    {
      EncodedIds(cm, out, x);
    }
  }

  lemma {:induction false} SketchesAppend(s: seq<PbCombined>, t: seq<PbCombined>)
    ensures Sketches(s + t) == Sketches(s) + Sketches(t) && (AnySketch(s + t) <==> AnySketch(s) || AnySketch(t))
    decreases |t|
  {
    if t == [] {
      assert s + t == s;
    } else {
      var n := |t| - 1;
      SketchesAppend(s, t[..n]);
      assert (s + t)[..|s + t| - 1] == s + t[..n];
    }
  }

  lemma NodeEstimates(limits: Limits, from: seq<PbCombined>, value: PbCombined)
    requires EncodesCombined(MergeAll(limits, from).metrics, value)
    ensures Estimates(from, DivertedAt(from, value), value.estimator)
  {
    var cm := MergeAll(limits, from).metrics;
    assert value.estimator == cm.estimator;
    hide MergeAll, Missed, IdsOf, Decided, EncodesCombined, Estimates;
    MergeAllEstimates(limits, from);
    EncodedMissed(cm, value, IdsOf(from));
  }

  lemma EstimatesThrough(values: seq<PbCombined>, operands: seq<PbCombined>, a: Sketch, b: Sketch, e: Option<Sketch>)
    requires Sketches(values) == Sketches(operands) + a && (AnySketch(values) <==> AnySketch(operands) || a != {})
    requires Estimates(values, b, e)
    ensures Estimates(operands, a + b, e)
  {
    hide Sketches, AnySketch;
  }

  /** For every merge tree and all limits, the root's service instance estimator has seen the sketches of all
      operands and the digests of all instances that were diverted anywhere in the tree, and nothing else. */
  lemma {:induction false} TreeEstimates(limits: Limits, t: MergeTree)
    requires ValidTree(limits, t)
    ensures Estimates(Operands(t), DivertedIn(t), t.value.estimator)
    decreases t
  {
    match t
    case Operand(v) =>
      assert Operands(t) == [v] && [v][..0] == [];
      assert Sketches([]) == {} && !AnySketch([]);
    case Merged(inputs, value) =>
      TreesEstimate(limits, t, inputs);
      hide MergeAll, Sketches, AnySketch, IdsOf, EncodesCombined, Estimates;
      NodeEstimates(limits, Values(inputs), value);
      EstimatesThrough(Values(inputs), Operands(t), DivertedInEach(t, inputs), DivertedAt(Values(inputs), value), value.estimator);
  }

  lemma {:induction false} TreesEstimate(limits: Limits, t: MergeTree, ts: seq<MergeTree>)
    requires forall i :: 0 <= i < |ts| ==> ts[i] < t && ValidTree(limits, ts[i])
    ensures Sketches(Values(ts)) == Sketches(OperandsOf(t, ts)) + DivertedInEach(t, ts)
    ensures AnySketch(Values(ts)) <==> AnySketch(OperandsOf(t, ts)) || DivertedInEach(t, ts) != {}
    decreases t, |ts|
  {
    if ts != [] {
      hide ValidTree, Estimates, Sketches, AnySketch, DivertedIn;
      var n := |ts| - 1;
      TreesEstimate(limits, t, ts[..n]);
      TreeEstimates(limits, ts[n]);
      ValuesLast(ts);
      JoinEstimates(Values(ts[..n]), ts[n].value, OperandsOf(t, ts[..n]), Operands(ts[n]), DivertedInEach(t, ts[..n]), DivertedIn(ts[n]));
    }
  }

  lemma JoinEstimates(values: seq<PbCombined>, value: PbCombined, front: seq<PbCombined>, last: seq<PbCombined>, a: Sketch, b: Sketch)
    requires Sketches(values) == Sketches(front) + a && (AnySketch(values) <==> AnySketch(front) || a != {})
    requires Estimates(last, b, value.estimator)
    ensures Sketches(values + [value]) == Sketches(front + last) + (a + b)
    ensures AnySketch(values + [value]) <==> AnySketch(front + last) || a + b != {}
  {
    assert (values + [value])[..|values|] == values;
    SketchesAppend(front, last);
  }

  lemma {:induction false} IdsAppend(s: seq<PbCombined>, t: seq<PbCombined>)
    ensures IdsOf(s + t) == IdsOf(s) + IdsOf(t)
    decreases |t|
  {
    hide ServicesIds;
    if t == [] {
      assert s + t == s;
    } else {
      var n := |t| - 1;
      IdsAppend(s, t[..n]);
      assert (s + t)[..|s + t| - 1] == s + t[..n];
    }
  }

  /** In particular no instance of an operand is forgotten: the root has it, or its estimator has seen it. */
  lemma {:induction false} InstanceKeptOrSeen(limits: Limits, t: MergeTree, x: InstanceId)
    requires ValidTree(limits, t) && x in IdsOf(Operands(t))
    ensures x in ServicesIds(t.value.services) || IdDigest(x) in Seen(t.value.estimator)
    decreases t
  {
    hide ServicesIds, IdDigest;
    match t
    case Operand(v) =>
      assert Operands(t) == [v] && [v][..0] == [];
      assert IdsOf([]) == {};
    case Merged(inputs, value) =>
      InstancesKeptOrSeen(limits, t, inputs, x);
      TreesEstimate(limits, t, inputs);
      TreeEstimates(limits, t);
  }

  lemma {:induction false} InstancesKeptOrSeen(limits: Limits, t: MergeTree, ts: seq<MergeTree>, x: InstanceId)
    requires forall i :: 0 <= i < |ts| ==> ts[i] < t && ValidTree(limits, ts[i])
    requires x in IdsOf(OperandsOf(t, ts))
    ensures x in IdsOf(Values(ts)) || IdDigest(x) in Sketches(Values(ts))
    decreases t, |ts|
  {
    hide ValidTree, ServicesIds, IdDigest;
    if ts != [] {
      var n := |ts| - 1;
      IdsAppend(OperandsOf(t, ts[..n]), Operands(ts[n]));
      ValuesLast(ts);
      assert (Values(ts[..n]) + [ts[n].value])[..n] == Values(ts[..n]);
      if x in IdsOf(Operands(ts[n])) {
        InstanceKeptOrSeen(limits, ts[n], x);
      } else {
        InstancesKeptOrSeen(limits, t, ts[..n], x);
      }
    }
  }
}
