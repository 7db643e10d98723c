/** The merger as it runs: constraint counters and the merge state updated step by step, each
    operation proved against the functions of `MergerSpec`. */
module Merger {
  import opened Histograms
  import opened Models
  import opened Groups
  import opened MergerSpec

  /** A counter with a limit. */
  class Constraint {
    var counter: int
    const limit: int

    constructor (initialCount: int, limit: int)
      ensures counter == initialCount && this.limit == limit
    {
      counter := initialCount;
      this.limit := limit;
    }

    method Maxed() returns (b: bool)
      ensures b <==> counter >= limit
    {
      b := counter >= limit;
    }

    method Add(delta: int)
      modifies this
      ensures counter == old(counter) + delta
    {
      counter := counter + delta;
    }
  }

  method MergeTransactionGroups(groups: TransactionGroups, from: seq<Keyed<TransactionKey, TransactionMetrics>>,
                                perInstance: Constraint, global: Constraint, d: Digest,
                                overflow: Bucket<TransactionMetrics>, ghost limits: Limits)
    returns (groups': TransactionGroups, overflow': Bucket<TransactionMetrics>)
    requires perInstance != global && perInstance.counter == |groups|
    requires perInstance.limit == limits.maxTransactionsPerInstance && global.limit == limits.maxTransactions
    modifies perInstance, global
    ensures MergeGroups(TransactionRule(limits, d), GroupState(groups, old(global.counter), overflow), from)
         == GroupState(groups', global.counter, overflow')
  {
    groups', overflow' := groups, overflow;
    for i := 0 to |from|
      invariant perInstance.counter == |groups'|
      invariant MergeGroups(TransactionRule(limits, d), GroupState(groups, old(global.counter), overflow), from[..i])
             == GroupState(groups', global.counter, overflow')
    {
      assert from[..i + 1][..i] == from[..i];
      var key := from[i].key;
      if key in groups' {
        groups' := groups'[key := Keyed(groups'[key].key, MergeTransactionMetrics(groups'[key].metrics, from[i].metrics))];
        continue;
      }
      var full := perInstance.Maxed();
      var globalFull := global.Maxed();
      if full || globalFull {
        overflow' := Divert(TransactionOps, overflow', from[i].metrics, TransactionDigest(d, key));
      } else {
        perInstance.Add(1);
        global.Add(1);
        groups' := groups'[key := from[i]];
      }
    }
    assert from[..|from|] == from;
  }

  method MergeServiceTransactionGroups(groups: ServiceTransactionGroups,
                                       from: seq<Keyed<ServiceTransactionKey, ServiceTransactionMetrics>>,
                                       perInstance: Constraint, global: Constraint, d: Digest,
                                       overflow: Bucket<ServiceTransactionMetrics>, ghost limits: Limits)
    returns (groups': ServiceTransactionGroups, overflow': Bucket<ServiceTransactionMetrics>)
    requires perInstance != global && perInstance.counter == |groups|
    requires perInstance.limit == limits.maxServiceTransactionsPerInstance && global.limit == limits.maxServiceTransactions
    modifies perInstance, global
    ensures MergeGroups(ServiceTransactionRule(limits, d), GroupState(groups, old(global.counter), overflow), from)
         == GroupState(groups', global.counter, overflow')
  {
    groups', overflow' := groups, overflow;
    for i := 0 to |from|
      invariant perInstance.counter == |groups'|
      invariant MergeGroups(ServiceTransactionRule(limits, d), GroupState(groups, old(global.counter), overflow), from[..i])
             == GroupState(groups', global.counter, overflow')
    {
      assert from[..i + 1][..i] == from[..i];
      var key := from[i].key;
      if key in groups' {
        groups' := groups'[key := Keyed(groups'[key].key, MergeServiceTransactionMetrics(groups'[key].metrics, from[i].metrics))];
        continue;
      }
      var full := perInstance.Maxed();
      var globalFull := global.Maxed();
      if full || globalFull {
        overflow' := Divert(ServiceTransactionOps, overflow', from[i].metrics, ServiceTransactionDigest(d, key));
      } else {
        perInstance.Add(1);
        global.Add(1);
        groups' := groups'[key := from[i]];
      }
    }
    assert from[..|from|] == from;
  }

  method MergeSpanGroups(groups: SpanGroups, from: seq<Keyed<SpanKey, SpanMetrics>>,
                         perInstance: Constraint, global: Constraint, d: Digest,
                         overflow: Bucket<SpanMetrics>, ghost limits: Limits)
    returns (groups': SpanGroups, overflow': Bucket<SpanMetrics>)
    requires perInstance != global && perInstance.counter == |groups|
    requires perInstance.limit == limits.maxSpansPerInstance && global.limit == limits.maxSpans
    modifies perInstance, global
    ensures MergeGroups(SpanRule(limits, d), GroupState(groups, old(global.counter), overflow), from)
         == GroupState(groups', global.counter, overflow')
  {
    hide MergeGroup;
    groups', overflow' := groups, overflow;
    for i := 0 to |from|
      invariant perInstance.counter == |groups'|
      invariant MergeGroups(SpanRule(limits, d), GroupState(groups, old(global.counter), overflow), from[..i])
             == GroupState(groups', global.counter, overflow')
    {
      assert from[..i + 1][..i] == from[..i];
      groups', overflow' := MergeSpanGroup(groups', from[i], perInstance, global, d, overflow', limits);
    }
    assert from[..|from|] == from;
  }

  /** One turn of the loop. */
  method MergeSpanGroup(groups: SpanGroups, from: Keyed<SpanKey, SpanMetrics>, perInstance: Constraint, global: Constraint,
                        d: Digest, overflow: Bucket<SpanMetrics>, ghost limits: Limits)
    returns (groups': SpanGroups, overflow': Bucket<SpanMetrics>)
    requires perInstance != global && perInstance.counter == |groups|
    requires perInstance.limit == limits.maxSpansPerInstance && global.limit == limits.maxSpans
    modifies perInstance, global
    ensures perInstance.counter == |groups'|
    ensures MergeGroup(SpanRule(limits, d), GroupState(groups, old(global.counter), overflow), from)
         == GroupState(groups', global.counter, overflow')
  {
    SpanRuleIs(limits, d, groups, from.key);
    hide Divert, SpanRule, MergeSpanMetrics;
    groups', overflow' := groups, overflow;
    var key := from.key;
    if key !in groups {
      var half := perInstance.limit / 2;
      if perInstance.counter >= half {
        key := key.(spanName := "");
      }
      if key !in groups {
        var full := perInstance.Maxed();
        var globalFull := global.Maxed();
        if full || globalFull {
          overflow' := Divert(SpanOps, overflow, from.metrics, SpanDigest(d, key));
        } else {
          perInstance.Add(1);
          global.Add(1);
          groups' := groups[key := Keyed(key, from.metrics)];
        }
        return;
      }
    }
    groups' := groups[key := Keyed(groups[key].key, MergeSpanMetrics(groups[key].metrics, from.metrics))];
  }

  lemma SpanRuleIs(limits: Limits, d: Digest, groups: SpanGroups, key: SpanKey)
    ensures var rule := SpanRule(limits, d);
            && rule.ops == SpanOps && (forall k :: rule.digest(k) == SpanDigest(d, k))
            && rule.perInstance == limits.maxSpansPerInstance && rule.global == limits.maxSpans
            && rule.slot(groups, key)
               == if key !in groups && |groups| >= limits.maxSpansPerInstance / 2 then key.(spanName := "") else key
  {
  }

  method DivertTransactions(to: Bucket<TransactionMetrics>, from: seq<Keyed<TransactionKey, TransactionMetrics>>, d: Digest,
                            ghost limits: Limits) returns (t: Bucket<TransactionMetrics>)
    ensures t == DivertAll(TransactionRule(limits, d), to, from)
  {
    hide Divert;
    t := to;
    for i := 0 to |from|
      invariant t == DivertAll(TransactionRule(limits, d), to, from[..i])
    {
      assert from[..i + 1][..i] == from[..i];
      t := Divert(TransactionOps, t, from[i].metrics, TransactionDigest(d, from[i].key));
    }
    assert from[..|from|] == from;
  }

  method DivertServiceTransactions(to: Bucket<ServiceTransactionMetrics>,
                                   from: seq<Keyed<ServiceTransactionKey, ServiceTransactionMetrics>>, d: Digest,
                                   ghost limits: Limits) returns (s: Bucket<ServiceTransactionMetrics>)
    ensures s == DivertAll(ServiceTransactionRule(limits, d), to, from)
  {
    hide Divert;
    s := to;
    for i := 0 to |from|
      invariant s == DivertAll(ServiceTransactionRule(limits, d), to, from[..i])
    {
      assert from[..i + 1][..i] == from[..i];
      s := Divert(ServiceTransactionOps, s, from[i].metrics, ServiceTransactionDigest(d, from[i].key));
    }
    assert from[..|from|] == from;
  }

  method DivertSpans(to: Bucket<SpanMetrics>, from: seq<Keyed<SpanKey, SpanMetrics>>, d: Digest, ghost limits: Limits)
    returns (p: Bucket<SpanMetrics>)
    ensures p == DivertAll(SpanRule(limits, d), to, from)
  {
    hide Divert;
    p := to;
    for i := 0 to |from|
      invariant p == DivertAll(SpanRule(limits, d), to, from[..i])
    {
      assert from[..i + 1][..i] == from[..i];
      p := Divert(SpanOps, p, from[i].metrics, SpanDigest(d, from[i].key));
    }
    assert from[..|from|] == from;
  }

  /** `mergeToOverflowFromSIM`: three loops that divert every group of the instance. */
  method MergeToOverflow(to: Overflow, from: PbInstance, d: Digest, ghost limits: Limits) returns (r: Overflow)
    ensures r == DivertInstance(limits, to, from, d)
  {
    hide DivertAll;
    var t := DivertTransactions(to.transactions, from.transactions, d, limits);
    var s := DivertServiceTransactions(to.serviceTransactions, from.serviceTransactions, d, limits);
    var p := DivertSpans(to.spans, from.spans, d, limits);
    r := Overflow(t, s, p);
  }

  /** `combinedMetricsMerger`. */
  class CombinedMetricsMerger {
    const limits: Limits
    const transactions: Constraint
    const serviceTransactions: Constraint
    const spans: Constraint
    var metrics: CombinedMetrics

    ghost predicate Valid()
      reads this
    {
      && transactions != serviceTransactions && transactions != spans && serviceTransactions != spans
      && transactions.limit == limits.maxTransactions
      && serviceTransactions.limit == limits.maxServiceTransactions
      && spans.limit == limits.maxSpans
    }

    ghost function CountersNow(): Counters
      reads transactions, serviceTransactions, spans
    {
      Counters(transactions.counter, serviceTransactions.counter, spans.counter)
    }

    ghost function State(): MergerState
      reads this, transactions, serviceTransactions, spans
    {
      MergerState(metrics, CountersNow())
    }

    /** A fresh merger, with the constraints of `newConstraints`. */
    constructor (limits: Limits)
      ensures Valid() && this.limits == limits && State() == EmptyMerger
      ensures fresh(transactions) && fresh(serviceTransactions) && fresh(spans)
    {
      this.limits := limits;
      transactions := new Constraint(0, limits.maxTransactions);
      serviceTransactions := new Constraint(0, limits.maxServiceTransactions);
      spans := new Constraint(0, limits.maxSpans);
      metrics := EmptyCombined;
    }

    method MergeInstanceGroups(instance: InstanceMetrics, overflow: Overflow, from: PbInstance, d: Digest)
      returns (instance': InstanceMetrics, overflow': Overflow)
      requires Valid()
      modifies transactions, serviceTransactions, spans
      ensures MergeInstance(limits, d, InstanceState(instance, overflow, old(CountersNow())), from)
           == InstanceState(instance', overflow', CountersNow())
    {
      var perTransaction := new Constraint(|instance.transactions|, limits.maxTransactionsPerInstance);
      var t, to := MergeTransactionGroups(instance.transactions, from.transactions, perTransaction, transactions, d,
                                          overflow.transactions, limits);
      var perServiceTransaction := new Constraint(|instance.serviceTransactions|, limits.maxServiceTransactionsPerInstance);
      var s, so := MergeServiceTransactionGroups(instance.serviceTransactions, from.serviceTransactions,
                                                 perServiceTransaction, serviceTransactions, d,
                                                 overflow.serviceTransactions, limits);
      var perSpan := new Constraint(|instance.spans|, limits.maxSpansPerInstance);
      var p, po := MergeSpanGroups(instance.spans, from.spans, perSpan, spans, d, overflow.spans, limits);
      instance' := InstanceMetrics(t, s, p);
      overflow' := Overflow(to, so, po);
    }

    method MergeServiceInstanceGroups(service: ServiceMetrics, from: seq<PbInstance>, d: Digest, estimator: Option<Sketch>)
      returns (service': ServiceMetrics, estimator': Option<Sketch>)
      requires Valid()
      modifies transactions, serviceTransactions, spans
      ensures MergeInstances(limits, d, ServiceState(service, old(CountersNow()), estimator), from)
           == ServiceState(service', CountersNow(), estimator')
    {
      hide MergeServiceInstance;
      service', estimator' := service, estimator;
      for i := 0 to |from|
        invariant MergeInstances(limits, d, ServiceState(service, old(CountersNow()), estimator), from[..i])
               == ServiceState(service', CountersNow(), estimator')
      {
        assert from[..i + 1][..i] == from[..i];
        service', estimator' := MergeOneInstance(service', from[i], d, estimator');
      }
      assert from[..|from|] == from;
    }

    /** One turn of the loop. */
    method MergeOneInstance(service: ServiceMetrics, from: PbInstance, d: Digest, estimator: Option<Sketch>)
      returns (service': ServiceMetrics, estimator': Option<Sketch>)
      requires Valid()
      modifies transactions, serviceTransactions, spans
      ensures MergeServiceInstance(limits, d, ServiceState(service, old(CountersNow()), estimator), from)
           == ServiceState(service', CountersNow(), estimator')
    {
      hide MergeInstance, DivertInstance;
      service', estimator' := service, estimator;
      var key := from.key;
      if key !in service.instances && |service.instances| >= limits.maxInstancesPerService {
        var di := InstanceDigest(d, key);
        var o := MergeToOverflow(service.overflow, from, di, limits);
        service' := service.(overflow := o);
        estimator' := InsertHash(estimator, di);
        return;
      }
      var instance := if key in service.instances then service.instances[key] else EmptyInstance;
      var r, o := MergeInstanceGroups(instance, service.overflow, from, d);
      service' := ServiceMetrics(service.instances[key := r], o);
    }

    method DivertService(from: seq<PbInstance>, d: Digest)
      requires Valid()
      modifies this`metrics
      ensures var r := DivertInstances(limits, d, OverflowState(old(metrics.overflowServices), old(metrics.estimator)), from);
              metrics == old(metrics).(overflowServices := r.overflow, estimator := r.estimator)
    {
      for i := 0 to |from|
        invariant var r := DivertInstances(limits, d, OverflowState(old(metrics.overflowServices), old(metrics.estimator)), from[..i]);
                  metrics == old(metrics).(overflowServices := r.overflow, estimator := r.estimator)
      {
        assert from[..i + 1][..i] == from[..i];
        var di := InstanceDigest(d, from[i].key);
        var o := MergeToOverflow(metrics.overflowServices, from[i], di, limits);
        metrics := metrics.(overflowServices := o, estimator := InsertHash(metrics.estimator, di));
      }
      assert from[..|from|] == from;
    }

    method MergeOneService(from: PbService)
      requires Valid()
      modifies this, transactions, serviceTransactions, spans
      ensures Valid() && State() == MergeService(limits, old(State()), from)
    {
      var d := ServiceDigest(from.key);
      if from.key !in metrics.services && |metrics.services| >= limits.maxServices {
        metrics := metrics.(overflowServices := MergeOverflow(metrics.overflowServices, from.overflow));
        DivertService(from.instances, d);
        return;
      }
      var svc := if from.key in metrics.services then metrics.services[from.key] else EmptyService;
      svc := svc.(overflow := MergeOverflow(svc.overflow, from.overflow));
      var svc', estimator' := MergeServiceInstanceGroups(svc, from.instances, d, metrics.estimator);
      metrics := metrics.(services := metrics.services[from.key := svc'], estimator := estimator');
    }

    method MergeTotals(from: PbCombined)
      modifies this`metrics
      ensures metrics == MergeHeader(old(metrics), from)
    {
      metrics := metrics.(eventsTotal := metrics.eventsTotal + from.eventsTotal);
      if metrics.youngest < from.youngest {
        metrics := metrics.(youngest := from.youngest);
      }
      if from.estimator.Some? {
        metrics := metrics.(overflowServices := MergeOverflow(metrics.overflowServices, from.overflowServices),
                            estimator := MergeEstimator(metrics.estimator, from.estimator.value));
      }
    }

    method MergeServiceList(from: seq<PbService>)
      requires Valid()
      modifies this, transactions, serviceTransactions, spans
      ensures Valid() && State() == MergeServices(limits, old(State()), from)
    {
      ghost var st := State();
      for i := 0 to |from|
        invariant Valid() && State() == MergeServices(limits, st, from[..i])
      {
        assert from[..i + 1][..i] == from[..i];
        MergeOneService(from[i]);
      }
      assert from[..|from|] == from;
    }

    /** `merge`, which `MergeNewer` and `MergeOlder` both call with the decoded operand. */
    method MergeOperand(from: PbCombined)
      requires Valid()
      modifies this, transactions, serviceTransactions, spans
      ensures Valid() && State() == MergeMessage(limits, old(State()), from)
    {
      MergeTotals(from);
      MergeServiceList(from.services);
    }
  }
}
