/** What merging one message into a merge state yields (`combinedMetricsMerger.merge`). */
module MergerSpec {
  import opened Histograms
  import opened Models
  import opened Groups

  /** How many groups of each kind are stored across all services. */
  datatype Counters = Counters(transactions: int, serviceTransactions: int, spans: int)

  datatype InstanceState = InstanceState(instance: InstanceMetrics, overflow: Overflow, counters: Counters)
  datatype ServiceState = ServiceState(service: ServiceMetrics, counters: Counters, estimator: Option<Sketch>)
  datatype OverflowState = OverflowState(overflow: Overflow, estimator: Option<Sketch>)
  datatype MergerState = MergerState(metrics: CombinedMetrics, counters: Counters)

  const EmptyMerger := MergerState(EmptyCombined, Counters(0, 0, 0))

  function MergeOverflow(to: Overflow, from: Option<Overflow>): Overflow {
    match from
    case None => to
    case Some(f) =>
      Overflow(MergeBucket(TransactionOps, to.transactions, f.transactions),
               MergeBucket(ServiceTransactionOps, to.serviceTransactions, f.serviceTransactions),
               MergeBucket(SpanOps, to.spans, f.spans))
  }

  /** `mergeToOverflowFromSIM`. */
  function DivertInstance(limits: Limits, to: Overflow, from: PbInstance, d: Digest): Overflow {
    Overflow(DivertAll(TransactionRule(limits, d), to.transactions, from.transactions),
             DivertAll(ServiceTransactionRule(limits, d), to.serviceTransactions, from.serviceTransactions),
             DivertAll(SpanRule(limits, d), to.spans, from.spans))
  }

  function MergeInstance(limits: Limits, d: Digest, st: InstanceState, from: PbInstance): InstanceState {
    var t := MergeGroups(TransactionRule(limits, d),
                         GroupState(st.instance.transactions, st.counters.transactions, st.overflow.transactions),
                         from.transactions);
    var s := MergeGroups(ServiceTransactionRule(limits, d),
                         GroupState(st.instance.serviceTransactions, st.counters.serviceTransactions, st.overflow.serviceTransactions),
                         from.serviceTransactions);
    var p := MergeGroups(SpanRule(limits, d),
                         GroupState(st.instance.spans, st.counters.spans, st.overflow.spans),
                         from.spans);
    InstanceState(InstanceMetrics(t.groups, s.groups, p.groups),
                  Overflow(t.overflow, s.overflow, p.overflow),
                  Counters(t.total, s.total, p.total))
  }

  /** `getServiceInstanceMetrics`. */
  predicate HasRoomForInstance(limits: Limits, svc: ServiceMetrics, k: InstanceKey) {
    k in svc.instances || |svc.instances| < limits.maxInstancesPerService
  }

  function InstanceOf(svc: ServiceMetrics, k: InstanceKey): InstanceMetrics {
    if k in svc.instances then svc.instances[k] else EmptyInstance
  }

  function MergeServiceInstance(limits: Limits, d: Digest, st: ServiceState, from: PbInstance): ServiceState {
    if HasRoomForInstance(limits, st.service, from.key) then
      var r := MergeInstance(limits, d, InstanceState(InstanceOf(st.service, from.key), st.service.overflow, st.counters), from);
      ServiceState(ServiceMetrics(st.service.instances[from.key := r.instance], r.overflow), r.counters, st.estimator)
    else
      var di := InstanceDigest(d, from.key);
      ServiceState(st.service.(overflow := DivertInstance(limits, st.service.overflow, from, di)),
                   st.counters, InsertHash(st.estimator, di))
  }

  function MergeInstances(limits: Limits, d: Digest, st: ServiceState, from: seq<PbInstance>): ServiceState {
    if from == [] then st
    else MergeServiceInstance(limits, d, MergeInstances(limits, d, st, from[..|from| - 1]), from[|from| - 1])
  }

  /** The instances of a service that found no room, all diverted to the overflow services bucket. */
  function DivertInstances(limits: Limits, d: Digest, st: OverflowState, from: seq<PbInstance>): OverflowState {
    if from == [] then st
    else
      var p := DivertInstances(limits, d, st, from[..|from| - 1]);
      var last := from[|from| - 1];
      var di := InstanceDigest(d, last.key);
      OverflowState(DivertInstance(limits, p.overflow, last, di), InsertHash(p.estimator, di))
  }

  /** `getServiceMetrics`. */
  predicate HasRoomForService(limits: Limits, cm: CombinedMetrics, k: ServiceKey) {
    k in cm.services || |cm.services| < limits.maxServices
  }

  function ServiceOf(cm: CombinedMetrics, k: ServiceKey): ServiceMetrics {
    if k in cm.services then cm.services[k] else EmptyService
  }

  function MergeService(limits: Limits, st: MergerState, from: PbService): MergerState {
    var cm := st.metrics;
    var d := ServiceDigest(from.key);
    if HasRoomForService(limits, cm, from.key) then
      var svc := ServiceOf(cm, from.key);
      var r := MergeInstances(limits, d,
                              ServiceState(svc.(overflow := MergeOverflow(svc.overflow, from.overflow)), st.counters, cm.estimator),
                              from.instances);
      MergerState(cm.(services := cm.services[from.key := r.service], estimator := r.estimator), r.counters)
    else
      var r := DivertInstances(limits, d,
                               OverflowState(MergeOverflow(cm.overflowServices, from.overflow), cm.estimator),
                               from.instances);
      st.(metrics := cm.(overflowServices := r.overflow, estimator := r.estimator))
  }

  function MergeServices(limits: Limits, st: MergerState, from: seq<PbService>): MergerState {
    if from == [] then st
    else MergeService(limits, MergeServices(limits, st, from[..|from| - 1]), from[|from| - 1])
  }

  function Max(a: nat, b: nat): nat {
    if a < b then b else a
  }

  /** The totals, and the overflow services bucket when the message says it is in use. */
  function MergeHeader(cm: CombinedMetrics, from: PbCombined): CombinedMetrics {
    var c := cm.(eventsTotal := cm.eventsTotal + from.eventsTotal, youngest := Max(cm.youngest, from.youngest));
    if from.estimator.Some? then
      c.(overflowServices := MergeOverflow(c.overflowServices, from.overflowServices),
         estimator := MergeEstimator(c.estimator, from.estimator.value))
    else c
  }

  function MergeMessage(limits: Limits, st: MergerState, from: PbCombined): MergerState {
    MergeServices(limits, st.(metrics := MergeHeader(st.metrics, from)), from.services)
  }

  /** A merger created for the first operand and fed the others. */
  function MergeAll(limits: Limits, from: seq<PbCombined>): MergerState {
    if from == [] then EmptyMerger
    else MergeMessage(limits, MergeAll(limits, from[..|from| - 1]), from[|from| - 1])
  }
}
