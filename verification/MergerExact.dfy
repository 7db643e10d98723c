/** When all keys fit the limits, merging is the plain keyed sum of the operands: no group is
    diverted and neither the order nor the bracketing shows in the result. */
module MergerExact {
  import opened Histograms
  import opened Models
  import opened Sums
  import opened KeyedSums
  import opened Groups
  import opened MergerSpec
  import opened MergerCodec
  import opened MergerTotals
  import opened MergerLimits

  // ----- plain sums, level by level

  ghost function AddKeyed<K, M>(ops: Ops<M>): Combine<K, Keyed<K, M>> {
    (k: K, x: Keyed<K, M>, y: Keyed<K, M>) => Keyed(k, ops.add(x.metrics, y.metrics))
  }

  ghost function AddBucket<M>(ops: Ops<M>, a: Bucket<M>, b: Bucket<M>): Bucket<M> {
    Bucket(if a.metrics.None? then b.metrics
           else if b.metrics.None? then a.metrics
           else Some(ops.add(a.metrics.value, b.metrics.value)),
           AddEstimator(a.estimator, b.estimator))
  }

  ghost function AddEstimator(a: Option<Sketch>, b: Option<Sketch>): Option<Sketch> {
    if a.None? then b else if b.None? then a else Some(a.value + b.value)
  }

  ghost function AddOverflow(a: Overflow, b: Overflow): Overflow {
    Overflow(AddBucket(TransactionOps, a.transactions, b.transactions),
             AddBucket(ServiceTransactionOps, a.serviceTransactions, b.serviceTransactions),
             AddBucket(SpanOps, a.spans, b.spans))
  }

  ghost function AddInstance(): Combine<InstanceKey, InstanceMetrics> {
    (k: InstanceKey, x: InstanceMetrics, y: InstanceMetrics) =>
      InstanceMetrics(Union(x.transactions, y.transactions, AddKeyed(TransactionOps)),
                      Union(x.serviceTransactions, y.serviceTransactions, AddKeyed(ServiceTransactionOps)),
                      Union(x.spans, y.spans, AddKeyed(SpanOps)))
  }

  ghost function AddService(): Combine<ServiceKey, ServiceMetrics> {
    (k: ServiceKey, x: ServiceMetrics, y: ServiceMetrics) =>
      ServiceMetrics(Union(x.instances, y.instances, AddInstance()), AddOverflow(x.overflow, y.overflow))
  }

  ghost function AddCombined(x: CombinedMetrics, y: CombinedMetrics): CombinedMetrics {
    CombinedMetrics(Union(x.services, y.services, AddService()),
                    AddOverflow(x.overflowServices, y.overflowServices),
                    AddEstimator(x.estimator, y.estimator),
                    x.eventsTotal + y.eventsTotal,
                    Max(x.youngest, y.youngest))
  }

  // ----- what a message says, before any limit

  ghost function KeyOfGroup<K, M>(): Keyed<K, M> -> K { (g: Keyed<K, M>) => g.key }

  ghost function Itself<T>(): T -> T { (x: T) => x }

  ghost function GroupsOf<K, M>(ops: Ops<M>, s: seq<Keyed<K, M>>): GroupMap<K, M> {
    Collect(s, KeyOfGroup(), Itself(), AddKeyed(ops))
  }

  ghost function PlainInstance(): PbInstance -> InstanceMetrics {
    (i: PbInstance) => InstanceMetrics(GroupsOf(TransactionOps, i.transactions),
                                       GroupsOf(ServiceTransactionOps, i.serviceTransactions),
                                       GroupsOf(SpanOps, i.spans))
  }

  ghost function PbInstanceKey(): PbInstance -> InstanceKey { (i: PbInstance) => i.key }

  ghost function InstancesOf(s: seq<PbInstance>): map<InstanceKey, InstanceMetrics> {
    Collect(s, PbInstanceKey(), PlainInstance(), AddInstance())
  }

  ghost function OverflowOf(o: Option<Overflow>): Overflow {
    if o.Some? then o.value else EmptyOverflow
  }

  ghost function PlainService(): PbService -> ServiceMetrics {
    (s: PbService) => ServiceMetrics(InstancesOf(s.instances), OverflowOf(s.overflow))
  }

  ghost function PbServiceKey(): PbService -> ServiceKey { (s: PbService) => s.key }

  ghost function ServicesOf(s: seq<PbService>): map<ServiceKey, ServiceMetrics> {
    Collect(s, PbServiceKey(), PlainService(), AddService())
  }

  ghost function Plain(pb: PbCombined): CombinedMetrics {
    CombinedMetrics(ServicesOf(pb.services), OverflowOf(pb.overflowServices), pb.estimator, pb.eventsTotal, pb.youngest)
  }

  ghost function PlainSum(s: seq<PbCombined>): CombinedMetrics {
    if s == [] then EmptyCombined else AddCombined(PlainSum(s[..|s| - 1]), Plain(s[|s| - 1]))
  }

  // ----- the algebra of plain sums

  ghost predicate Monoid<M(!new)>(ops: Ops<M>) {
    && (forall x, y :: ops.add(x, y) == ops.add(y, x))
    && (forall x, y, z {:trigger ops.add(ops.add(x, y), z)} :: ops.add(ops.add(x, y), z) == ops.add(x, ops.add(y, z)))
    && (forall x :: ops.add(ops.zero, x) == x)
  }

  lemma OptionalCommutes(x: Option<Histogram>, y: Option<Histogram>)
    ensures MergeOptional(x, y) == MergeOptional(y, x)
    ensures MergeOptional(None, x) == x
  {
    if x.Some? && y.Some? {
      MergeCommutes(x.value, y.value);
    }
  }

  lemma OptionalAssociates(x: Option<Histogram>, y: Option<Histogram>, z: Option<Histogram>)
    ensures MergeOptional(MergeOptional(x, y), z) == MergeOptional(x, MergeOptional(y, z))
  {
    var a: Histogram := if x.Some? then x.value else [];
    var b: Histogram := if y.Some? then y.value else [];
    var c: Histogram := if z.Some? then z.value else [];
    MergeAssociates(a, b, c);
  }

  lemma TransactionMonoid()
    ensures Monoid(TransactionOps)
  {
    hide MergeOptional;
    var add := TransactionOps.add;
    forall x, y ensures add(x, y) == add(y, x) {
      OptionalCommutes(x.histogram, y.histogram);
    }
    forall x ensures add(TransactionOps.zero, x) == x {
      OptionalCommutes(x.histogram, x.histogram);
    }
    forall x, y, z ensures add(add(x, y), z) == add(x, add(y, z)) {
      OptionalAssociates(x.histogram, y.histogram, z.histogram);
    }
  }

  lemma ServiceTransactionMonoid()
    ensures Monoid(ServiceTransactionOps)
  {
    hide MergeOptional;
    var add := ServiceTransactionOps.add;
    forall x, y ensures add(x, y) == add(y, x) {
      OptionalCommutes(x.histogram, y.histogram);
    }
    forall x ensures add(ServiceTransactionOps.zero, x) == x {
      OptionalCommutes(x.histogram, x.histogram);
    }
    forall x, y, z ensures add(add(x, y), z) == add(x, add(y, z)) {
      OptionalAssociates(x.histogram, y.histogram, z.histogram);
    }
  }

  lemma OpsAreMonoids()
    ensures Monoid(TransactionOps) && Monoid(ServiceTransactionOps) && Monoid(SpanOps)
  {
    hide Monoid;
    TransactionMonoid();
    ServiceTransactionMonoid();
    SpanMonoid();
  }

  lemma SpanMonoid()
    ensures Monoid(SpanOps)
  {
  }

  lemma KeyedLaws<K(!new), M(!new)>(ops: Ops<M>)
    requires Monoid(ops)
    ensures Commutative(AddKeyed<K, M>(ops)) && Associative(AddKeyed<K, M>(ops))
  {
    var f := AddKeyed<K, M>(ops);
    forall k, x, y
      ensures f(k, x, y) == f(k, y, x)
    {
      assert ops.add(x.metrics, y.metrics) == ops.add(y.metrics, x.metrics);
    }
    forall k, x, y, z
      ensures f(k, f(k, x, y), z) == f(k, x, f(k, y, z))
    {
      assert ops.add(ops.add(x.metrics, y.metrics), z.metrics) == ops.add(x.metrics, ops.add(y.metrics, z.metrics));
    }
  }

  lemma KeyedAssociative()
    ensures Associative(AddKeyed<TransactionKey, TransactionMetrics>(TransactionOps))
    ensures Associative(AddKeyed<ServiceTransactionKey, ServiceTransactionMetrics>(ServiceTransactionOps))
    ensures Associative(AddKeyed<SpanKey, SpanMetrics>(SpanOps))
  {
    OpsAreMonoids();
    KeyedLaws<TransactionKey, TransactionMetrics>(TransactionOps);
    KeyedLaws<ServiceTransactionKey, ServiceTransactionMetrics>(ServiceTransactionOps);
    KeyedLaws<SpanKey, SpanMetrics>(SpanOps);
  }

  lemma InstanceLaws()
    ensures Commutative(AddInstance()) && Associative(AddInstance())
  {
    OpsAreMonoids();
    KeyedLaws<TransactionKey, TransactionMetrics>(TransactionOps);
    KeyedLaws<ServiceTransactionKey, ServiceTransactionMetrics>(ServiceTransactionOps);
    KeyedLaws<SpanKey, SpanMetrics>(SpanOps);
    var f := AddInstance();
    forall k, x, y
      ensures f(k, x, y) == f(k, y, x)
    {
      UnionCommutes(x.transactions, y.transactions, AddKeyed(TransactionOps));
      UnionCommutes(x.serviceTransactions, y.serviceTransactions, AddKeyed(ServiceTransactionOps));
      UnionCommutes(x.spans, y.spans, AddKeyed(SpanOps));
    }
    forall k, x, y, z
      ensures f(k, f(k, x, y), z) == f(k, x, f(k, y, z))
    {
      UnionAssociates(x.transactions, y.transactions, z.transactions, AddKeyed(TransactionOps));
      UnionAssociates(x.serviceTransactions, y.serviceTransactions, z.serviceTransactions, AddKeyed(ServiceTransactionOps));
      UnionAssociates(x.spans, y.spans, z.spans, AddKeyed(SpanOps));
    }
  }

  lemma OverflowLaws(x: Overflow, y: Overflow, z: Overflow)
    ensures AddOverflow(x, y) == AddOverflow(y, x)
    ensures AddOverflow(AddOverflow(x, y), z) == AddOverflow(x, AddOverflow(y, z))
    ensures AddOverflow(EmptyOverflow, x) == x
  {
    OpsAreMonoids();
    BucketLaws(TransactionOps, x.transactions, y.transactions, z.transactions);
    BucketLaws(ServiceTransactionOps, x.serviceTransactions, y.serviceTransactions, z.serviceTransactions);
    BucketLaws(SpanOps, x.spans, y.spans, z.spans);
  }

  lemma EstimatorLaws(x: Option<Sketch>, y: Option<Sketch>, z: Option<Sketch>)
    ensures AddEstimator(x, y) == AddEstimator(y, x)
    ensures AddEstimator(AddEstimator(x, y), z) == AddEstimator(x, AddEstimator(y, z))
  {
    if x.Some? && y.Some? {
      assert x.value + y.value == y.value + x.value;
      if z.Some? {
        assert (x.value + y.value) + z.value == x.value + (y.value + z.value);
      }
    }
  }

  lemma BucketLaws<M(!new)>(ops: Ops<M>, x: Bucket<M>, y: Bucket<M>, z: Bucket<M>)
    requires Monoid(ops)
    ensures AddBucket(ops, x, y) == AddBucket(ops, y, x)
    ensures AddBucket(ops, AddBucket(ops, x, y), z) == AddBucket(ops, x, AddBucket(ops, y, z))
    ensures AddBucket(ops, EmptyBucket(), x) == x
  {
    EstimatorLaws(x.estimator, y.estimator, z.estimator);
  }

  lemma ServiceLaws()
    ensures Commutative(AddService()) && Associative(AddService())
  {
    InstanceLaws();
    var f := AddService();
    forall k, x, y
      ensures f(k, x, y) == f(k, y, x)
    {
      UnionCommutes(x.instances, y.instances, AddInstance());
      OverflowLaws(x.overflow, y.overflow, y.overflow);
    }
    forall k, x, y, z
      ensures f(k, f(k, x, y), z) == f(k, x, f(k, y, z))
    {
      UnionAssociates(x.instances, y.instances, z.instances, AddInstance());
      OverflowLaws(x.overflow, y.overflow, z.overflow);
    }
  }

  /** Plain sums may be taken in any order and bracketing. */
  lemma {:induction false} CombinedLaws(x: CombinedMetrics, y: CombinedMetrics, z: CombinedMetrics)
    ensures AddCombined(x, y) == AddCombined(y, x)
    ensures AddCombined(AddCombined(x, y), z) == AddCombined(x, AddCombined(y, z))
    ensures AddCombined(EmptyCombined, x) == x
  {
    assert Union(map[], x.services, AddService()) == x.services;
    hide Union, AddOverflow, AddEstimator, AddService;
    ServiceLaws();
    UnionCommutes(x.services, y.services, AddService());
    UnionAssociates(x.services, y.services, z.services, AddService());
    OverflowLaws(x.overflowServices, y.overflowServices, z.overflowServices);
    EstimatorLaws(x.estimator, y.estimator, z.estimator);
    assert AddEstimator(None, x.estimator) == x.estimator by { NoEstimatorAdds(x.estimator); }
  }

  lemma NoEstimatorAdds(x: Option<Sketch>)
    ensures AddEstimator(None, x) == x
  {
  }

  // ----- fitting the limits

  /** The groups of each kind that an instance, a service or a set of services holds. */
  ghost function CountsOfInstance(i: InstanceMetrics): Counters {
    Counters(|i.transactions|, |i.serviceTransactions|, |i.spans|)
  }

  ghost function CountsOfInstances(m: map<InstanceKey, InstanceMetrics>): Counters {
    Counters(MapCount(m, InstanceSize(Transactions)), MapCount(m, InstanceSize(ServiceTransactions)),
             MapCount(m, InstanceSize(Spans)))
  }

  ghost function CountsOfServices(m: map<ServiceKey, ServiceMetrics>): Counters {
    Counters(MapCount(m, ServiceSize(Transactions)), MapCount(m, ServiceSize(ServiceTransactions)),
             MapCount(m, ServiceSize(Spans)))
  }

  /** The counters after something that held `before` groups holds `after` groups. */
  ghost function Advance(c: Counters, before: Counters, after: Counters): Counters {
    Counters(c.transactions + after.transactions - before.transactions,
             c.serviceTransactions + after.serviceTransactions - before.serviceTransactions,
             c.spans + after.spans - before.spans)
  }

  ghost predicate AtMost(c: Counters, d: Counters) {
    c.transactions <= d.transactions && c.serviceTransactions <= d.serviceTransactions && c.spans <= d.spans
  }

  ghost function Globals(limits: Limits): Counters {
    Counters(limits.maxTransactions, limits.maxServiceTransactions, limits.maxSpans)
  }

  ghost predicate InstanceFits(limits: Limits, i: InstanceMetrics) {
    && |i.transactions| <= limits.maxTransactionsPerInstance
    && |i.serviceTransactions| <= limits.maxServiceTransactionsPerInstance
    && |i.spans| <= limits.maxSpansPerInstance / 2
  }

  ghost predicate InstancesFit(limits: Limits, m: map<InstanceKey, InstanceMetrics>) {
    && |m| <= limits.maxInstancesPerService
    && forall k :: k in m ==> InstanceFits(limits, m[k])
  }

  ghost predicate ServicesFit(limits: Limits, m: map<ServiceKey, ServiceMetrics>) {
    && |m| <= limits.maxServices
    && forall k :: k in m ==> InstancesFit(limits, m[k].instances)
  }

  /** The distinct keys of a state fit every limit; span groups must fit half of theirs. */
  ghost predicate Fits(limits: Limits, cm: CombinedMetrics) {
    && ServicesFit(limits, cm.services)
    && AtMost(CountsOfServices(cm.services), Globals(limits))
  }

  // ----- groups

  /** Up to `cap` groups, a rule stores every key in a slot of its own. */
  ghost predicate Roomy<K(!new), M(!new)>(rule: Rule<K, M>, cap: nat) {
    && cap <= rule.perInstance
    && forall g, k :: k in g || |g| < cap ==> rule.slot(g, k) == k
  }

  lemma RulesAreRoomy(limits: Limits, d: Digest)
    ensures Roomy(TransactionRule(limits, d), limits.maxTransactionsPerInstance)
    ensures Roomy(ServiceTransactionRule(limits, d), limits.maxServiceTransactionsPerInstance)
    ensures Roomy(SpanRule(limits, d), limits.maxSpansPerInstance / 2)
  {
  }

  lemma GroupExact<K(!new), M(!new)>(rule: Rule<K, M>, cap: nat, st: GroupState<K, M>, from: Keyed<K, M>)
    requires Roomy(rule, cap) && KeysEmbedded(st.groups)
    requires var target := Store(st.groups, from.key, from, AddKeyed(rule.ops));
             |target| <= cap && st.total + |target| - |st.groups| <= rule.global
    ensures var target := Store(st.groups, from.key, from, AddKeyed(rule.ops));
            && MergeGroup(rule, st, from) == GroupState(target, st.total + |target| - |st.groups|, st.overflow)
            && KeysEmbedded(target)
  {
    StoreGrows(st.groups, from.key, from, AddKeyed(rule.ops));
    assert rule.slot(st.groups, from.key) == from.key;
  }

  ghost function GroupsInto<K, M>(ops: Ops<M>, g: GroupMap<K, M>, s: seq<Keyed<K, M>>): GroupMap<K, M> {
    CollectInto(g, s, KeyOfGroup(), Itself(), AddKeyed(ops))
  }

  /** Groups that fit are merged by plain keyed addition, and the counter moves by the new keys. */
  lemma {:induction false} GroupsExact<K(!new), M(!new)>(rule: Rule<K, M>, cap: nat, st: GroupState<K, M>, from: seq<Keyed<K, M>>)
    requires Roomy(rule, cap) && KeysEmbedded(st.groups)
    requires var target := GroupsInto(rule.ops, st.groups, from);
             |target| <= cap && st.total + |target| - |st.groups| <= rule.global
    ensures var target := GroupsInto(rule.ops, st.groups, from);
            && MergeGroups(rule, st, from) == GroupState(target, st.total + |target| - |st.groups|, st.overflow)
            && KeysEmbedded(target)
  {
    if from != [] {
      var n := |from| - 1;
      var front := GroupsInto(rule.ops, st.groups, from[..n]);
      StoreGrows(front, from[n].key, from[n], AddKeyed(rule.ops));
      GroupsExact(rule, cap, st, from[..n]);
      GroupExact(rule, cap, MergeGroups(rule, st, from[..n]), from[n]);
    }
  }

  ghost function InstanceInto(i: InstanceMetrics, from: PbInstance): InstanceMetrics {
    InstanceMetrics(GroupsInto(TransactionOps, i.transactions, from.transactions),
                    GroupsInto(ServiceTransactionOps, i.serviceTransactions, from.serviceTransactions),
                    GroupsInto(SpanOps, i.spans, from.spans))
  }

  lemma InstanceIntoIsSum(i: InstanceMetrics, from: PbInstance)
    ensures InstanceInto(i, from) == AddInstance()(from.key, i, PlainInstance()(from))
  {
    KeyedAssociative();
    CollectIntoIsUnion(i.transactions, from.transactions, KeyOfGroup(), Itself(), AddKeyed(TransactionOps));
    CollectIntoIsUnion(i.serviceTransactions, from.serviceTransactions, KeyOfGroup(), Itself(), AddKeyed(ServiceTransactionOps));
    CollectIntoIsUnion(i.spans, from.spans, KeyOfGroup(), Itself(), AddKeyed(SpanOps));
  }

  ghost predicate InstanceEmbedded(i: InstanceMetrics) {
    KeysEmbedded(i.transactions) && KeysEmbedded(i.serviceTransactions) && KeysEmbedded(i.spans)
  }

  lemma TransactionsExact(limits: Limits, d: Digest, st: GroupState<TransactionKey, TransactionMetrics>,
                          from: seq<Keyed<TransactionKey, TransactionMetrics>>, target: TransactionGroups)
    requires KeysEmbedded(st.groups) && target == GroupsInto(TransactionOps, st.groups, from)
    requires |target| <= limits.maxTransactionsPerInstance && st.total + |target| - |st.groups| <= limits.maxTransactions
    ensures MergeGroups(TransactionRule(limits, d), st, from) == GroupState(target, st.total + |target| - |st.groups|, st.overflow)
    ensures KeysEmbedded(target)
  {
    RulesAreRoomy(limits, d);
    GroupsExact(TransactionRule(limits, d), limits.maxTransactionsPerInstance, st, from);
  }

  lemma ServiceTransactionsExact(limits: Limits, d: Digest, st: GroupState<ServiceTransactionKey, ServiceTransactionMetrics>,
                                 from: seq<Keyed<ServiceTransactionKey, ServiceTransactionMetrics>>, target: ServiceTransactionGroups)
    requires KeysEmbedded(st.groups) && target == GroupsInto(ServiceTransactionOps, st.groups, from)
    requires |target| <= limits.maxServiceTransactionsPerInstance
    requires st.total + |target| - |st.groups| <= limits.maxServiceTransactions
    ensures MergeGroups(ServiceTransactionRule(limits, d), st, from)
         == GroupState(target, st.total + |target| - |st.groups|, st.overflow)
    ensures KeysEmbedded(target)
  {
    RulesAreRoomy(limits, d);
    GroupsExact(ServiceTransactionRule(limits, d), limits.maxServiceTransactionsPerInstance, st, from);
  }

  lemma SpansExact(limits: Limits, d: Digest, st: GroupState<SpanKey, SpanMetrics>,
                   from: seq<Keyed<SpanKey, SpanMetrics>>, target: SpanGroups)
    requires KeysEmbedded(st.groups) && target == GroupsInto(SpanOps, st.groups, from)
    requires |target| <= limits.maxSpansPerInstance / 2 && st.total + |target| - |st.groups| <= limits.maxSpans
    ensures MergeGroups(SpanRule(limits, d), st, from) == GroupState(target, st.total + |target| - |st.groups|, st.overflow)
    ensures KeysEmbedded(target)
  {
    RulesAreRoomy(limits, d);
    GroupsExact(SpanRule(limits, d), limits.maxSpansPerInstance / 2, st, from);
  }

  lemma {:induction false} InstanceExact(limits: Limits, d: Digest, st: InstanceState, from: PbInstance, target: InstanceMetrics)
    requires InstanceEmbedded(st.instance) && target == InstanceInto(st.instance, from)
    requires InstanceFits(limits, target)
    requires AtMost(Advance(st.counters, CountsOfInstance(st.instance), CountsOfInstance(target)), Globals(limits))
    ensures MergeInstance(limits, d, st, from)
         == InstanceState(target, st.overflow, Advance(st.counters, CountsOfInstance(st.instance), CountsOfInstance(target)))
    ensures InstanceEmbedded(target)
  {
    TransactionsExact(limits, d, GroupState(st.instance.transactions, st.counters.transactions, st.overflow.transactions),
                      from.transactions, target.transactions);
    ServiceTransactionsExact(limits, d,
                             GroupState(st.instance.serviceTransactions, st.counters.serviceTransactions, st.overflow.serviceTransactions),
                             from.serviceTransactions, target.serviceTransactions);
    SpansExact(limits, d, GroupState(st.instance.spans, st.counters.spans, st.overflow.spans), from.spans, target.spans);
  }

  // ----- instances of a service

  lemma AddInstanceGrows(k: InstanceKey, x: InstanceMetrics, y: InstanceMetrics)
    ensures AtMost(CountsOfInstance(x), CountsOfInstance(AddInstance()(k, x, y)))
    ensures AtMost(CountsOfInstance(y), CountsOfInstance(AddInstance()(k, x, y)))
  {
    var r := AddInstance()(k, x, y);
    KeysGrow(x.transactions, r.transactions);
    KeysGrow(x.serviceTransactions, r.serviceTransactions);
    KeysGrow(x.spans, r.spans);
    KeysGrow(y.transactions, r.transactions);
    KeysGrow(y.serviceTransactions, r.serviceTransactions);
    KeysGrow(y.spans, r.spans);
  }

  ghost predicate SmallerInstances(m: map<InstanceKey, InstanceMetrics>, r: map<InstanceKey, InstanceMetrics>) {
    && m.Keys <= r.Keys
    && forall k :: k in m ==> AtMost(CountsOfInstance(m[k]), CountsOfInstance(r[k]))
  }

  /** A smaller set of instances fits whenever the larger one does, and holds no more groups. */
  lemma SmallerInstancesFit(limits: Limits, m: map<InstanceKey, InstanceMetrics>, r: map<InstanceKey, InstanceMetrics>)
    requires SmallerInstances(m, r)
    ensures InstancesFit(limits, r) ==> InstancesFit(limits, m)
    ensures AtMost(CountsOfInstances(m), CountsOfInstances(r))
  {
    hide MapCount, CountsOfInstance;
    KeysGrow(m, r);
    SmallerCount(m, r, Transactions);
    SmallerCount(m, r, ServiceTransactions);
    SmallerCount(m, r, Spans);
    if InstancesFit(limits, r) {
      SmallerInstancesFitEach(limits, m, r);
    }
  }

  lemma SmallerInstancesFitEach(limits: Limits, m: map<InstanceKey, InstanceMetrics>, r: map<InstanceKey, InstanceMetrics>)
    requires SmallerInstances(m, r) && InstancesFit(limits, r)
    ensures InstancesFit(limits, m)
  {
    hide MapCount;
    KeysGrow(m, r);
  }

  lemma SmallerCount(m: map<InstanceKey, InstanceMetrics>, r: map<InstanceKey, InstanceMetrics>, kind: Kind)
    requires SmallerInstances(m, r)
    ensures MapCount(m, InstanceSize(kind)) <= MapCount(r, InstanceSize(kind))
  {
    MapCountGrows(m, r, InstanceSize(kind));
  }

  lemma StoreInstanceGrows(m: map<InstanceKey, InstanceMetrics>, k: InstanceKey, v: InstanceMetrics)
    ensures SmallerInstances(m, Store(m, k, v, AddInstance()))
  {
    if k in m {
      AddInstanceGrows(k, m[k], v);
    }
  }

  ghost predicate InstancesEmbedded(m: map<InstanceKey, InstanceMetrics>) {
    forall k :: k in m ==> InstanceEmbedded(m[k])
  }

  ghost function InstancesInto(m: map<InstanceKey, InstanceMetrics>, s: seq<PbInstance>): map<InstanceKey, InstanceMetrics> {
    CollectInto(m, s, PbInstanceKey(), PlainInstance(), AddInstance())
  }

  ghost function StoreInstance(m: map<InstanceKey, InstanceMetrics>, from: PbInstance): map<InstanceKey, InstanceMetrics> {
    Store(m, from.key, PlainInstance()(from), AddInstance())
  }

  lemma StoreInstanceIs(svc: ServiceMetrics, from: PbInstance)
    ensures StoreInstance(svc.instances, from) == svc.instances[from.key := InstanceInto(InstanceOf(svc, from.key), from)]
    ensures |StoreInstance(svc.instances, from)| <= |svc.instances| ==> from.key in svc.instances
  {
    StoreGrows(svc.instances, from.key, PlainInstance()(from), AddInstance());
    if from.key in svc.instances {
      InstanceIntoIsSum(svc.instances[from.key], from);
    }
  }

  lemma CountsAfterStore(m: map<InstanceKey, InstanceMetrics>, k: InstanceKey, i: InstanceMetrics)
    ensures CountsOfInstances(m[k := i])
         == Advance(CountsOfInstances(m), CountsOfInstance(if k in m then m[k] else EmptyInstance), CountsOfInstance(i))
  {
    CountAfterStore(m, k, i, Transactions);
    CountAfterStore(m, k, i, ServiceTransactions);
    CountAfterStore(m, k, i, Spans);
  }

  lemma CountAfterStore(m: map<InstanceKey, InstanceMetrics>, k: InstanceKey, i: InstanceMetrics, kind: Kind)
    ensures MapCount(m[k := i], InstanceSize(kind))
         == MapCount(m, InstanceSize(kind)) - InstanceSize(kind)(if k in m then m[k] else EmptyInstance) + InstanceSize(kind)(i)
  {
    MapCountStore(m, InstanceSize(kind), k, i);
  }

  lemma ServiceInstanceExact(limits: Limits, d: Digest, st: ServiceState, from: PbInstance, target: map<InstanceKey, InstanceMetrics>)
    requires InstancesEmbedded(st.service.instances) && target == StoreInstance(st.service.instances, from)
    requires InstancesFit(limits, target)
    requires AtMost(Advance(st.counters, CountsOfInstances(st.service.instances), CountsOfInstances(target)), Globals(limits))
    ensures MergeServiceInstance(limits, d, st, from)
         == ServiceState(st.service.(instances := target),
                         Advance(st.counters, CountsOfInstances(st.service.instances), CountsOfInstances(target)), st.estimator)
    ensures InstancesEmbedded(target)
  {
    hide MapCount, InstanceInto, StoreInstance, MergeServiceInstance, InstanceFits;
    var m, k := st.service.instances, from.key;
    var i := InstanceOf(st.service, k);
    var i' := InstanceInto(i, from);
    StoreInstanceIs(st.service, from);
    CountsAfterStore(m, k, i');
    ReplaceInstanceExact(limits, d, st, from, i, i', target);
  }

  lemma ReplaceInstanceExact(limits: Limits, d: Digest, st: ServiceState, from: PbInstance, i: InstanceMetrics, i': InstanceMetrics,
                             target: map<InstanceKey, InstanceMetrics>)
    requires InstancesEmbedded(st.service.instances)
    requires i == InstanceOf(st.service, from.key) && i' == InstanceInto(i, from)
    requires target == st.service.instances[from.key := i'] && InstancesFit(limits, target)
    requires |target| <= |st.service.instances| ==> from.key in st.service.instances
    requires var c := Advance(st.counters, CountsOfInstance(i), CountsOfInstance(i')); AtMost(c, Globals(limits))
    ensures MergeServiceInstance(limits, d, st, from)
         == ServiceState(st.service.(instances := target), Advance(st.counters, CountsOfInstance(i), CountsOfInstance(i')), st.estimator)
    ensures InstancesEmbedded(target)
  {
    hide MergeInstance, MapCount, InstanceInto, Union;
    assert target[from.key] == i';
    InstanceExact(limits, d, InstanceState(i, st.service.overflow, st.counters), from, i');
  }

  lemma {:induction false} InstancesExact(limits: Limits, d: Digest, st: ServiceState, from: seq<PbInstance>, target: map<InstanceKey, InstanceMetrics>)
    requires InstancesEmbedded(st.service.instances) && target == InstancesInto(st.service.instances, from)
    requires InstancesFit(limits, target)
    requires AtMost(Advance(st.counters, CountsOfInstances(st.service.instances), CountsOfInstances(target)), Globals(limits))
    ensures MergeInstances(limits, d, st, from)
         == ServiceState(st.service.(instances := target),
                         Advance(st.counters, CountsOfInstances(st.service.instances), CountsOfInstances(target)), st.estimator)
    ensures InstancesEmbedded(target)
  {
    if from != [] {
      var n := |from| - 1;
      var front := InstancesInto(st.service.instances, from[..n]);
      assert target == StoreInstance(front, from[n]);
      hide MapCount, StoreInstance, InstancesInto, MergeServiceInstance, InstanceFits;
      StoreInstanceFits(limits, front, from[n]);
      InstancesExact(limits, d, st, from[..n], front);
      ServiceInstanceExact(limits, d, MergeInstances(limits, d, st, from[..n]), from[n], target);
    }
  }

  lemma StoreInstanceFits(limits: Limits, m: map<InstanceKey, InstanceMetrics>, from: PbInstance)
    ensures InstancesFit(limits, StoreInstance(m, from)) ==> InstancesFit(limits, m)
    ensures AtMost(CountsOfInstances(m), CountsOfInstances(StoreInstance(m, from)))
  {
    StoreInstanceGrows(m, from.key, PlainInstance()(from));
    SmallerInstancesFit(limits, m, StoreInstance(m, from));
  }

  // ----- services

  lemma {:induction false} EmptyUnions(o: Overflow, m: map<InstanceKey, InstanceMetrics>)
    ensures Union(map[], m, AddInstance()) == m
    ensures AddOverflow(EmptyOverflow, o) == o && AddOverflow(o, EmptyOverflow) == o
  {
    OverflowLaws(o, EmptyOverflow, o);
  }

  /** Merging a paired overflow message is plain addition. */
  lemma MergeOverflowIsSum(to: Overflow, from: Option<Overflow>)
    requires from.Some? ==> PairedOverflow(from.value)
    requires PairedOverflow(to)
    ensures MergeOverflow(to, from) == AddOverflow(to, OverflowOf(from))
    ensures PairedOverflow(MergeOverflow(to, from))
  {
    OpsAreMonoids();
    EmptyUnions(to, map[]);
    if from.Some? {
      MergeBucketIsSum(TransactionOps, to.transactions, from.value.transactions);
      MergeBucketIsSum(ServiceTransactionOps, to.serviceTransactions, from.value.serviceTransactions);
      MergeBucketIsSum(SpanOps, to.spans, from.value.spans);
    }
  }

  lemma MergeBucketIsSum<M(!new)>(ops: Ops<M>, to: Bucket<M>, from: Bucket<M>)
    requires Monoid(ops) && Paired(to) && Paired(from)
    ensures MergeBucket(ops, to, from) == AddBucket(ops, to, from)
    ensures Paired(MergeBucket(ops, to, from))
  {
  }

  ghost predicate ServiceReady(s: ServiceMetrics) {
    InstancesEmbedded(s.instances) && PairedOverflow(s.overflow)
  }

  ghost predicate ServicesReady(m: map<ServiceKey, ServiceMetrics>) {
    forall k :: k in m ==> ServiceReady(m[k])
  }

  ghost function ServiceInto(s: ServiceMetrics, from: PbService): ServiceMetrics {
    ServiceMetrics(InstancesInto(s.instances, from.instances), MergeOverflow(s.overflow, from.overflow))
  }

  ghost function StoreService(m: map<ServiceKey, ServiceMetrics>, from: PbService): map<ServiceKey, ServiceMetrics> {
    Store(m, from.key, PlainService()(from), AddService())
  }

  lemma ServiceIntoIsSum(s: ServiceMetrics, from: PbService)
    requires PairedOverflow(s.overflow) && (from.overflow.Some? ==> PairedOverflow(from.overflow.value))
    ensures ServiceInto(s, from) == AddService()(from.key, s, PlainService()(from))
    ensures PairedOverflow(ServiceInto(s, from).overflow)
  {
    InstanceLaws();
    CollectIntoIsUnion(s.instances, from.instances, PbInstanceKey(), PlainInstance(), AddInstance());
    MergeOverflowIsSum(s.overflow, from.overflow);
  }

  lemma ServiceIntoEmpty(from: PbService)
    requires from.overflow.Some? ==> PairedOverflow(from.overflow.value)
    ensures ServiceInto(EmptyService, from) == PlainService()(from)
  {
    MergeOverflowIsSum(EmptyOverflow, from.overflow);
    EmptyUnions(OverflowOf(from.overflow), map[]);
  }

  lemma StoreServiceIs(cm: CombinedMetrics, from: PbService)
    requires ServicesReady(cm.services) && (from.overflow.Some? ==> PairedOverflow(from.overflow.value))
    ensures StoreService(cm.services, from) == cm.services[from.key := ServiceInto(ServiceOf(cm, from.key), from)]
    ensures |StoreService(cm.services, from)| <= |cm.services| ==> from.key in cm.services
  {
    hide AddService, PlainService, ServiceInto;
    StoreGrows(cm.services, from.key, PlainService()(from), AddService());
    if from.key in cm.services {
      ServiceIntoIsSum(cm.services[from.key], from);
    } else {
      ServiceIntoEmpty(from);
    }
  }

  lemma ServiceCountsAfterStore(m: map<ServiceKey, ServiceMetrics>, k: ServiceKey, s: ServiceMetrics)
    ensures CountsOfServices(m[k := s])
         == Advance(CountsOfServices(m), CountsOfInstances(if k in m then m[k].instances else map[]), CountsOfInstances(s.instances))
  {
    ServiceCountAfterStore(m, k, s, Transactions);
    ServiceCountAfterStore(m, k, s, ServiceTransactions);
    ServiceCountAfterStore(m, k, s, Spans);
  }

  lemma ServiceCountAfterStore(m: map<ServiceKey, ServiceMetrics>, k: ServiceKey, s: ServiceMetrics, kind: Kind)
    ensures MapCount(m[k := s], ServiceSize(kind))
         == MapCount(m, ServiceSize(kind)) - MapCount(if k in m then m[k].instances else map[], InstanceSize(kind))
            + MapCount(s.instances, InstanceSize(kind))
  {
    MapCountStore(m, ServiceSize(kind), k, s);
  }

  lemma ReplaceServiceExact(limits: Limits, st: MergerState, from: PbService, s: ServiceMetrics, s': ServiceMetrics,
                            target: map<ServiceKey, ServiceMetrics>)
    requires ServicesReady(st.metrics.services) && (from.overflow.Some? ==> PairedOverflow(from.overflow.value))
    requires s == ServiceOf(st.metrics, from.key) && s' == ServiceInto(s, from)
    requires target == st.metrics.services[from.key := s'] && ServicesFit(limits, target)
    requires |target| <= |st.metrics.services| ==> from.key in st.metrics.services
    requires AtMost(Advance(st.counters, CountsOfInstances(s.instances), CountsOfInstances(s'.instances)), Globals(limits))
    ensures MergeService(limits, st, from)
         == MergerState(st.metrics.(services := target),
                        Advance(st.counters, CountsOfInstances(s.instances), CountsOfInstances(s'.instances)))
    ensures ServicesReady(target)
  {
    hide MapCount, InstancesInto, InstanceFits, MergeInstances, AddService, PlainService, MergeOverflow;
    assert InstancesFit(limits, s'.instances) by { assert target[from.key] == s'; }
    var sst := ServiceState(s.(overflow := MergeOverflow(s.overflow, from.overflow)), st.counters, st.metrics.estimator);
    assert ServiceReady(s);
    InstancesExact(limits, ServiceDigest(from.key), sst, from.instances, s'.instances);
    ServiceIntoIsSum(s, from);
  }

  lemma ServiceExact(limits: Limits, st: MergerState, from: PbService, target: map<ServiceKey, ServiceMetrics>)
    requires ServicesReady(st.metrics.services) && (from.overflow.Some? ==> PairedOverflow(from.overflow.value))
    requires target == StoreService(st.metrics.services, from) && ServicesFit(limits, target)
    requires AtMost(Advance(st.counters, CountsOfServices(st.metrics.services), CountsOfServices(target)), Globals(limits))
    ensures MergeService(limits, st, from)
         == MergerState(st.metrics.(services := target),
                        Advance(st.counters, CountsOfServices(st.metrics.services), CountsOfServices(target)))
    ensures ServicesReady(target)
  {
    hide MapCount, ServiceInto, StoreService, MergeService, InstancesFit;
    var s := ServiceOf(st.metrics, from.key);
    var s' := ServiceInto(s, from);
    StoreServiceIs(st.metrics, from);
    ServiceCountsAfterStore(st.metrics.services, from.key, s');
    ReplaceServiceExact(limits, st, from, s, s', target);
  }

  ghost predicate SmallerServices(m: map<ServiceKey, ServiceMetrics>, r: map<ServiceKey, ServiceMetrics>) {
    && m.Keys <= r.Keys
    && forall k :: k in m ==> SmallerInstances(m[k].instances, r[k].instances)
  }

  lemma AddServiceGrows(k: ServiceKey, x: ServiceMetrics, y: ServiceMetrics)
    ensures SmallerInstances(x.instances, AddService()(k, x, y).instances)
    ensures SmallerInstances(y.instances, AddService()(k, x, y).instances)
  {
    var r := Union(x.instances, y.instances, AddInstance());
    forall i | i in x.instances
      ensures AtMost(CountsOfInstance(x.instances[i]), CountsOfInstance(r[i]))
    {
      if i in y.instances {
        AddInstanceGrows(i, x.instances[i], y.instances[i]);
      }
    }
    forall i | i in y.instances
      ensures AtMost(CountsOfInstance(y.instances[i]), CountsOfInstance(r[i]))
    {
      if i in x.instances {
        AddInstanceGrows(i, x.instances[i], y.instances[i]);
      }
    }
  }

  lemma UnionServicesGrows(a: map<ServiceKey, ServiceMetrics>, b: map<ServiceKey, ServiceMetrics>)
    ensures SmallerServices(a, Union(a, b, AddService()))
    ensures SmallerServices(b, Union(a, b, AddService()))
  {
    hide AddService, CountsOfInstance;
    var r := Union(a, b, AddService());
    forall k | k in a
      ensures SmallerInstances(a[k].instances, r[k].instances)
    {
      if k in b {
        AddServiceGrows(k, a[k], b[k]);
      }
    }
    forall k | k in b
      ensures SmallerInstances(b[k].instances, r[k].instances)
    {
      if k in a {
        AddServiceGrows(k, a[k], b[k]);
      }
    }
  }

  lemma SmallerServicesFit(limits: Limits, m: map<ServiceKey, ServiceMetrics>, r: map<ServiceKey, ServiceMetrics>)
    requires SmallerServices(m, r)
    ensures ServicesFit(limits, r) ==> ServicesFit(limits, m)
    ensures AtMost(CountsOfServices(m), CountsOfServices(r))
  {
    hide MapCount, InstancesFit, SmallerInstances;
    KeysGrow(m, r);
    forall k | k in m
      ensures InstancesFit(limits, r[k].instances) ==> InstancesFit(limits, m[k].instances)
    {
      SmallerInstancesFit(limits, m[k].instances, r[k].instances);
    }
    SmallerServiceCount(m, r, Transactions);
    SmallerServiceCount(m, r, ServiceTransactions);
    SmallerServiceCount(m, r, Spans);
  }

  lemma SmallerServiceCount(m: map<ServiceKey, ServiceMetrics>, r: map<ServiceKey, ServiceMetrics>, kind: Kind)
    requires SmallerServices(m, r)
    ensures MapCount(m, ServiceSize(kind)) <= MapCount(r, ServiceSize(kind))
  {
    hide MapCount, SmallerInstances;
    forall k | k in r
      ensures k in m ==> ServiceSize(kind)(m[k]) <= ServiceSize(kind)(r[k])
      ensures 0 <= ServiceSize(kind)(r[k])
    {
      if k in m {
        SmallerCount(m[k].instances, r[k].instances, kind);
      }
      CountNonNegative(r[k].instances, InstanceSize(kind));
    }
    MapCountGrows(m, r, ServiceSize(kind));
  }

  ghost function ServicesInto(m: map<ServiceKey, ServiceMetrics>, s: seq<PbService>): map<ServiceKey, ServiceMetrics> {
    CollectInto(m, s, PbServiceKey(), PlainService(), AddService())
  }

  lemma StoreServiceGrows(m: map<ServiceKey, ServiceMetrics>, from: PbService)
    ensures SmallerServices(m, StoreService(m, from))
  {
    if from.key in m {
      AddServiceGrows(from.key, m[from.key], PlainService()(from));
    }
  }

  lemma {:induction false} ServicesExact(limits: Limits, st: MergerState, from: seq<PbService>, target: map<ServiceKey, ServiceMetrics>)
    requires ServicesReady(st.metrics.services) && PairedServices(from)
    requires target == ServicesInto(st.metrics.services, from) && ServicesFit(limits, target)
    requires AtMost(Advance(st.counters, CountsOfServices(st.metrics.services), CountsOfServices(target)), Globals(limits))
    ensures MergeServices(limits, st, from)
         == MergerState(st.metrics.(services := target),
                        Advance(st.counters, CountsOfServices(st.metrics.services), CountsOfServices(target)))
    ensures ServicesReady(target)
  {
    if from != [] {
      var n := |from| - 1;
      var front := ServicesInto(st.metrics.services, from[..n]);
      assert target == StoreService(front, from[n]);
      hide MapCount, StoreService, ServicesInto, MergeService, InstancesFit, ServiceReady, PairedOverflow;
      StoreServiceGrows(front, from[n]);
      SmallerServicesFit(limits, front, target);
      ServicesExact(limits, st, from[..n], front);
      ServiceExact(limits, MergeServices(limits, st, from[..n]), from[n], target);
    }
  }

  // ----- messages

  /** A merge state on which the next message can be added exactly. */
  ghost predicate Ready(st: MergerState) {
    ServicesReady(st.metrics.services) && Sealed(st.metrics) && st.counters == CountsOfServices(st.metrics.services)
  }

  lemma HeaderIsSum(cm: CombinedMetrics, from: PbCombined)
    requires Sealed(cm) && SealedPb(from)
    ensures MergeHeader(cm, from) == AddCombined(cm, Plain(from)).(services := cm.services)
  {
    MergeOverflowIsSum(cm.overflowServices, from.overflowServices);
    EmptyUnions(cm.overflowServices, map[]);
  }

  /** One message that fits: the merge is the plain sum of the state and the message. */
  lemma {:induction false} MessageExact(limits: Limits, st: MergerState, from: PbCombined)
    requires Ready(st) && SealedPb(from) && Fits(limits, AddCombined(st.metrics, Plain(from)))
    ensures MergeMessage(limits, st, from).metrics == AddCombined(st.metrics, Plain(from))
    ensures Ready(MergeMessage(limits, st, from))
  {
    var target := AddCombined(st.metrics, Plain(from));
    var h := st.(metrics := MergeHeader(st.metrics, from));
    HeaderIsSum(st.metrics, from);
    assert ServicesInto(st.metrics.services, from.services) == target.services by {
      ServiceLaws();
      CollectIntoIsUnion(st.metrics.services, from.services, PbServiceKey(), PlainService(), AddService());
    }
    assert PairedServices(from.services) by {
      assert forall i :: 0 <= i < |from.services| ==> SealedPbService(from.services[i], from.estimator);
    }
    hide MapCount, ServicesInto, MergeServices, ServicesFit, PairedServices, AddCombined, Sealed;
    ServicesExact(limits, h, from.services, target.services);
    MergeMessageConserves(EventsTotal, limits, st, from);
  }

  lemma AddCombinedServices(x: CombinedMetrics, y: CombinedMetrics)
    ensures AddCombined(x, y).services == Union(x.services, y.services, AddService())
  {
  }

  /** What fits together also fits apart. */
  lemma FitsApart(limits: Limits, x: CombinedMetrics, y: CombinedMetrics)
    requires Fits(limits, AddCombined(x, y))
    ensures Fits(limits, x) && Fits(limits, y)
  {
    hide MapCount, ServicesFit, SmallerServices, AddCombined, Union;
    AddCombinedServices(x, y);
    UnionServicesGrows(x.services, y.services);
    SmallerServicesFit(limits, x.services, AddCombined(x, y).services);
    SmallerServicesFit(limits, y.services, AddCombined(x, y).services);
  }

  lemma {:induction false} MergeAllExact(limits: Limits, from: seq<PbCombined>)
    requires AllSealed(from) && Fits(limits, PlainSum(from))
    ensures MergeAll(limits, from).metrics == PlainSum(from)
    ensures Ready(MergeAll(limits, from))
  {
    if from != [] {
      var n := |from| - 1;
      FitsApart(limits, PlainSum(from[..n]), Plain(from[n]));
      MergeAllExact(limits, from[..n]);
      hide Fits, AddCombined, Ready, SealedPb, MergeMessage;
      MessageExact(limits, MergeAll(limits, from[..n]), from[n]);
    }
  }

  // ----- serialization

  lemma GroupsDecode<K(!new), M>(ops: Ops<M>, g: GroupMap<K, M>, out: seq<Keyed<K, M>>)
    requires KeysEmbedded(g) && EncodesGroups(g, out)
    ensures GroupsOf(ops, out) == g
  {
    var keys :| ListedAs(g, keys, out);
    assert forall i :: 0 <= i < |out| ==> keys[i] in keys;
    assert KeysOf(out, KeyOfGroup()) == keys;
    CollectListed(g, out, KeyOfGroup(), Itself(), AddKeyed(ops));
  }

  lemma InstanceDecodes(i: InstanceMetrics, out: PbInstance)
    requires InstanceEmbedded(i) && EncodesInstance(i, out)
    ensures PlainInstance()(out) == i
  {
    GroupsDecode(TransactionOps, i.transactions, out.transactions);
    GroupsDecode(ServiceTransactionOps, i.serviceTransactions, out.serviceTransactions);
    GroupsDecode(SpanOps, i.spans, out.spans);
  }

  lemma InstancesDecode(m: map<InstanceKey, InstanceMetrics>, out: seq<PbInstance>)
    requires InstancesEmbedded(m) && EncodesInstances(m, out)
    ensures InstancesOf(out) == m
  {
    hide InstanceEmbedded, EncodesInstance, PlainInstance;
    assert KeysOf(out, PbInstanceKey()) == InstanceKeys(out);
    forall i | 0 <= i < |out|
      ensures PlainInstance()(out[i]) == m[out[i].key]
    {
      InstanceDecodes(m[out[i].key], out[i]);
    }
    CollectListed(m, out, PbInstanceKey(), PlainInstance(), AddInstance());
  }

  lemma ServiceDecodes(s: ServiceMetrics, out: PbService)
    requires ServiceReady(s) && EncodesService(s, out)
    ensures PlainService()(out) == s
  {
    InstancesDecode(s.instances, out.instances);
  }

  /** Every encoding of a state decodes, before limits, to that state. */
  lemma {:induction false} EncodingExact(cm: CombinedMetrics, out: PbCombined)
    requires ServicesReady(cm.services) && Sealed(cm) && EncodesCombined(cm, out)
    ensures Plain(out) == cm
  {
    hide ServiceReady, EncodesService, PlainService;
    assert KeysOf(out.services, PbServiceKey()) == ServiceKeys(out.services);
    forall i | 0 <= i < |out.services|
      ensures PlainService()(out.services[i]) == cm.services[out.services[i].key]
    {
      ServiceDecodes(cm.services[out.services[i].key], out.services[i]);
    }
    CollectListed(cm.services, out.services, PbServiceKey(), PlainService(), AddService());
  }

  // ----- merge trees

  lemma {:induction false} PlainSumAppend(s: seq<PbCombined>, t: seq<PbCombined>)
    ensures PlainSum(s + t) == AddCombined(PlainSum(s), PlainSum(t))
    decreases |t|
  {
    hide AddCombined, Plain;
    if t == [] {
      assert s + t == s;
      CombinedLaws(EmptyCombined, PlainSum(s), EmptyCombined);
      CombinedLaws(PlainSum(s), EmptyCombined, EmptyCombined);
    } else {
      var n := |t| - 1;
      PlainSumAppend(s, t[..n]);
      assert (s + t)[..|s + t| - 1] == s + t[..n];
      CombinedLaws(PlainSum(s), PlainSum(t[..n]), Plain(t[n]));
    }
  }

  /** A merge tree whose operands' keys all fit yields exactly the plain keyed sum of the operands. */
  lemma {:induction false} TreeExact(limits: Limits, t: MergeTree)
    requires ValidTree(limits, t) && AllSealed(Operands(t))
    requires Fits(limits, PlainSum(Operands(t)))
    ensures Plain(t.value) == PlainSum(Operands(t))
    decreases t
  {
    match t
    case Operand(v) =>
      assert Operands(t)[..0] == [];
      CombinedLaws(Plain(v), Plain(v), Plain(v));
    case Merged(inputs, value) =>
      TreesExact(limits, t, inputs);
      hide Fits, Plain, AddCombined, SealedPb, EncodesCombined;
      TreesConserve(EventsTotal, limits, t, inputs);
      MergeAllExact(limits, Values(inputs));
      EncodingExact(MergeAll(limits, Values(inputs)).metrics, value);
  }

  lemma {:induction false} TreesExact(limits: Limits, t: MergeTree, ts: seq<MergeTree>)
    requires forall i :: 0 <= i < |ts| ==> ts[i] < t && ValidTree(limits, ts[i])
    requires AllSealed(OperandsOf(t, ts)) && Fits(limits, PlainSum(OperandsOf(t, ts)))
    ensures PlainSum(Values(ts)) == PlainSum(OperandsOf(t, ts))
    decreases t, |ts|
  {
    if ts != [] {
      hide Fits, Plain, AddCombined, SealedPb;
      var n := |ts| - 1;
      var front, last := OperandsOf(t, ts[..n]), Operands(ts[n]);
      AllSealedAppend(front, last);
      PlainSumAppend(front, last);
      FitsApart(limits, PlainSum(front), PlainSum(last));
      TreesExact(limits, t, ts[..n]);
      TreeExact(limits, ts[n]);
      ValuesLast(ts);
      assert Values(ts)[..n] == Values(ts[..n]);
    }
  }

  lemma {:induction false} PlainSumPermutes(s: seq<PbCombined>, t: seq<PbCombined>)
    requires multiset(s) == multiset(t)
    ensures PlainSum(s) == PlainSum(t)
    decreases |s|
  {
    hide AddCombined, Plain;
    if s == [] {
      assert |t| == |multiset(t)| == 0;
    } else {
      var i := TakeLast(s, t);
      PlainSumPermutes(s[..|s| - 1], t[..i] + t[i + 1..]);
      MoveLast(t[..i], t[i], t[i + 1..]);
    }
  }

  lemma MoveLast(u: seq<PbCombined>, x: PbCombined, v: seq<PbCombined>)
    ensures PlainSum((u + [x]) + v) == AddCombined(PlainSum(u + v), Plain(x))
  {
    hide AddCombined, Plain;
    assert (u + [x])[..|u|] == u;
    PlainSumAppend(u + [x], v);
    PlainSumAppend(u, v);
    CombinedLaws(PlainSum(u), Plain(x), PlainSum(v));
    CombinedLaws(Plain(x), PlainSum(v), PlainSum(v));
    CombinedLaws(PlainSum(u), PlainSum(v), Plain(x));
  }

  /** Neither order nor bracketing shows: two trees over the same fitting operands carry equal
      groups, equal overflow and equal totals. */
  lemma {:induction false} FittingTreesAgree(limits: Limits, t: MergeTree, u: MergeTree)
    requires ValidTree(limits, t) && ValidTree(limits, u)
    requires AllSealed(Operands(t)) && multiset(Operands(t)) == multiset(Operands(u))
    requires Fits(limits, PlainSum(Operands(t)))
    ensures Plain(t.value) == Plain(u.value)
  {
    hide Fits, Plain, AddCombined, SealedPb, ValidTree;
    var a, b := Operands(t), Operands(u);
    assert forall x :: x in a <==> x in multiset(a);
    assert forall x :: x in b <==> x in multiset(b);
    AllSealedIff(a);
    AllSealedIff(b);
    PlainSumPermutes(a, b);
    TreeExact(limits, t);
    TreeExact(limits, u);
  }

  // ----- no new overflow

  ghost predicate Clean(cm: CombinedMetrics) {
    && cm.overflowServices == EmptyOverflow && cm.estimator.None?
    && forall k :: k in cm.services ==> cm.services[k].overflow == EmptyOverflow
  }

  /** Operands without overflow add up to a sum without overflow, so fitting merges create none. */
  lemma {:induction false} PlainSumClean(s: seq<PbCombined>)
    requires forall x :: x in s ==> Clean(Plain(x))
    ensures Clean(PlainSum(s))
  {
    if s != [] {
      var n := |s| - 1;
      assert forall x :: x in s[..n] ==> x in s;
      hide Clean, AddCombined, Plain;
      PlainSumClean(s[..n]);
      assert s[n] in s;
      CleanAdds(PlainSum(s[..n]), Plain(s[n]));
    } else {
      assert PlainSum(s) == EmptyCombined;
    }
  }

  lemma CleanAdds(x: CombinedMetrics, y: CombinedMetrics)
    requires Clean(x) && Clean(y)
    ensures Clean(AddCombined(x, y))
  {
    assert AddOverflow(EmptyOverflow, EmptyOverflow) == EmptyOverflow;
  }
}
