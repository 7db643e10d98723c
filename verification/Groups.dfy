/** Merging keyed groups under a per-instance and a global limit. The three group kinds of an
    instance differ only in how values add up, which slot a key takes and what is hashed. */
module Groups {
  import opened Histograms
  import opened Models
  import opened Sums

  type GroupMap<!K, M> = map<K, Keyed<K, M>>

  datatype Rule<!K, !M> = Rule(ops: Ops<M>,
                               slot: (GroupMap<K, M>, K) -> K,
                               digest: K -> Digest,
                               perInstance: nat,
                               global: nat)

  /** The groups of one instance, the number of groups of this kind stored in the whole merge, and
      the overflow bucket of the service. */
  datatype GroupState<!K, M> = GroupState(groups: GroupMap<K, M>, total: int, overflow: Bucket<M>)

  /** `overflow*.Merge`: one group diverted to an overflow bucket. */
  function Divert<M>(ops: Ops<M>, to: Bucket<M>, from: M, d: Digest): Bucket<M> {
    var base := if to.metrics.Some? then to.metrics.value else ops.zero;
    Bucket(Some(ops.add(base, from)), InsertHash(to.estimator, d))
  }

  /** `overflow*.MergeOverflow` after `overflow.FromProto`: both fields of the pair must be set. */
  function MergeBucket<M>(ops: Ops<M>, to: Bucket<M>, from: Bucket<M>): Bucket<M> {
    if from.metrics.Some? && from.estimator.Some? then
      var base := if to.metrics.Some? then to.metrics.value else ops.zero;
      Bucket(Some(ops.add(base, from.metrics.value)), MergeEstimator(to.estimator, from.estimator.value))
    else
      to
  }

  function MergeGroup<K, M>(rule: Rule<K, M>, st: GroupState<K, M>, from: Keyed<K, M>): GroupState<K, M> {
    var k := rule.slot(st.groups, from.key);
    if k in st.groups then
      var was := st.groups[k];
      st.(groups := st.groups[k := Keyed(was.key, rule.ops.add(was.metrics, from.metrics))])
    else if |st.groups| >= rule.perInstance || st.total >= rule.global then
      st.(overflow := Divert(rule.ops, st.overflow, from.metrics, rule.digest(k)))
    else
      GroupState(st.groups[k := Keyed(k, from.metrics)], st.total + 1, st.overflow)
  }

  function MergeGroups<K, M>(rule: Rule<K, M>, st: GroupState<K, M>, from: seq<Keyed<K, M>>): GroupState<K, M> {
    if from == [] then st
    else MergeGroup(rule, MergeGroups(rule, st, from[..|from| - 1]), from[|from| - 1])
  }

  /** `mergeToOverflowFromSIM` for one kind: every group is diverted. */
  function DivertAll<K, M>(rule: Rule<K, M>, to: Bucket<M>, from: seq<Keyed<K, M>>): Bucket<M> {
    if from == [] then to
    else
      var last := from[|from| - 1];
      Divert(rule.ops, DivertAll(rule, to, from[..|from| - 1]), last.metrics, rule.digest(last.key))
  }

  // ----- the rules of the three kinds

  function Same<K, M>(): (GroupMap<K, M>, K) -> K { (g, k) => k }

  /** Once half of the limit is used, a span key that has no group of its own loses its name. */
  function SpanSlot(limit: nat): (GroupMap<SpanKey, SpanMetrics>, SpanKey) -> SpanKey {
    (g: GroupMap<SpanKey, SpanMetrics>, k: SpanKey) =>
      if k !in g && |g| >= limit / 2 then k.(spanName := "") else k
  }

  function TransactionRule(limits: Limits, d: Digest): Rule<TransactionKey, TransactionMetrics> {
    Rule(TransactionOps, Same(), k => TransactionDigest(d, k), limits.maxTransactionsPerInstance, limits.maxTransactions)
  }

  function ServiceTransactionRule(limits: Limits, d: Digest): Rule<ServiceTransactionKey, ServiceTransactionMetrics> {
    Rule(ServiceTransactionOps, Same(), k => ServiceTransactionDigest(d, k),
         limits.maxServiceTransactionsPerInstance, limits.maxServiceTransactions)
  }

  function SpanRule(limits: Limits, d: Digest): Rule<SpanKey, SpanMetrics> {
    Rule(SpanOps, SpanSlot(limits.maxSpansPerInstance), k => SpanDigest(d, k), limits.maxSpansPerInstance, limits.maxSpans)
  }

  // ----- conservation

  ghost predicate Additive<M(!new)>(ops: Ops<M>, mass: M -> real) {
    && mass(ops.zero) == 0.0
    && forall x, y :: mass(ops.add(x, y)) == mass(x) + mass(y)
  }

  ghost function OfKeyed<K, M>(mass: M -> real): Keyed<K, M> -> real {
    (g: Keyed<K, M>) => mass(g.metrics)
  }

  ghost function BucketMass<M>(b: Bucket<M>, mass: M -> real): real {
    if b.metrics.Some? then mass(b.metrics.value) else 0.0
  }

  /** Everything that kept groups and the overflow bucket hold together. */
  ghost function StateMass<K, M>(st: GroupState<K, M>, mass: M -> real): real {
    MapSum(st.groups, OfKeyed<K, M>(mass)) + BucketMass(st.overflow, mass)
  }

  lemma DivertConserves<M(!new)>(ops: Ops<M>, mass: M -> real, to: Bucket<M>, from: M, d: Digest)
    requires Additive(ops, mass)
    ensures BucketMass(Divert(ops, to, from, d), mass) == BucketMass(to, mass) + mass(from)
  {
  }

  lemma MergeGroupConserves<K, M(!new)>(rule: Rule<K, M>, mass: M -> real, st: GroupState<K, M>, from: Keyed<K, M>)
    requires Additive(rule.ops, mass)
    ensures StateMass(MergeGroup(rule, st, from), mass) == StateMass(st, mass) + mass(from.metrics)
  {
    var k := rule.slot(st.groups, from.key);
    if k in st.groups {
      var was := st.groups[k];
      MapSumStore(st.groups, OfKeyed(mass), k, Keyed(was.key, rule.ops.add(was.metrics, from.metrics)));
    } else if |st.groups| >= rule.perInstance || st.total >= rule.global {
      DivertConserves(rule.ops, mass, st.overflow, from.metrics, rule.digest(k));
    } else {
      MapSumStore(st.groups, OfKeyed(mass), k, Keyed(k, from.metrics));
    }
  }

  /** Whatever the limits, no group's values are lost: each goes to a kept group or to overflow. */
  lemma {:induction false} MergeGroupsConserves<K, M(!new)>(rule: Rule<K, M>, mass: M -> real, st: GroupState<K, M>, from: seq<Keyed<K, M>>)
    requires Additive(rule.ops, mass)
    ensures StateMass(MergeGroups(rule, st, from), mass) == StateMass(st, mass) + SeqSum(from, OfKeyed(mass))
  {
    if from != [] {
      var n := |from| - 1;
      MergeGroupsConserves(rule, mass, st, from[..n]);
      MergeGroupConserves(rule, mass, MergeGroups(rule, st, from[..n]), from[n]);
    }
  }

  lemma {:induction false} DivertAllConserves<K, M(!new)>(rule: Rule<K, M>, mass: M -> real, to: Bucket<M>, from: seq<Keyed<K, M>>)
    requires Additive(rule.ops, mass)
    ensures BucketMass(DivertAll(rule, to, from), mass) == BucketMass(to, mass) + SeqSum(from, OfKeyed(mass))
  {
    if from != [] {
      var n := |from| - 1;
      DivertAllConserves(rule, mass, to, from[..n]);
      DivertConserves(rule.ops, mass, DivertAll(rule, to, from[..n]), from[n].metrics, rule.digest(from[n].key));
    }
  }

  // ----- limits, embedded keys and overflow pairs

  /** Every stored group carries the key it is stored under, so emitting values emits distinct keys. */
  ghost predicate KeysEmbedded<K, M>(g: GroupMap<K, M>) {
    forall k :: k in g ==> g[k].key == k
  }

  /** Metrics are present exactly when the estimator is. */
  ghost predicate Paired<M>(b: Bucket<M>) {
    b.metrics.Some? <==> b.estimator.Some?
  }

  lemma {:induction false} MergeGroupsKeeps<K, M>(rule: Rule<K, M>, st: GroupState<K, M>, from: seq<Keyed<K, M>>)
    ensures var r := MergeGroups(rule, st, from);
            && r.total - st.total == |r.groups| - |st.groups| >= 0
            && (|st.groups| <= rule.perInstance ==> |r.groups| <= rule.perInstance)
            && (st.total <= rule.global ==> r.total <= rule.global)
            && (KeysEmbedded(st.groups) ==> KeysEmbedded(r.groups))
            && (Paired(st.overflow) ==> Paired(r.overflow))
  {
    if from != [] {
      MergeGroupsKeeps(rule, st, from[..|from| - 1]);
    }
  }

  lemma {:induction false} DivertAllKeeps<K, M>(rule: Rule<K, M>, to: Bucket<M>, from: seq<Keyed<K, M>>)
    requires Paired(to)
    ensures Paired(DivertAll(rule, to, from))
    ensures from != [] ==> DivertAll(rule, to, from).metrics.Some?
  {
    if from != [] {
      DivertAllKeeps(rule, to, from[..|from| - 1]);
    }
  }

  ghost function Named(g: GroupMap<SpanKey, SpanMetrics>): set<SpanKey> {
    set k | k in g && k.spanName != ""
  }

  /** At most half of an instance's span groups keep their span name. */
  lemma {:induction false} NamedSpansBounded(limits: Limits, d: Digest, st: GroupState<SpanKey, SpanMetrics>, from: seq<Keyed<SpanKey, SpanMetrics>>)
    requires |Named(st.groups)| <= limits.maxSpansPerInstance / 2
    ensures |Named(MergeGroups(SpanRule(limits, d), st, from).groups)| <= limits.maxSpansPerInstance / 2
  {
    if from != [] {
      var n := |from| - 1;
      NamedSpansBounded(limits, d, st, from[..n]);
      var rule := SpanRule(limits, d);
      var p := MergeGroups(rule, st, from[..n]);
      var r := MergeGroup(rule, p, from[n]);
      var k := rule.slot(p.groups, from[n].key);
      if k in p.groups || k.spanName == "" {
        assert Named(r.groups) == Named(p.groups);
      } else if |p.groups| < limits.maxSpansPerInstance / 2 {
        SubsetSize(Named(r.groups), r.groups.Keys);
        assert |r.groups.Keys| <= |p.groups| + 1;
      }
    }
  }

  lemma {:induction false} SubsetSize<T>(a: set<T>, b: set<T>)
    requires a <= b
    ensures |a| <= |b|
  {
    assert b == a + (b - a);
  }
}
