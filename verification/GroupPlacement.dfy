/** Which groups are kept and which overflow, exactly: what a merge of groups yields is determined by the keys
    that it ends up with, and a group overflows only when a limit is reached. */
module GroupPlacement {
  import opened Histograms
  import opened Models
  import opened Groups
  import opened MergerExact

  ghost predicate Full<K, M>(rule: Rule<K, M>, st: GroupState<K, M>) {
    |st.groups| >= rule.perInstance || st.total >= rule.global
  }

  /** The sum of the picked groups, on top of what was there. */
  ghost function Gathered<K, M>(ops: Ops<M>, was: Option<M>, s: seq<Keyed<K, M>>, pick: K -> bool): Option<M> {
    if s == [] then was
    else
      var last := s[|s| - 1];
      var before := Gathered(ops, was, s[..|s| - 1], pick);
      if !pick(last.key) then before
      else if before.Some? then Some(ops.add(before.value, last.metrics))
      else Some(last.metrics)
  }

  ghost function DigestsOf<K, M>(rule: Rule<K, M>, g: GroupMap<K, M>, s: seq<Keyed<K, M>>): Sketch {
    set i | 0 <= i < |s| && rule.slot(g, s[i].key) !in g :: rule.digest(rule.slot(g, s[i].key))
  }

  ghost function Seen(e: Option<Sketch>): Sketch {
    if e.Some? then e.value else {}
  }

  ghost function KeptAs<K, M>(rule: Rule<K, M>, g: GroupMap<K, M>, k: K): K -> bool {
    (x: K) => rule.slot(g, x) == k
  }

  ghost function NotKept<K, M>(rule: Rule<K, M>, g: GroupMap<K, M>): K -> bool {
    (x: K) => rule.slot(g, x) !in g
  }

  ghost function MetricsAt<K, M>(g: GroupMap<K, M>, k: K): Option<M> {
    if k in g then Some(g[k].metrics) else None
  }

  /** Each kept group is the sum of all groups that its slot stands for, the overflow is the sum of all others
      with exactly their digests, and there are others only when a limit is reached. */
  ghost predicate Placed<K(!new), M>(rule: Rule<K, M>, st: GroupState<K, M>, from: seq<Keyed<K, M>>, r: GroupState<K, M>) {
    && (forall k :: k in st.groups ==> k in r.groups)
    && (forall k :: k in r.groups ==> MetricsAt(r.groups, k) == Gathered(rule.ops, MetricsAt(st.groups, k), from, KeptAs(rule, r.groups, k)))
    && r.overflow.metrics == Gathered(rule.ops, st.overflow.metrics, from, NotKept(rule, r.groups))
    && Inserted(st.overflow.estimator, DigestsOf(rule, r.groups, from), r.overflow.estimator)
    && Settled(rule, from, r)
  }

  /** A sketch after the hashes of some inputs were inserted; it is made for the first one. */
  ghost predicate Inserted(was: Option<Sketch>, inputs: Sketch, e: Option<Sketch>) {
    Seen(e) == Seen(was) + inputs && (e.Some? <==> was.Some? || inputs != {})
  }

  // ----- slots do not change once they are settled

  ghost predicate Stable<K(!new), M(!new)>(rule: Rule<K, M>) {
    && (forall g: GroupMap<K, M>, y, v, x {:trigger rule.slot(g[y := v], x)} :: y in g ==> rule.slot(g[y := v], x) == rule.slot(g, x))
    && (forall g: GroupMap<K, M>, k, v, x {:trigger rule.slot(g[k := v], x)} ::
          k !in g && (exists k' :: rule.slot(g, k') == k) && (rule.slot(g, x) in g || rule.slot(g, x) == k) ==>
            rule.slot(g[k := v], x) == rule.slot(g, x))
  }

  lemma SpanRuleIsStable(limits: Limits, d: Digest)
    ensures Stable(SpanRule(limits, d))
  {
    var rule := SpanRule(limits, d);
    forall g: GroupMap<SpanKey, SpanMetrics>, k, v, x {:trigger rule.slot(g[k := v], x)} |
      k !in g && (exists k' :: rule.slot(g, k') == k) && (rule.slot(g, x) in g || rule.slot(g, x) == k)
      ensures rule.slot(g[k := v], x) == rule.slot(g, x)
    {
      var k' :| rule.slot(g, k') == k;
      assert |g[k := v]| == |g| + 1;
    }
  }

  lemma {:induction false} RulesAreStable(limits: Limits, d: Digest)
    ensures Stable(TransactionRule(limits, d)) && Stable(ServiceTransactionRule(limits, d)) && Stable(SpanRule(limits, d))
  {
    SpanRuleIsStable(limits, d);
  }

  lemma {:induction false} GatheredSame<K(!new), M>(ops: Ops<M>, was: Option<M>, s: seq<Keyed<K, M>>, p: K -> bool, q: K -> bool)
    requires forall i :: 0 <= i < |s| ==> p(s[i].key) == q(s[i].key)
    ensures Gathered(ops, was, s, p) == Gathered(ops, was, s, q)
  {
    if s != [] {
      GatheredSame(ops, was, s[..|s| - 1], p, q);
    }
  }

  lemma {:induction false} GatheredNone<K(!new), M>(ops: Ops<M>, was: Option<M>, s: seq<Keyed<K, M>>, p: K -> bool)
    requires forall i :: 0 <= i < |s| ==> !p(s[i].key)
    ensures Gathered(ops, was, s, p) == was
  {
    if s != [] {
      GatheredNone(ops, was, s[..|s| - 1], p);
    }
  }

  /** The groups `g` became `h`, and every group seen so far keeps its slot. */
  ghost predicate SlotsKept<K, M>(rule: Rule<K, M>, s: seq<Keyed<K, M>>, g: GroupMap<K, M>, h: GroupMap<K, M>) {
    forall i :: 0 <= i < |s| ==>
      rule.slot(h, s[i].key) == rule.slot(g, s[i].key) && (rule.slot(g, s[i].key) in g <==> rule.slot(g, s[i].key) in h)
  }

  lemma GatheredLast<K(!new), M>(ops: Ops<M>, was: Option<M>, s: seq<Keyed<K, M>>, x: Keyed<K, M>, p: K -> bool, q: K -> bool)
    requires forall i :: 0 <= i < |s| ==> p(s[i].key) == q(s[i].key)
    ensures var before := Gathered(ops, was, s, p);
            Gathered(ops, was, s + [x], q) == if !q(x.key) then before
                                              else if before.Some? then Some(ops.add(before.value, x.metrics)) else Some(x.metrics)
  {
    GatheredSame(ops, was, s, p, q);
    assert (s + [x])[..|s|] == s;
  }

  lemma DigestsLast<K, M>(rule: Rule<K, M>, s: seq<Keyed<K, M>>, x: Keyed<K, M>, g: GroupMap<K, M>, h: GroupMap<K, M>)
    requires SlotsKept(rule, s, g, h)
    ensures DigestsOf(rule, h, s + [x])
            == if rule.slot(h, x.key) in h then DigestsOf(rule, g, s) else DigestsOf(rule, g, s) + {rule.digest(rule.slot(h, x.key))}
  {
    var u := s + [x];
    assert u[|s|] == x && forall i :: 0 <= i < |s| ==> u[i] == s[i];
    forall d | d in DigestsOf(rule, g, s)
      ensures d in DigestsOf(rule, h, u)
    {
      var i :| 0 <= i < |s| && rule.slot(g, s[i].key) !in g && d == rule.digest(rule.slot(g, s[i].key));
      assert rule.slot(h, u[i].key) !in h;
    }
    if rule.slot(h, x.key) !in h {
      assert rule.slot(h, u[|s|].key) !in h;
    }
  }

  lemma SlotKept<K(!new), M(!new)>(rule: Rule<K, M>, g: GroupMap<K, M>, k: K, v: Keyed<K, M>, x: K)
    requires Stable(rule) && (k in g || ((exists k' :: rule.slot(g, k') == k) && (rule.slot(g, x) in g || rule.slot(g, x) == k)))
    ensures rule.slot(g[k := v], x) == rule.slot(g, x)
  {
  }

  /** Everything that is not kept means that a limit is reached. */
  ghost predicate Settled<K, M>(rule: Rule<K, M>, s: seq<Keyed<K, M>>, p: GroupState<K, M>) {
    forall i :: 0 <= i < |s| && rule.slot(p.groups, s[i].key) !in p.groups ==> Full(rule, p)
  }

  lemma SlotsAfter<K(!new), M(!new)>(rule: Rule<K, M>, s: seq<Keyed<K, M>>, p: GroupState<K, M>, x: Keyed<K, M>)
    requires Stable(rule) && Settled(rule, s, p)
    ensures var r := MergeGroup(rule, p, x);
            SlotsKept(rule, s, p.groups, r.groups) && rule.slot(r.groups, x.key) == rule.slot(p.groups, x.key)
  {
    hide Divert, Stable;
    var k, g, h := rule.slot(p.groups, x.key), p.groups, MergeGroup(rule, p, x).groups;
    if k in g || !Full(rule, p) {
      var v := h[k];
      assert h == g[k := v];
      SlotKept(rule, g, k, v, x.key);
      forall i | 0 <= i < |s|
        ensures rule.slot(h, s[i].key) == rule.slot(g, s[i].key)
        ensures rule.slot(g, s[i].key) in g <==> rule.slot(g, s[i].key) in h
      {
        SlotKept(rule, g, k, v, s[i].key);
      }
    }
  }

  lemma NewGroup<K(!new), M(!new)>(rule: Rule<K, M>, st: GroupState<K, M>, s: seq<Keyed<K, M>>, p: GroupState<K, M>, k: K)
    requires Settled(rule, s, p) && !Full(rule, p) && k !in p.groups
    ensures Gathered(rule.ops, MetricsAt(st.groups, k), s, KeptAs(rule, p.groups, k)) == MetricsAt(st.groups, k)
  {
    hide Full;
    GatheredNone(rule.ops, MetricsAt(st.groups, k), s, KeptAs(rule, p.groups, k));
  }

  /** The groups after one more: the slot gains, the others stay. */
  lemma GroupsAfter<K(!new), M>(rule: Rule<K, M>, p: GroupState<K, M>, x: Keyed<K, M>, k: K)
    ensures var slot, r := rule.slot(p.groups, x.key), MergeGroup(rule, p, x);
            && (k != slot ==> MetricsAt(r.groups, k) == MetricsAt(p.groups, k))
            && (k == slot && k in p.groups ==> MetricsAt(r.groups, k) == Some(rule.ops.add(p.groups[k].metrics, x.metrics)))
            && (k == slot && k !in p.groups && k in r.groups ==> !Full(rule, p) && MetricsAt(r.groups, k) == Some(x.metrics))
  {
    hide Divert;
  }

  lemma KeptAfter<K(!new), M(!new)>(rule: Rule<K, M>, st: GroupState<K, M>, s: seq<Keyed<K, M>>, p: GroupState<K, M>, x: Keyed<K, M>, k: K)
    requires Stable(rule) && Settled(rule, s, p) && k in MergeGroup(rule, p, x).groups && (k in st.groups ==> k in p.groups)
    requires k in p.groups ==> MetricsAt(p.groups, k) == Gathered(rule.ops, MetricsAt(st.groups, k), s, KeptAs(rule, p.groups, k))
    ensures var r := MergeGroup(rule, p, x);
            MetricsAt(r.groups, k) == Gathered(rule.ops, MetricsAt(st.groups, k), s + [x], KeptAs(rule, r.groups, k))
  {
    hide Stable, Settled, MergeGroup, Full, Gathered;
    var r := MergeGroup(rule, p, x);
    SlotsAfter(rule, s, p, x);
    GroupsAfter(rule, p, x, k);
    GatheredLast(rule.ops, MetricsAt(st.groups, k), s, x, KeptAs(rule, p.groups, k), KeptAs(rule, r.groups, k));
    if k !in p.groups {
      NewGroup(rule, st, s, p, k);
    }
  }

  ghost predicate ZeroFirst<M(!new)>(ops: Ops<M>) {
    forall x :: ops.add(ops.zero, x) == x
  }

  /** The overflow bucket before and after one more group. */
  lemma BucketAfter<K, M(!new)>(rule: Rule<K, M>, p: GroupState<K, M>, x: Keyed<K, M>)
    requires ZeroFirst(rule.ops)
    ensures var k, b, r := rule.slot(p.groups, x.key), p.overflow, MergeGroup(rule, p, x);
            if k in p.groups || !Full(rule, p) then r.overflow == b && k in r.groups
            else
              && r == p.(overflow := r.overflow)
              && r.overflow.metrics == Some(if b.metrics.Some? then rule.ops.add(b.metrics.value, x.metrics) else x.metrics)
              && r.overflow.estimator == Some(Seen(b.estimator) + {rule.digest(k)})
  {
  }

  lemma OverflowAfter<K(!new), M(!new)>(rule: Rule<K, M>, was: Bucket<M>, s: seq<Keyed<K, M>>, p: GroupState<K, M>, x: Keyed<K, M>)
    requires Stable(rule) && ZeroFirst(rule.ops) && Settled(rule, s, p)
    requires p.overflow.metrics == Gathered(rule.ops, was.metrics, s, NotKept(rule, p.groups))
    ensures var r := MergeGroup(rule, p, x); r.overflow.metrics == Gathered(rule.ops, was.metrics, s + [x], NotKept(rule, r.groups))
  {
    var r := MergeGroup(rule, p, x);
    SlotsAfter(rule, s, p, x);
    BucketAfter(rule, p, x);
    hide Stable, Gathered, MergeGroup, ZeroFirst, Settled;
    GatheredLast(rule.ops, was.metrics, s, x, NotKept(rule, p.groups), NotKept(rule, r.groups));
  }

  lemma InsertedOne(was: Option<Sketch>, inputs: Sketch, e: Option<Sketch>, d: Digest)
    requires Inserted(was, inputs, e)
    ensures Inserted(was, inputs + {d}, Some(Seen(e) + {d}))
  {
  }

  lemma EstimatorAfter<K(!new), M(!new)>(rule: Rule<K, M>, was: Option<Sketch>, s: seq<Keyed<K, M>>, p: GroupState<K, M>, x: Keyed<K, M>)
    requires Stable(rule) && ZeroFirst(rule.ops) && Settled(rule, s, p) && Inserted(was, DigestsOf(rule, p.groups, s), p.overflow.estimator)
    ensures var r := MergeGroup(rule, p, x); Inserted(was, DigestsOf(rule, r.groups, s + [x]), r.overflow.estimator)
  {
    hide Stable, DigestsOf, MergeGroup, ZeroFirst, Settled, Inserted, Seen, SlotsKept, Full;
    var r, k := MergeGroup(rule, p, x), rule.slot(p.groups, x.key);
    SlotsAfter(rule, s, p, x);
    BucketAfter(rule, p, x);
    DigestsLast(rule, s, x, p.groups, r.groups);
    InsertedOne(was, DigestsOf(rule, p.groups, s), p.overflow.estimator, rule.digest(k));
  }

  lemma SettledAfter<K(!new), M(!new)>(rule: Rule<K, M>, s: seq<Keyed<K, M>>, p: GroupState<K, M>, x: Keyed<K, M>)
    requires Stable(rule) && Settled(rule, s, p)
    ensures Settled(rule, s + [x], MergeGroup(rule, p, x))
    ensures forall k :: k in p.groups ==> k in MergeGroup(rule, p, x).groups
  {
    var r := MergeGroup(rule, p, x);
    SlotsAfter(rule, s, p, x);
    hide Stable, Divert;
    var u := s + [x];
    forall i | 0 <= i < |u| && rule.slot(r.groups, u[i].key) !in r.groups
      ensures Full(rule, r)
    {
      assert u[i] == if i < |s| then s[i] else x;
    }
  }

  lemma PlacedAfter<K(!new), M(!new)>(rule: Rule<K, M>, st: GroupState<K, M>, s: seq<Keyed<K, M>>, p: GroupState<K, M>, x: Keyed<K, M>)
    requires Stable(rule) && ZeroFirst(rule.ops) && Placed(rule, st, s, p)
    ensures Placed(rule, st, s + [x], MergeGroup(rule, p, x))
  {
    var r := MergeGroup(rule, p, x);
    SettledAfter(rule, s, p, x);
    OverflowAfter(rule, st.overflow, s, p, x);
    EstimatorAfter(rule, st.overflow.estimator, s, p, x);
    hide Stable, Gathered, DigestsOf, MergeGroup, Settled, ZeroFirst, Inserted;
    forall k | k in r.groups
      ensures MetricsAt(r.groups, k) == Gathered(rule.ops, MetricsAt(st.groups, k), s + [x], KeptAs(rule, r.groups, k))
    {
      KeptAfter(rule, st, s, p, x, k);
    }
  }

  lemma PlacedNothing<K(!new), M(!new)>(rule: Rule<K, M>, st: GroupState<K, M>)
    ensures Placed(rule, st, [], st)
  {
    assert DigestsOf(rule, st.groups, []) == {};
  }

  lemma {:induction false} GroupsPlaced<K(!new), M(!new)>(rule: Rule<K, M>, st: GroupState<K, M>, from: seq<Keyed<K, M>>)
    requires Stable(rule) && ZeroFirst(rule.ops)
    ensures Placed(rule, st, from, MergeGroups(rule, st, from))
  {
    hide Stable, MergeGroup, ZeroFirst, Placed;
    if from == [] {
      PlacedNothing(rule, st);
    } else {
      var n := |from| - 1;
      GroupsPlaced(rule, st, from[..n]);
      PlacedAfter(rule, st, from[..n], MergeGroups(rule, st, from[..n]), from[n]);
      assert from[..n] + [from[n]] == from;
    }
  }

  lemma ZerosAreFirst()
    ensures ZeroFirst(TransactionOps) && ZeroFirst(ServiceTransactionOps) && ZeroFirst(SpanOps)
  {
    OpsAreMonoids();
  }

  /** For the groups of an instance, of each kind and whatever the limits. */
  lemma {:induction false} InstanceGroupsPlaced(limits: Limits, d: Digest, t: GroupState<TransactionKey, TransactionMetrics>,
                                                s: GroupState<ServiceTransactionKey, ServiceTransactionMetrics>,
                                                p: GroupState<SpanKey, SpanMetrics>, from: PbInstance)
    ensures var rule := TransactionRule(limits, d); Placed(rule, t, from.transactions, MergeGroups(rule, t, from.transactions))
    ensures var rule := ServiceTransactionRule(limits, d);
            Placed(rule, s, from.serviceTransactions, MergeGroups(rule, s, from.serviceTransactions))
    ensures var rule := SpanRule(limits, d); Placed(rule, p, from.spans, MergeGroups(rule, p, from.spans))
  {
    hide Placed, MergeGroups, Stable, ZeroFirst;
    RulesAreStable(limits, d);
    ZerosAreFirst();
    GroupsPlaced(TransactionRule(limits, d), t, from.transactions);
    GroupsPlaced(ServiceTransactionRule(limits, d), s, from.serviceTransactions);
    GroupsPlaced(SpanRule(limits, d), p, from.spans);
  }

  // ----- a whole instance that is diverted

  ghost function AllDigests<K, M>(rule: Rule<K, M>, from: seq<Keyed<K, M>>): Sketch {
    set i | 0 <= i < |from| :: rule.digest(from[i].key)
  }

  ghost function Every<K>(): K -> bool {
    (k: K) => true
  }

  /** Diverting adds up all metrics and inserts exactly the digests of all keys. */
  lemma {:induction false} DivertAllPlaced<K(!new), M(!new)>(rule: Rule<K, M>, to: Bucket<M>, from: seq<Keyed<K, M>>)
    requires ZeroFirst(rule.ops)
    ensures var r := DivertAll(rule, to, from);
            && r.metrics == Gathered(rule.ops, to.metrics, from, Every())
            && Inserted(to.estimator, AllDigests(rule, from), r.estimator)
  {
    if from != [] {
      var n := |from| - 1;
      DivertAllPlaced(rule, to, from[..n]);
      assert AllDigests(rule, from) == AllDigests(rule, from[..n]) + {rule.digest(from[n].key)};
    }
  }
}
