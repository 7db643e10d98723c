/** Where everything goes, whatever the limits: over every merge tree each group and each overflow bucket of an
    operand ends up, as a whole, in one item of the result, and every item is the sum of those that did. */
module Placement {
  import opened Histograms
  import opened Models
  import opened Groups
  import opened MergerSpec
  import opened MergerTotals
  import opened MergerLimits
  import opened Places

  // ----- the items of a message

  /** How the groups of one kind are items: their place, its key, and their value. */
  datatype Lens<!K, !M> = Lens(at: K -> Place, keyOf: Place -> Option<K>, wrap: M -> Value)

  function TransactionLens(sk: ServiceKey, ik: InstanceKey): Lens<TransactionKey, TransactionMetrics> {
    Lens(k => Kept(sk, ik, TransactionGroup(k)),
         (p: Place) => if p.Kept? && p.service == sk && p.instance == ik && p.group.TransactionGroup? then Some(p.group.transaction) else None,
         OfTransaction())
  }

  function ServiceTransactionLens(sk: ServiceKey, ik: InstanceKey): Lens<ServiceTransactionKey, ServiceTransactionMetrics> {
    Lens(k => Kept(sk, ik, ServiceTransactionGroup(k)),
         (p: Place) => if p.Kept? && p.service == sk && p.instance == ik && p.group.ServiceTransactionGroup?
                       then Some(p.group.serviceTransaction) else None,
         OfServiceTransaction())
  }

  function SpanLens(sk: ServiceKey, ik: InstanceKey): Lens<SpanKey, SpanMetrics> {
    Lens(k => Kept(sk, ik, SpanGroup(k)),
         (p: Place) => if p.Kept? && p.service == sk && p.instance == ik && p.group.SpanGroup? then Some(p.group.span) else None,
         OfSpan())
  }

  ghost function GroupItems<K, M>(s: seq<Keyed<K, M>>, lens: Lens<K, M>): (r: seq<Item>)
    ensures |r| == |s| && forall i :: 0 <= i < |s| ==> r[i] == Item(lens.at(s[i].key), lens.wrap(s[i].metrics))
  {
    seq(|s|, i requires 0 <= i < |s| => Item(lens.at(s[i].key), lens.wrap(s[i].metrics)))
  }

  ghost function InstanceItems(sk: ServiceKey, i: PbInstance): seq<Item> {
    GroupItems(i.transactions, TransactionLens(sk, i.key))
    + GroupItems(i.serviceTransactions, ServiceTransactionLens(sk, i.key))
    + GroupItems(i.spans, SpanLens(sk, i.key))
  }

  ghost function InstancesItems(sk: ServiceKey, s: seq<PbInstance>): seq<Item> {
    if s == [] then [] else InstancesItems(sk, s[..|s| - 1]) + InstanceItems(sk, s[|s| - 1])
  }

  /** The overflow bucket of a service, or of the overflow services. */
  function OverflowAt(owner: Option<ServiceKey>, kind: Kind): Place {
    if owner.Some? then ServiceOverflow(owner.value, kind) else OverflowServices(kind)
  }

  ghost function BucketItems<M>(b: Bucket<M>, at: Place, wrap: M -> Value): seq<Item> {
    if b.metrics.Some? then [Item(at, wrap(b.metrics.value))] else []
  }

  ghost function OverflowItems(owner: Option<ServiceKey>, o: Option<Overflow>): seq<Item> {
    if o.None? then []
    else
      BucketItems(o.value.transactions, OverflowAt(owner, Transactions), OfTransaction())
      + BucketItems(o.value.serviceTransactions, OverflowAt(owner, ServiceTransactions), OfServiceTransaction())
      + BucketItems(o.value.spans, OverflowAt(owner, Spans), OfSpan())
  }

  ghost function ServiceItems(s: PbService): seq<Item> {
    OverflowItems(Some(s.key), s.overflow) + InstancesItems(s.key, s.instances)
  }

  ghost function ServicesItems(s: seq<PbService>): seq<Item> {
    if s == [] then [] else ServicesItems(s[..|s| - 1]) + ServiceItems(s[|s| - 1])
  }

  /** Every group and every overflow bucket of a message. */
  ghost function Items(pb: PbCombined): seq<Item> {
    OverflowItems(None, pb.overflowServices) + ServicesItems(pb.services)
  }

  ghost function ItemsOf(s: seq<PbCombined>): seq<Item> {
    if s == [] then [] else ItemsOf(s[..|s| - 1]) + Items(s[|s| - 1])
  }

  // ----- what flows into a store

  type Store = Place -> Option<Value>

  function Added(o: Option<Value>, v: Value): Option<Value> {
    Some(Plus(if o.Some? then o.value else Zero, v))
  }

  /** What is at `p` after the items went to their places. */
  ghost function After(o: Option<Value>, items: seq<Item>, to: seq<Place>, p: Place): Option<Value>
    requires |to| == |items|
  {
    if items == [] then o
    else
      var n := |items| - 1;
      var before := After(o, items[..n], to[..n], p);
      if to[n] == p then Added(before, items[n].value) else before
  }

  ghost predicate Flow(f: Store, items: seq<Item>, to: seq<Place>, g: Store, within: Place -> bool) {
    && |to| == |items|
    && (forall i :: 0 <= i < |to| ==> Moves(items[i].place, to[i]) && within(to[i]))
    && forall p :: g(p) == After(f(p), items, to, p)
  }

  /** The items went to places that they may move to, all of them `within`, and nothing else changed. */
  ghost predicate Flows(f: Store, items: seq<Item>, g: Store, within: Place -> bool) {
    exists to :: Flow(f, items, to, g, within)
  }

  lemma FlowsNothing(f: Store, g: Store, within: Place -> bool)
    requires forall p :: f(p) == g(p)
    ensures Flows(f, [], g, within)
  {
    assert Flow(f, [], [], g, within);
  }

  lemma FlowsOne(f: Store, item: Item, p: Place, g: Store, within: Place -> bool)
    requires Moves(item.place, p) && within(p)
    requires g(p) == Added(f(p), item.value) && forall q :: q != p ==> g(q) == f(q)
    ensures Flows(f, [item], g, within)
  {
    hide Moves, Plus;
    forall q
      ensures g(q) == After(f(q), [item], [p], q)
    {
      assert [item][..0] == [] && [p][..0] == [];
      assert After(f(q), [], [], q) == f(q);
    }
    hide After;
    assert Flow(f, [item], [p], g, within);
  }

  lemma {:induction false} AfterBoth(o: Option<Value>, s: seq<Item>, a: seq<Place>, u: seq<Item>, b: seq<Place>, p: Place)
    requires |a| == |s| && |b| == |u|
    ensures After(o, s + u, a + b, p) == After(After(o, s, a, p), u, b, p)
    decreases |u|
  {
    if u == [] {
      assert s + u == s && a + b == a;
    } else {
      var n := |u| - 1;
      AfterBoth(o, s, a, u[..n], b[..n], p);
      assert (s + u)[..|s| + n] == s + u[..n] && (a + b)[..|a| + n] == a + b[..n];
    }
  }

  lemma FlowsThen(f: Store, s: seq<Item>, g: Store, u: seq<Item>, h: Store, within: Place -> bool)
    requires Flows(f, s, g, within) && Flows(g, u, h, within)
    ensures Flows(f, s + u, h, within)
  {
    hide Moves;
    var a :| Flow(f, s, a, g, within);
    var b :| Flow(g, u, b, h, within);
    forall p
      ensures h(p) == After(f(p), s + u, a + b, p)
    {
      AfterBoth(f(p), s, a, u, b, p);
    }
    hide After;
    assert Flow(f, s + u, a + b, h, within);
  }

  lemma {:induction false} AfterElsewhere(o: Option<Value>, s: seq<Item>, a: seq<Place>, p: Place)
    requires |a| == |s| && p !in a
    ensures After(o, s, a, p) == o
  {
    if s != [] {
      var n := |s| - 1;
      assert a[n] in a && forall x :: x in a[..n] ==> x in a;
      AfterElsewhere(o, s[..n], a[..n], p);
    }
  }

  /** Stores that hold more places, which stay as they are. */
  lemma FlowsInside(f: Store, s: seq<Item>, g: Store, within: Place -> bool, f': Store, g': Store, within': Place -> bool)
    requires Flows(f, s, g, within)
    requires forall p :: within(p) ==> within'(p) && f'(p) == f(p) && g'(p) == g(p)
    requires forall p :: !within(p) ==> f'(p) == g'(p)
    ensures Flows(f', s, g', within')
  {
    hide Moves;
    var a :| Flow(f, s, a, g, within);
    forall p
      ensures g'(p) == After(f'(p), s, a, p)
    {
      if !within(p) {
        AfterElsewhere(f'(p), s, a, p);
      }
    }
    hide After;
    assert Flow(f', s, a, g', within');
  }

  // ----- groups of one kind

  ghost function BucketValue<M>(b: Bucket<M>, wrap: M -> Value): Option<Value> {
    if b.metrics.Some? then Some(wrap(b.metrics.value)) else None
  }

  ghost function GroupStore<K, M>(st: GroupState<K, M>, lens: Lens<K, M>, over: Place): Store {
    (p: Place) =>
      if p == over then BucketValue(st.overflow, lens.wrap)
      else
        var k := lens.keyOf(p);
        if k.Some? && k.value in st.groups then Some(lens.wrap(st.groups[k.value].metrics)) else None
  }

  ghost function GroupPlaces<K, M>(lens: Lens<K, M>, over: Place): Place -> bool {
    (p: Place) => p == over || lens.keyOf(p).Some?
  }

  ghost predicate Wraps<M(!new)>(ops: Ops<M>, wrap: M -> Value) {
    && wrap(ops.zero) == Zero
    && forall x, y {:trigger ops.add(x, y)} :: wrap(ops.add(x, y)) == Plus(wrap(x), wrap(y))
  }

  ghost predicate Focused<K(!new), M(!new)>(rule: Rule<K, M>, lens: Lens<K, M>, over: Place) {
    && (forall k :: lens.keyOf(lens.at(k)) == Some(k))
    && (forall p :: lens.keyOf(p).Some? ==> lens.at(lens.keyOf(p).value) == p)
    && lens.keyOf(over) == None
    && (forall k :: Moves(lens.at(k), over))
    && (forall g, k :: Moves(lens.at(k), lens.at(rule.slot(g, k))))
    && Wraps(rule.ops, lens.wrap)
  }

  lemma WrapsAll()
    ensures Wraps(TransactionOps, OfTransaction()) && Wraps(ServiceTransactionOps, OfServiceTransaction())
    ensures Wraps(SpanOps, OfSpan())
  {
  }

  lemma LensesFocus(limits: Limits, d: Digest, sk: ServiceKey, ik: InstanceKey, owner: Option<ServiceKey>)
    requires owner.Some? ==> owner.value == sk
    ensures Focused(TransactionRule(limits, d), TransactionLens(sk, ik), OverflowAt(owner, Transactions))
    ensures Focused(ServiceTransactionRule(limits, d), ServiceTransactionLens(sk, ik), OverflowAt(owner, ServiceTransactions))
    ensures Focused(SpanRule(limits, d), SpanLens(sk, ik), OverflowAt(owner, Spans))
  {
    WrapsAll();
    hide Wraps;
  }

  lemma StoredGroup<K(!new), M(!new)>(rule: Rule<K, M>, lens: Lens<K, M>, over: Place, st: GroupState<K, M>, k: K, v: Keyed<K, M>,
                                      total: int, q: Place)
    requires Focused(rule, lens, over)
    ensures GroupStore(GroupState(st.groups[k := v], total, st.overflow), lens, over)(q)
            == if q == lens.at(k) then Some(lens.wrap(v.metrics)) else GroupStore(st, lens, over)(q)
  {
    hide Moves, Plus, Wraps;
    assert lens.keyOf(lens.at(k)) == Some(k);
    if lens.keyOf(q).Some? {
      assert lens.at(lens.keyOf(q).value) == q;
    }
  }

  lemma GroupAt<K(!new), M(!new)>(rule: Rule<K, M>, lens: Lens<K, M>, over: Place, st: GroupState<K, M>, k: K)
    requires Focused(rule, lens, over)
    ensures GroupStore(st, lens, over)(lens.at(k)) == if k in st.groups then Some(lens.wrap(st.groups[k].metrics)) else None
    ensures GroupPlaces(lens, over)(lens.at(k)) && GroupPlaces(lens, over)(over)
  {
    hide Moves, Plus, Wraps;
    assert lens.keyOf(lens.at(k)) == Some(k);
  }

  /** The state with the group at `k` set: the item went there. */
  lemma SetFlows<K(!new), M(!new)>(rule: Rule<K, M>, lens: Lens<K, M>, over: Place, st: GroupState<K, M>, from: Keyed<K, M>,
                                   v: Keyed<K, M>, total: int)
    requires Focused(rule, lens, over)
    requires var k := rule.slot(st.groups, from.key);
             v.metrics == if k in st.groups then rule.ops.add(st.groups[k].metrics, from.metrics) else from.metrics
    ensures Flows(GroupStore(st, lens, over), [Item(lens.at(from.key), lens.wrap(from.metrics))],
                  GroupStore(GroupState(st.groups[rule.slot(st.groups, from.key) := v], total, st.overflow), lens, over),
                  GroupPlaces(lens, over))
  {
    hide Moves, Plus, Focused, GroupStore, Flows, GroupPlaces, Wraps;
    var k := rule.slot(st.groups, from.key);
    var item := Item(lens.at(from.key), lens.wrap(from.metrics));
    var f, g := GroupStore(st, lens, over), GroupStore(GroupState(st.groups[k := v], total, st.overflow), lens, over);
    SlotMoves(rule, lens, over, st.groups, from.key);
    GroupAt(rule, lens, over, st, k);
    WrappedSum(rule.ops, lens.wrap, if k in st.groups then Some(st.groups[k].metrics) else None, from.metrics);
    forall q
      ensures g(q) == if q == lens.at(k) then Some(lens.wrap(v.metrics)) else f(q)
    {
      StoredGroup(rule, lens, over, st, k, v, total, q);
    }
    FlowsOne(f, item, lens.at(k), g, GroupPlaces(lens, over));
  }

  lemma SlotMoves<K(!new), M(!new)>(rule: Rule<K, M>, lens: Lens<K, M>, over: Place, g: GroupMap<K, M>, k: K)
    requires Focused(rule, lens, over)
    ensures Moves(lens.at(k), lens.at(rule.slot(g, k))) && Moves(lens.at(k), over) && Wraps(rule.ops, lens.wrap)
  {
    hide Moves, Wraps;
  }

  lemma WrappedSum<M(!new)>(ops: Ops<M>, wrap: M -> Value, was: Option<M>, m: M)
    requires Wraps(ops, wrap)
    ensures Some(wrap(if was.Some? then ops.add(was.value, m) else m)) == Added(if was.Some? then Some(wrap(was.value)) else None, wrap(m))
    ensures Some(wrap(ops.add(if was.Some? then was.value else ops.zero, m)))
            == Added(if was.Some? then Some(wrap(was.value)) else None, wrap(m))
  {
    hide Plus;
    PlusLaws(wrap(m), Zero, Zero);
  }

  ghost function BucketStore<M>(b: Bucket<M>, wrap: M -> Value, over: Place): Store {
    (p: Place) => if p == over then BucketValue(b, wrap) else None
  }

  ghost function Only(over: Place): Place -> bool {
    (p: Place) => p == over
  }

  lemma DivertFlows<K(!new), M(!new)>(rule: Rule<K, M>, lens: Lens<K, M>, over: Place, b: Bucket<M>, from: Keyed<K, M>, d: Digest)
    requires Focused(rule, lens, over)
    ensures Flows(BucketStore(b, lens.wrap, over), [Item(lens.at(from.key), lens.wrap(from.metrics))],
                  BucketStore(Divert(rule.ops, b, from.metrics, d), lens.wrap, over), Only(over))
  {
    hide Moves, Plus, Focused, Flows, Wraps;
    var item := Item(lens.at(from.key), lens.wrap(from.metrics));
    var f, g := BucketStore(b, lens.wrap, over), BucketStore(Divert(rule.ops, b, from.metrics, d), lens.wrap, over);
    SlotMoves(rule, lens, over, map[], from.key);
    WrappedSum(rule.ops, lens.wrap, b.metrics, from.metrics);
    assert f(over) == BucketValue(b, lens.wrap);
    assert g(over) == BucketValue(Divert(rule.ops, b, from.metrics, d), lens.wrap);
    FlowsOne(f, item, over, g, Only(over));
  }

  lemma {:induction false} DivertAllFlows<K(!new), M(!new)>(rule: Rule<K, M>, lens: Lens<K, M>, over: Place, b: Bucket<M>,
                                                            from: seq<Keyed<K, M>>)
    requires Focused(rule, lens, over)
    ensures Flows(BucketStore(b, lens.wrap, over), GroupItems(from, lens), BucketStore(DivertAll(rule, b, from), lens.wrap, over),
                  Only(over))
  {
    hide Focused, Flows, BucketStore, Divert, Only;
    if from == [] {
      FlowsNothing(BucketStore(b, lens.wrap, over), BucketStore(b, lens.wrap, over), Only(over));
    } else {
      var n := |from| - 1;
      var p := DivertAll(rule, b, from[..n]);
      var item := Item(lens.at(from[n].key), lens.wrap(from[n].metrics));
      DivertAllFlows(rule, lens, over, b, from[..n]);
      DivertFlows(rule, lens, over, p, from[n], rule.digest(from[n].key));
      FlowsThen(BucketStore(b, lens.wrap, over), GroupItems(from[..n], lens), BucketStore(p, lens.wrap, over), [item],
                BucketStore(DivertAll(rule, b, from), lens.wrap, over), Only(over));
      assert GroupItems(from, lens) == GroupItems(from[..n], lens) + [item];
    }
  }

  lemma MergeBucketFlows<M(!new)>(ops: Ops<M>, wrap: M -> Value, at: Place, over: Place, b: Bucket<M>, from: Bucket<M>)
    requires Wraps(ops, wrap) && Moves(at, over) && Paired(from)
    ensures Flows(BucketStore(b, wrap, over), BucketItems(from, at, wrap), BucketStore(MergeBucket(ops, b, from), wrap, over), Only(over))
  {
    hide Moves, Plus, Flows, Wraps;
    var f, g := BucketStore(b, wrap, over), BucketStore(MergeBucket(ops, b, from), wrap, over);
    if from.metrics.Some? {
      WrappedSum(ops, wrap, b.metrics, from.metrics.value);
      assert f(over) == BucketValue(b, wrap) && g(over) == BucketValue(MergeBucket(ops, b, from), wrap);
      FlowsOne(f, Item(at, wrap(from.metrics.value)), over, g, Only(over));
    } else {
      FlowsNothing(f, g, Only(over));
    }
  }

  lemma OverflowFlows<K(!new), M(!new)>(rule: Rule<K, M>, lens: Lens<K, M>, over: Place, st: GroupState<K, M>, from: Keyed<K, M>,
                                        d: Digest)
    requires Focused(rule, lens, over)
    ensures Flows(GroupStore(st, lens, over), [Item(lens.at(from.key), lens.wrap(from.metrics))],
                  GroupStore(st.(overflow := Divert(rule.ops, st.overflow, from.metrics, d)), lens, over), GroupPlaces(lens, over))
  {
    hide Focused, Flows, Divert;
    var b := Divert(rule.ops, st.overflow, from.metrics, d);
    DivertFlows(rule, lens, over, st.overflow, from, d);
    FlowsInside(BucketStore(st.overflow, lens.wrap, over), [Item(lens.at(from.key), lens.wrap(from.metrics))],
                BucketStore(b, lens.wrap, over), Only(over),
                GroupStore(st, lens, over), GroupStore(st.(overflow := b), lens, over), GroupPlaces(lens, over));
  }

  lemma GroupFlows<K(!new), M(!new)>(rule: Rule<K, M>, lens: Lens<K, M>, over: Place, st: GroupState<K, M>, from: Keyed<K, M>)
    requires Focused(rule, lens, over)
    ensures Flows(GroupStore(st, lens, over), [Item(lens.at(from.key), lens.wrap(from.metrics))],
                  GroupStore(MergeGroup(rule, st, from), lens, over), GroupPlaces(lens, over))
  {
    hide Focused, Flows, GroupStore, Divert, GroupPlaces;
    var k := rule.slot(st.groups, from.key);
    if k in st.groups {
      SetFlows(rule, lens, over, st, from, Keyed(st.groups[k].key, rule.ops.add(st.groups[k].metrics, from.metrics)), st.total);
    } else if |st.groups| >= rule.perInstance || st.total >= rule.global {
      OverflowFlows(rule, lens, over, st, from, rule.digest(k));
    } else {
      SetFlows(rule, lens, over, st, from, Keyed(k, from.metrics), st.total + 1);
    }
  }

  lemma {:induction false} GroupsFlow<K(!new), M(!new)>(rule: Rule<K, M>, lens: Lens<K, M>, over: Place, st: GroupState<K, M>,
                                                        from: seq<Keyed<K, M>>)
    requires Focused(rule, lens, over)
    ensures Flows(GroupStore(st, lens, over), GroupItems(from, lens), GroupStore(MergeGroups(rule, st, from), lens, over),
                  GroupPlaces(lens, over))
  {
    hide Focused, Flows, GroupStore, MergeGroup;
    if from == [] {
      FlowsNothing(GroupStore(st, lens, over), GroupStore(st, lens, over), GroupPlaces(lens, over));
    } else {
      var n := |from| - 1;
      var p := MergeGroups(rule, st, from[..n]);
      GroupsFlow(rule, lens, over, st, from[..n]);
      GroupFlows(rule, lens, over, p, from[n]);
      FlowsThen(GroupStore(st, lens, over), GroupItems(from[..n], lens), GroupStore(p, lens, over),
                [Item(lens.at(from[n].key), lens.wrap(from[n].metrics))],
                GroupStore(MergeGroup(rule, p, from[n]), lens, over), GroupPlaces(lens, over));
      assert GroupItems(from, lens) == GroupItems(from[..n], lens) + [Item(lens.at(from[n].key), lens.wrap(from[n].metrics))];
    }
  }

  // ----- overflow of a service, or the overflow services

  ghost function HeldIn(o: Overflow, kind: Kind): Option<Value> {
    match kind
    case Transactions => BucketValue(o.transactions, OfTransaction())
    case ServiceTransactions => BucketValue(o.serviceTransactions, OfServiceTransaction())
    case Spans => BucketValue(o.spans, OfSpan())
  }

  ghost function OverflowStore(owner: Option<ServiceKey>, o: Overflow): Store {
    (p: Place) => if p == OverflowAt(owner, KindOf(p)) then HeldIn(o, KindOf(p)) else None
  }

  ghost function OverflowPlaces(owner: Option<ServiceKey>): Place -> bool {
    (p: Place) => p == OverflowAt(owner, KindOf(p))
  }

  /** One bucket of an overflow changed. */
  lemma TransactionsInside(owner: Option<ServiceKey>, o: Overflow, s: seq<Item>, b: Bucket<TransactionMetrics>)
    requires var over := OverflowAt(owner, Transactions);
             Flows(BucketStore(o.transactions, OfTransaction(), over), s, BucketStore(b, OfTransaction(), over), Only(over))
    ensures Flows(OverflowStore(owner, o), s, OverflowStore(owner, o.(transactions := b)), OverflowPlaces(owner))
  {
    hide Flows;
    var over := OverflowAt(owner, Transactions);
    FlowsInside(BucketStore(o.transactions, OfTransaction(), over), s, BucketStore(b, OfTransaction(), over), Only(over),
                OverflowStore(owner, o), OverflowStore(owner, o.(transactions := b)), OverflowPlaces(owner));
  }

  lemma ServiceTransactionsInside(owner: Option<ServiceKey>, o: Overflow, s: seq<Item>, b: Bucket<ServiceTransactionMetrics>)
    requires var over := OverflowAt(owner, ServiceTransactions);
             Flows(BucketStore(o.serviceTransactions, OfServiceTransaction(), over), s, BucketStore(b, OfServiceTransaction(), over),
                   Only(over))
    ensures Flows(OverflowStore(owner, o), s, OverflowStore(owner, o.(serviceTransactions := b)), OverflowPlaces(owner))
  {
    hide Flows;
    var over := OverflowAt(owner, ServiceTransactions);
    FlowsInside(BucketStore(o.serviceTransactions, OfServiceTransaction(), over), s, BucketStore(b, OfServiceTransaction(), over), Only(over),
                OverflowStore(owner, o), OverflowStore(owner, o.(serviceTransactions := b)), OverflowPlaces(owner));
  }

  lemma SpansInside(owner: Option<ServiceKey>, o: Overflow, s: seq<Item>, b: Bucket<SpanMetrics>)
    requires var over := OverflowAt(owner, Spans);
             Flows(BucketStore(o.spans, OfSpan(), over), s, BucketStore(b, OfSpan(), over), Only(over))
    ensures Flows(OverflowStore(owner, o), s, OverflowStore(owner, o.(spans := b)), OverflowPlaces(owner))
  {
    hide Flows;
    var over := OverflowAt(owner, Spans);
    FlowsInside(BucketStore(o.spans, OfSpan(), over), s, BucketStore(b, OfSpan(), over), Only(over),
                OverflowStore(owner, o), OverflowStore(owner, o.(spans := b)), OverflowPlaces(owner));
  }

  lemma FlowsThreeTimes(f: Store, a: seq<Item>, g: Store, b: seq<Item>, h: Store, c: seq<Item>, i: Store, within: Place -> bool)
    requires Flows(f, a, g, within) && Flows(g, b, h, within) && Flows(h, c, i, within)
    ensures Flows(f, a + b + c, i, within)
  {
    hide Flows;
    FlowsThen(f, a, g, b, h, within);
    FlowsThen(f, a + b, h, c, i, within);
  }

  /** An instance without room: all its groups go to the overflow, and nowhere else. */
  lemma DivertInstanceFlows(limits: Limits, d: Digest, sk: ServiceKey, owner: Option<ServiceKey>, o: Overflow, from: PbInstance)
    requires owner.Some? ==> owner.value == sk
    ensures Flows(OverflowStore(owner, o), InstanceItems(sk, from), OverflowStore(owner, DivertInstance(limits, o, from, d)),
                  OverflowPlaces(owner))
  {
    LensesFocus(limits, d, sk, from.key, owner);
    hide Flows, Focused, DivertAll, GroupItems, OverflowStore, OverflowPlaces, BucketStore, OverflowAt;
    var r := DivertInstance(limits, o, from, d);
    DivertAllFlows(TransactionRule(limits, d), TransactionLens(sk, from.key), OverflowAt(owner, Transactions), o.transactions, from.transactions);
    DivertAllFlows(ServiceTransactionRule(limits, d), ServiceTransactionLens(sk, from.key), OverflowAt(owner, ServiceTransactions),
                   o.serviceTransactions, from.serviceTransactions);
    DivertAllFlows(SpanRule(limits, d), SpanLens(sk, from.key), OverflowAt(owner, Spans), o.spans, from.spans);
    var t, s, p := GroupItems(from.transactions, TransactionLens(sk, from.key)),
                   GroupItems(from.serviceTransactions, ServiceTransactionLens(sk, from.key)), GroupItems(from.spans, SpanLens(sk, from.key));
    TransactionsInside(owner, o, t, r.transactions);
    var o1 := o.(transactions := r.transactions);
    ServiceTransactionsInside(owner, o1, s, r.serviceTransactions);
    var o2 := o1.(serviceTransactions := r.serviceTransactions);
    SpansInside(owner, o2, p, r.spans);
    assert o2.(spans := r.spans) == r;
    FlowsThreeTimes(OverflowStore(owner, o), t, OverflowStore(owner, o1), s, OverflowStore(owner, o2), p, OverflowStore(owner, r),
                    OverflowPlaces(owner));
  }

  /** The overflow of a message goes to the same buckets, or to those of the overflow services. */
  lemma MergeOverflowFlows(owner: Option<ServiceKey>, was: Option<ServiceKey>, o: Overflow, from: Option<Overflow>)
    requires owner.None? || owner == was
    requires from.Some? ==> PairedOverflow(from.value)
    ensures Flows(OverflowStore(owner, o), OverflowItems(was, from), OverflowStore(owner, MergeOverflow(o, from)), OverflowPlaces(owner))
  {
    hide Flows, OverflowStore, OverflowPlaces, BucketStore, MergeBucket, Wraps, BucketItems;
    if from.None? {
      FlowsNothing(OverflowStore(owner, o), OverflowStore(owner, o), OverflowPlaces(owner));
    } else {
      WrapsAll();
      var f, r := from.value, MergeOverflow(o, from);
      MergeBucketFlows(TransactionOps, OfTransaction(), OverflowAt(was, Transactions), OverflowAt(owner, Transactions), o.transactions, f.transactions);
      MergeBucketFlows(ServiceTransactionOps, OfServiceTransaction(), OverflowAt(was, ServiceTransactions), OverflowAt(owner, ServiceTransactions),
                       o.serviceTransactions, f.serviceTransactions);
      MergeBucketFlows(SpanOps, OfSpan(), OverflowAt(was, Spans), OverflowAt(owner, Spans), o.spans, f.spans);
      hide OverflowAt;
      var t, s, p := BucketItems(f.transactions, OverflowAt(was, Transactions), OfTransaction()),
                     BucketItems(f.serviceTransactions, OverflowAt(was, ServiceTransactions), OfServiceTransaction()),
                     BucketItems(f.spans, OverflowAt(was, Spans), OfSpan());
      TransactionsInside(owner, o, t, r.transactions);
      var o1 := o.(transactions := r.transactions);
      ServiceTransactionsInside(owner, o1, s, r.serviceTransactions);
      var o2 := o1.(serviceTransactions := r.serviceTransactions);
      SpansInside(owner, o2, p, r.spans);
      assert o2.(spans := r.spans) == r;
      FlowsThreeTimes(OverflowStore(owner, o), t, OverflowStore(owner, o1), s, OverflowStore(owner, o2), p, OverflowStore(owner, r),
                      OverflowPlaces(owner));
    }
  }

  // ----- an instance with room

  ghost function HeldBy(i: InstanceMetrics, g: GroupKey): Option<Value> {
    match g
    case TransactionGroup(k) => if k in i.transactions then Some(OfTransaction()(i.transactions[k].metrics)) else None
    case ServiceTransactionGroup(k) =>
      if k in i.serviceTransactions then Some(OfServiceTransaction()(i.serviceTransactions[k].metrics)) else None
    case SpanGroup(k) => if k in i.spans then Some(OfSpan()(i.spans[k].metrics)) else None
  }

  ghost function InstanceStore(sk: ServiceKey, ik: InstanceKey, i: InstanceMetrics, o: Overflow): Store {
    (p: Place) =>
      match p
      case Kept(s, k, g) => if s == sk && k == ik then HeldBy(i, g) else None
      case ServiceOverflow(s, kind) => if s == sk then HeldIn(o, kind) else None
      case OverflowServices(_) => None
  }

  ghost function InstancePlaces(sk: ServiceKey, ik: InstanceKey): Place -> bool {
    (p: Place) => !p.OverflowServices? && p.service == sk && (p.Kept? ==> p.instance == ik)
  }

  lemma TransactionPlaces(sk: ServiceKey, ik: InstanceKey, i: InstanceMetrics, o: Overflow, total: int, i': InstanceMetrics, o': Overflow, p: Place)
    requires i' == i.(transactions := i'.transactions) && o' == o.(transactions := o'.transactions)
    ensures var lens, over := TransactionLens(sk, ik), ServiceOverflow(sk, Transactions);
            if GroupPlaces(lens, over)(p) then
              InstancePlaces(sk, ik)(p) && InstanceStore(sk, ik, i, o)(p) == GroupStore(GroupState(i.transactions, total, o.transactions), lens, over)(p)
            else InstanceStore(sk, ik, i, o)(p) == InstanceStore(sk, ik, i', o')(p)
  {
  }

  lemma TransactionGroupsFlow(limits: Limits, d: Digest, sk: ServiceKey, ik: InstanceKey, i: InstanceMetrics, o: Overflow, total: int,
                      from: seq<Keyed<TransactionKey, TransactionMetrics>>)
    ensures var r := MergeGroups(TransactionRule(limits, d), GroupState(i.transactions, total, o.transactions), from);
            Flows(InstanceStore(sk, ik, i, o), GroupItems(from, TransactionLens(sk, ik)),
                  InstanceStore(sk, ik, i.(transactions := r.groups), o.(transactions := r.overflow)), InstancePlaces(sk, ik))
  {
    LensesFocus(limits, d, sk, ik, Some(sk));
    hide Flows, Focused, MergeGroups, GroupStore, InstanceStore, GroupPlaces, InstancePlaces, TransactionRule, TransactionLens, GroupItems;
    var lens, over, st := TransactionLens(sk, ik), ServiceOverflow(sk, Transactions), GroupState(i.transactions, total, o.transactions);
    var r := MergeGroups(TransactionRule(limits, d), st, from);
    var i', o' := i.(transactions := r.groups), o.(transactions := r.overflow);
    GroupsFlow(TransactionRule(limits, d), lens, over, st, from);
    forall p
      ensures if GroupPlaces(lens, over)(p) then
                && InstancePlaces(sk, ik)(p)
                && InstanceStore(sk, ik, i, o)(p) == GroupStore(st, lens, over)(p)
                && InstanceStore(sk, ik, i', o')(p) == GroupStore(r, lens, over)(p)
              else InstanceStore(sk, ik, i, o)(p) == InstanceStore(sk, ik, i', o')(p)
    {
      TransactionPlaces(sk, ik, i, o, total, i', o', p);
      TransactionPlaces(sk, ik, i', o', r.total, i, o, p);
    }
    FlowsInside(GroupStore(st, lens, over), GroupItems(from, lens), GroupStore(r, lens, over), GroupPlaces(lens, over),
                InstanceStore(sk, ik, i, o), InstanceStore(sk, ik, i', o'), InstancePlaces(sk, ik));
  }

  lemma ServiceTransactionPlaces(sk: ServiceKey, ik: InstanceKey, i: InstanceMetrics, o: Overflow, total: int, i': InstanceMetrics, o': Overflow, p: Place)
    requires i' == i.(serviceTransactions := i'.serviceTransactions) && o' == o.(serviceTransactions := o'.serviceTransactions)
    ensures var lens, over := ServiceTransactionLens(sk, ik), ServiceOverflow(sk, ServiceTransactions);
            if GroupPlaces(lens, over)(p) then
              InstancePlaces(sk, ik)(p) && InstanceStore(sk, ik, i, o)(p) == GroupStore(GroupState(i.serviceTransactions, total, o.serviceTransactions), lens, over)(p)
            else InstanceStore(sk, ik, i, o)(p) == InstanceStore(sk, ik, i', o')(p)
  {
  }

  lemma ServiceTransactionGroupsFlow(limits: Limits, d: Digest, sk: ServiceKey, ik: InstanceKey, i: InstanceMetrics, o: Overflow, total: int,
                      from: seq<Keyed<ServiceTransactionKey, ServiceTransactionMetrics>>)
    ensures var r := MergeGroups(ServiceTransactionRule(limits, d), GroupState(i.serviceTransactions, total, o.serviceTransactions), from);
            Flows(InstanceStore(sk, ik, i, o), GroupItems(from, ServiceTransactionLens(sk, ik)),
                  InstanceStore(sk, ik, i.(serviceTransactions := r.groups), o.(serviceTransactions := r.overflow)), InstancePlaces(sk, ik))
  {
    LensesFocus(limits, d, sk, ik, Some(sk));
    hide Flows, Focused, MergeGroups, GroupStore, InstanceStore, GroupPlaces, InstancePlaces, ServiceTransactionRule, ServiceTransactionLens, GroupItems;
    var lens, over, st := ServiceTransactionLens(sk, ik), ServiceOverflow(sk, ServiceTransactions), GroupState(i.serviceTransactions, total, o.serviceTransactions);
    var r := MergeGroups(ServiceTransactionRule(limits, d), st, from);
    var i', o' := i.(serviceTransactions := r.groups), o.(serviceTransactions := r.overflow);
    GroupsFlow(ServiceTransactionRule(limits, d), lens, over, st, from);
    forall p
      ensures if GroupPlaces(lens, over)(p) then
                && InstancePlaces(sk, ik)(p)
                && InstanceStore(sk, ik, i, o)(p) == GroupStore(st, lens, over)(p)
                && InstanceStore(sk, ik, i', o')(p) == GroupStore(r, lens, over)(p)
              else InstanceStore(sk, ik, i, o)(p) == InstanceStore(sk, ik, i', o')(p)
    {
      ServiceTransactionPlaces(sk, ik, i, o, total, i', o', p);
      ServiceTransactionPlaces(sk, ik, i', o', r.total, i, o, p);
    }
    FlowsInside(GroupStore(st, lens, over), GroupItems(from, lens), GroupStore(r, lens, over), GroupPlaces(lens, over),
                InstanceStore(sk, ik, i, o), InstanceStore(sk, ik, i', o'), InstancePlaces(sk, ik));
  }

  lemma SpanPlaces(sk: ServiceKey, ik: InstanceKey, i: InstanceMetrics, o: Overflow, total: int, i': InstanceMetrics, o': Overflow, p: Place)
    requires i' == i.(spans := i'.spans) && o' == o.(spans := o'.spans)
    ensures var lens, over := SpanLens(sk, ik), ServiceOverflow(sk, Spans);
            if GroupPlaces(lens, over)(p) then
              InstancePlaces(sk, ik)(p) && InstanceStore(sk, ik, i, o)(p) == GroupStore(GroupState(i.spans, total, o.spans), lens, over)(p)
            else InstanceStore(sk, ik, i, o)(p) == InstanceStore(sk, ik, i', o')(p)
  {
  }

  lemma SpanGroupsFlow(limits: Limits, d: Digest, sk: ServiceKey, ik: InstanceKey, i: InstanceMetrics, o: Overflow, total: int,
                      from: seq<Keyed<SpanKey, SpanMetrics>>)
    ensures var r := MergeGroups(SpanRule(limits, d), GroupState(i.spans, total, o.spans), from);
            Flows(InstanceStore(sk, ik, i, o), GroupItems(from, SpanLens(sk, ik)),
                  InstanceStore(sk, ik, i.(spans := r.groups), o.(spans := r.overflow)), InstancePlaces(sk, ik))
  {
    LensesFocus(limits, d, sk, ik, Some(sk));
    hide Flows, Focused, MergeGroups, GroupStore, InstanceStore, GroupPlaces, InstancePlaces, SpanRule, SpanLens, GroupItems;
    var lens, over, st := SpanLens(sk, ik), ServiceOverflow(sk, Spans), GroupState(i.spans, total, o.spans);
    var r := MergeGroups(SpanRule(limits, d), st, from);
    var i', o' := i.(spans := r.groups), o.(spans := r.overflow);
    GroupsFlow(SpanRule(limits, d), lens, over, st, from);
    forall p
      ensures if GroupPlaces(lens, over)(p) then
                && InstancePlaces(sk, ik)(p)
                && InstanceStore(sk, ik, i, o)(p) == GroupStore(st, lens, over)(p)
                && InstanceStore(sk, ik, i', o')(p) == GroupStore(r, lens, over)(p)
              else InstanceStore(sk, ik, i, o)(p) == InstanceStore(sk, ik, i', o')(p)
    {
      SpanPlaces(sk, ik, i, o, total, i', o', p);
      SpanPlaces(sk, ik, i', o', r.total, i, o, p);
    }
    FlowsInside(GroupStore(st, lens, over), GroupItems(from, lens), GroupStore(r, lens, over), GroupPlaces(lens, over),
                InstanceStore(sk, ik, i, o), InstanceStore(sk, ik, i', o'), InstancePlaces(sk, ik));
  }

  lemma MergeInstanceFlows(limits: Limits, d: Digest, sk: ServiceKey, st: InstanceState, from: PbInstance)
    ensures var r := MergeInstance(limits, d, st, from);
            Flows(InstanceStore(sk, from.key, st.instance, st.overflow), InstanceItems(sk, from),
                  InstanceStore(sk, from.key, r.instance, r.overflow), InstancePlaces(sk, from.key))
  {
    hide Flows, MergeGroups, InstanceStore, InstancePlaces, GroupItems;
    var ik, i, o, r := from.key, st.instance, st.overflow, MergeInstance(limits, d, st, from);
    TransactionGroupsFlow(limits, d, sk, ik, i, o, st.counters.transactions, from.transactions);
    var i1, o1 := i.(transactions := r.instance.transactions), o.(transactions := r.overflow.transactions);
    ServiceTransactionGroupsFlow(limits, d, sk, ik, i1, o1, st.counters.serviceTransactions, from.serviceTransactions);
    var i2, o2 := i1.(serviceTransactions := r.instance.serviceTransactions), o1.(serviceTransactions := r.overflow.serviceTransactions);
    SpanGroupsFlow(limits, d, sk, ik, i2, o2, st.counters.spans, from.spans);
    assert i2.(spans := r.instance.spans) == r.instance && o2.(spans := r.overflow.spans) == r.overflow;
    FlowsThreeTimes(InstanceStore(sk, ik, i, o), GroupItems(from.transactions, TransactionLens(sk, ik)),
                    InstanceStore(sk, ik, i1, o1), GroupItems(from.serviceTransactions, ServiceTransactionLens(sk, ik)),
                    InstanceStore(sk, ik, i2, o2), GroupItems(from.spans, SpanLens(sk, ik)),
                    InstanceStore(sk, ik, r.instance, r.overflow), InstancePlaces(sk, ik));
  }

  // ----- services

  ghost function HeldAt(s: ServiceMetrics, ik: InstanceKey, g: GroupKey): Option<Value> {
    if ik in s.instances then HeldBy(s.instances[ik], g) else None
  }

  ghost function ServiceStore(sk: ServiceKey, s: ServiceMetrics): Store {
    (p: Place) =>
      match p
      case Kept(k, ik, g) => if k == sk then HeldAt(s, ik, g) else None
      case ServiceOverflow(k, kind) => if k == sk then HeldIn(s.overflow, kind) else None
      case OverflowServices(_) => None
  }

  ghost function ServicePlaces(sk: ServiceKey): Place -> bool {
    (p: Place) => !p.OverflowServices? && p.service == sk
  }

  lemma ServiceOverflowInside(sk: ServiceKey, s: ServiceMetrics, items: seq<Item>, o: Overflow)
    requires Flows(OverflowStore(Some(sk), s.overflow), items, OverflowStore(Some(sk), o), OverflowPlaces(Some(sk)))
    ensures Flows(ServiceStore(sk, s), items, ServiceStore(sk, s.(overflow := o)), ServicePlaces(sk))
  {
    hide Flows, HeldIn, HeldBy;
    FlowsInside(OverflowStore(Some(sk), s.overflow), items, OverflowStore(Some(sk), o), OverflowPlaces(Some(sk)),
                ServiceStore(sk, s), ServiceStore(sk, s.(overflow := o)), ServicePlaces(sk));
  }

  lemma EmptyInstanceHolds(g: GroupKey)
    ensures HeldBy(EmptyInstance, g) == None
  {
  }

  lemma ServiceInstanceInside(sk: ServiceKey, s: ServiceMetrics, ik: InstanceKey, items: seq<Item>, i: InstanceMetrics, o: Overflow)
    requires Flows(InstanceStore(sk, ik, InstanceOf(s, ik), s.overflow), items, InstanceStore(sk, ik, i, o), InstancePlaces(sk, ik))
    ensures Flows(ServiceStore(sk, s), items, ServiceStore(sk, ServiceMetrics(s.instances[ik := i], o)), ServicePlaces(sk))
  {
    hide Flows, HeldIn, HeldBy;
    forall g
      ensures HeldBy(EmptyInstance, g) == None
    {
      EmptyInstanceHolds(g);
    }
    FlowsInside(InstanceStore(sk, ik, InstanceOf(s, ik), s.overflow), items, InstanceStore(sk, ik, i, o), InstancePlaces(sk, ik),
                ServiceStore(sk, s), ServiceStore(sk, ServiceMetrics(s.instances[ik := i], o)), ServicePlaces(sk));
  }

  lemma MergeServiceInstanceFlows(limits: Limits, sk: ServiceKey, d: Digest, st: ServiceState, from: PbInstance)
    ensures Flows(ServiceStore(sk, st.service), InstanceItems(sk, from),
                  ServiceStore(sk, MergeServiceInstance(limits, d, st, from).service), ServicePlaces(sk))
  {
    hide Flows, ServiceStore, InstanceItems, InstanceStore, OverflowStore, MergeInstance, DivertInstance, InstancePlaces, OverflowPlaces;
    if HasRoomForInstance(limits, st.service, from.key) {
      var ist := InstanceState(InstanceOf(st.service, from.key), st.service.overflow, st.counters);
      var r := MergeInstance(limits, d, ist, from);
      MergeInstanceFlows(limits, d, sk, ist, from);
      ServiceInstanceInside(sk, st.service, from.key, InstanceItems(sk, from), r.instance, r.overflow);
    } else {
      var di := InstanceDigest(d, from.key);
      DivertInstanceFlows(limits, di, sk, Some(sk), st.service.overflow, from);
      ServiceOverflowInside(sk, st.service, InstanceItems(sk, from), DivertInstance(limits, st.service.overflow, from, di));
    }
  }

  lemma {:induction false} MergeInstancesFlow(limits: Limits, sk: ServiceKey, d: Digest, st: ServiceState, from: seq<PbInstance>)
    ensures Flows(ServiceStore(sk, st.service), InstancesItems(sk, from), ServiceStore(sk, MergeInstances(limits, d, st, from).service),
                  ServicePlaces(sk))
  {
    hide Flows, ServiceStore, InstanceItems, MergeServiceInstance;
    if from == [] {
      FlowsNothing(ServiceStore(sk, st.service), ServiceStore(sk, st.service), ServicePlaces(sk));
    } else {
      var n := |from| - 1;
      var p := MergeInstances(limits, d, st, from[..n]);
      MergeInstancesFlow(limits, sk, d, st, from[..n]);
      MergeServiceInstanceFlows(limits, sk, d, p, from[n]);
      FlowsThen(ServiceStore(sk, st.service), InstancesItems(sk, from[..n]), ServiceStore(sk, p.service), InstanceItems(sk, from[n]),
                ServiceStore(sk, MergeInstances(limits, d, st, from).service), ServicePlaces(sk));
    }
  }

  lemma {:induction false} DivertInstancesFlow(limits: Limits, sk: ServiceKey, d: Digest, st: OverflowState, from: seq<PbInstance>)
    ensures Flows(OverflowStore(None, st.overflow), InstancesItems(sk, from),
                  OverflowStore(None, DivertInstances(limits, d, st, from).overflow), OverflowPlaces(None))
  {
    hide Flows, OverflowStore, InstanceItems, DivertInstance;
    if from == [] {
      FlowsNothing(OverflowStore(None, st.overflow), OverflowStore(None, st.overflow), OverflowPlaces(None));
    } else {
      var n := |from| - 1;
      var p := DivertInstances(limits, d, st, from[..n]);
      DivertInstancesFlow(limits, sk, d, st, from[..n]);
      DivertInstanceFlows(limits, InstanceDigest(d, from[n].key), sk, None, p.overflow, from[n]);
      FlowsThen(OverflowStore(None, st.overflow), InstancesItems(sk, from[..n]), OverflowStore(None, p.overflow), InstanceItems(sk, from[n]),
                OverflowStore(None, DivertInstances(limits, d, st, from).overflow), OverflowPlaces(None));
    }
  }
}
