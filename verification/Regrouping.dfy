/** The placement of everything over whole merges and merge trees, with a serialization at every inner node. */
module Regrouping {
  import opened Histograms
  import opened Models
  import opened Sums
  import opened Groups
  import opened MergerSpec
  import opened MergerCodec
  import opened MergerTotals
  import opened MergerLimits
  import opened MergerExact
  import opened Places
  import opened Placement

  // ----- one merge

  ghost function CombinedStore(cm: CombinedMetrics): Store {
    (p: Place) =>
      match p
      case Kept(k, ik, g) => if k in cm.services then HeldAt(cm.services[k], ik, g) else None
      case ServiceOverflow(k, kind) => if k in cm.services then HeldIn(cm.services[k].overflow, kind) else None
      case OverflowServices(kind) => HeldIn(cm.overflowServices, kind)
  }

  ghost function Anywhere(): Place -> bool {
    (p: Place) => true
  }

  lemma ServiceInside(sk: ServiceKey, s: ServiceMetrics, items: seq<Item>, s': ServiceMetrics, cm: CombinedMetrics, cm': CombinedMetrics)
    requires Flows(ServiceStore(sk, s), items, ServiceStore(sk, s'), ServicePlaces(sk))
    requires s == ServiceOf(cm, sk) && cm'.services == cm.services[sk := s'] && cm'.overflowServices == cm.overflowServices
    ensures Flows(CombinedStore(cm), items, CombinedStore(cm'), Anywhere())
  {
    hide Flows, HeldBy, HeldIn;
    forall kind
      ensures HeldIn(EmptyOverflow, kind) == None
    {
      EmptyOverflowHolds(kind);
    }
    FlowsInside(ServiceStore(sk, s), items, ServiceStore(sk, s'), ServicePlaces(sk), CombinedStore(cm), CombinedStore(cm'), Anywhere());
  }

  lemma EmptyOverflowHolds(kind: Kind)
    ensures HeldIn(EmptyOverflow, kind) == None
  {
  }

  lemma OverflowServicesInside(items: seq<Item>, o: Overflow, cm: CombinedMetrics, cm': CombinedMetrics)
    requires Flows(OverflowStore(None, cm.overflowServices), items, OverflowStore(None, o), OverflowPlaces(None))
    requires cm'.services == cm.services && cm'.overflowServices == o
    ensures Flows(CombinedStore(cm), items, CombinedStore(cm'), Anywhere())
  {
    hide Flows, HeldBy, HeldIn, HeldAt;
    FlowsInside(OverflowStore(None, cm.overflowServices), items, OverflowStore(None, o), OverflowPlaces(None),
                CombinedStore(cm), CombinedStore(cm'), Anywhere());
  }

  lemma KeptServiceFlows(limits: Limits, st: MergerState, from: PbService)
    requires from.overflow.Some? ==> PairedOverflow(from.overflow.value)
    requires HasRoomForService(limits, st.metrics, from.key)
    ensures Flows(CombinedStore(st.metrics), ServiceItems(from), CombinedStore(MergeService(limits, st, from).metrics), Anywhere())
  {
    hide Flows, ServiceStore, CombinedStore, OverflowStore, InstancesItems, OverflowItems, MergeInstances, MergeOverflow, PairedOverflow,
         ServicePlaces, OverflowPlaces;
    var sk, d, svc := from.key, ServiceDigest(from.key), ServiceOf(st.metrics, from.key);
    var o := MergeOverflow(svc.overflow, from.overflow);
    MergeOverflowFlows(Some(sk), Some(sk), svc.overflow, from.overflow);
    ServiceOverflowInside(sk, svc, OverflowItems(Some(sk), from.overflow), o);
    var sst := ServiceState(svc.(overflow := o), st.counters, st.metrics.estimator);
    MergeInstancesFlow(limits, sk, d, sst, from.instances);
    var r := MergeInstances(limits, d, sst, from.instances);
    FlowsThen(ServiceStore(sk, svc), OverflowItems(Some(sk), from.overflow), ServiceStore(sk, sst.service),
              InstancesItems(sk, from.instances), ServiceStore(sk, r.service), ServicePlaces(sk));
    ServiceInside(sk, svc, ServiceItems(from), r.service, st.metrics, MergeService(limits, st, from).metrics);
  }

  lemma DivertedServiceFlows(limits: Limits, st: MergerState, from: PbService)
    requires from.overflow.Some? ==> PairedOverflow(from.overflow.value)
    requires !HasRoomForService(limits, st.metrics, from.key)
    ensures Flows(CombinedStore(st.metrics), ServiceItems(from), CombinedStore(MergeService(limits, st, from).metrics), Anywhere())
  {
    hide Flows, CombinedStore, OverflowStore, InstancesItems, OverflowItems, DivertInstances, MergeOverflow, PairedOverflow, OverflowPlaces;
    var sk, d, cm := from.key, ServiceDigest(from.key), st.metrics;
    var o := OverflowState(MergeOverflow(cm.overflowServices, from.overflow), cm.estimator);
    MergeOverflowFlows(None, Some(sk), cm.overflowServices, from.overflow);
    DivertInstancesFlow(limits, sk, d, o, from.instances);
    var r := DivertInstances(limits, d, o, from.instances);
    FlowsThen(OverflowStore(None, cm.overflowServices), OverflowItems(Some(sk), from.overflow), OverflowStore(None, o.overflow),
              InstancesItems(sk, from.instances), OverflowStore(None, r.overflow), OverflowPlaces(None));
    OverflowServicesInside(ServiceItems(from), r.overflow, cm, MergeService(limits, st, from).metrics);
  }

  lemma {:induction false} MergeServicesFlow(limits: Limits, st: MergerState, from: seq<PbService>)
    requires PairedServices(from)
    ensures Flows(CombinedStore(st.metrics), ServicesItems(from), CombinedStore(MergeServices(limits, st, from).metrics), Anywhere())
  {
    hide Flows, CombinedStore, ServiceItems, MergeService, PairedOverflow, Anywhere;
    if from == [] {
      FlowsNothing(CombinedStore(st.metrics), CombinedStore(st.metrics), Anywhere());
    } else {
      var n := |from| - 1;
      var p := MergeServices(limits, st, from[..n]);
      MergeServicesFlow(limits, st, from[..n]);
      if HasRoomForService(limits, p.metrics, from[n].key) {
        KeptServiceFlows(limits, p, from[n]);
      } else {
        DivertedServiceFlows(limits, p, from[n]);
      }
      FlowsThen(CombinedStore(st.metrics), ServicesItems(from[..n]), CombinedStore(p.metrics), ServiceItems(from[n]),
                CombinedStore(MergeServices(limits, st, from).metrics), Anywhere());
    }
  }

  lemma HeaderFlows(cm: CombinedMetrics, from: PbCombined)
    requires SealedPb(from)
    ensures Flows(CombinedStore(cm), OverflowItems(None, from.overflowServices), CombinedStore(MergeHeader(cm, from)), Anywhere())
  {
    hide Flows, OverflowStore, MergeOverflow, PairedOverflow, OverflowPlaces;
    var r := MergeHeader(cm, from);
    if from.estimator.Some? {
      MergeOverflowFlows(None, None, cm.overflowServices, from.overflowServices);
      OverflowServicesInside(OverflowItems(None, from.overflowServices), r.overflowServices, cm, r);
    } else {
      assert OverflowItems(None, from.overflowServices) == [];
      FlowsNothing(CombinedStore(cm), CombinedStore(r), Anywhere());
    }
  }

  lemma SealedArePaired(pb: PbCombined)
    requires SealedPb(pb)
    ensures PairedServices(pb.services)
  {
    hide PairedOverflow;
    forall i | 0 <= i < |pb.services| && pb.services[i].overflow.Some?
      ensures PairedOverflow(pb.services[i].overflow.value)
    {
      assert SealedPbService(pb.services[i], pb.estimator);
    }
  }

  /** Every item of a merged message goes to a place that it may move to, and nothing else changes. */
  lemma {:induction false} MergeMessageFlows(limits: Limits, st: MergerState, from: PbCombined)
    requires SealedPb(from)
    ensures Flows(CombinedStore(st.metrics), Items(from), CombinedStore(MergeMessage(limits, st, from).metrics), Anywhere())
  {
    SealedArePaired(from);
    hide Flows, CombinedStore, SealedPb, MergeHeader, MergeServices, OverflowItems, ServicesItems, PairedServices, Anywhere;
    HeaderFlows(st.metrics, from);
    var h := st.(metrics := MergeHeader(st.metrics, from));
    MergeServicesFlow(limits, h, from.services);
    FlowsThen(CombinedStore(st.metrics), OverflowItems(None, from.overflowServices), CombinedStore(h.metrics),
              ServicesItems(from.services), CombinedStore(MergeMessage(limits, st, from).metrics), Anywhere());
  }

  lemma {:induction false} MergeAllFlows(limits: Limits, from: seq<PbCombined>)
    requires AllSealed(from)
    ensures Flows(CombinedStore(EmptyCombined), ItemsOf(from), CombinedStore(MergeAll(limits, from).metrics), Anywhere())
  {
    hide Flows, CombinedStore, SealedPb, MergeMessage, Items, Anywhere;
    if from == [] {
      FlowsNothing(CombinedStore(EmptyCombined), CombinedStore(EmptyCombined), Anywhere());
    } else {
      var n := |from| - 1;
      MergeAllFlows(limits, from[..n]);
      var p := MergeAll(limits, from[..n]);
      MergeMessageFlows(limits, p, from[n]);
      FlowsThen(CombinedStore(EmptyCombined), ItemsOf(from[..n]), CombinedStore(p.metrics), Items(from[n]),
                CombinedStore(MergeAll(limits, from).metrics), Anywhere());
    }
  }

  // ----- listing a store

  /** The items of a store, each place once. */
  ghost predicate Listing(items: seq<Item>, f: Store) {
    && (forall i, j :: 0 <= i < j < |items| ==> items[i].place != items[j].place)
    && (forall i :: 0 <= i < |items| ==> f(items[i].place) == Some(items[i].value))
    && forall p :: f(p).Some? ==> exists i :: 0 <= i < |items| && items[i].place == p
  }

  lemma ListingBoth(a: seq<Item>, f: Store, b: seq<Item>, g: Store, h: Store)
    requires Listing(a, f) && Listing(b, g)
    requires forall p :: !(f(p).Some? && g(p).Some?) && h(p) == if f(p).Some? then f(p) else g(p)
    ensures Listing(a + b, h)
  {
    var s := a + b;
    forall p | h(p).Some?
      ensures exists i :: 0 <= i < |s| && s[i].place == p
    {
      if f(p).Some? {
        var i :| 0 <= i < |a| && a[i].place == p;
        assert s[i].place == p;
      } else {
        var i :| 0 <= i < |b| && b[i].place == p;
        assert s[|a| + i].place == p;
      }
    }
    forall i, j | 0 <= i < j < |s|
      ensures s[i].place != s[j].place
    {
      if i < |a| <= j {
        assert f(a[i].place).Some? && g(b[j - |a|].place).Some?;
      }
    }
  }

  lemma GroupsListing<K(!new), M>(g: GroupMap<K, M>, out: seq<Keyed<K, M>>, lens: Lens<K, M>, f: Store)
    requires EncodesGroups(g, out) && KeysEmbedded(g)
    requires forall k :: lens.keyOf(lens.at(k)) == Some(k)
    requires forall p :: lens.keyOf(p).Some? ==> lens.at(lens.keyOf(p).value) == p
    requires forall p :: f(p) == var k := lens.keyOf(p);
                                 if k.Some? && k.value in g then Some(lens.wrap(g[k.value].metrics)) else None
    ensures Listing(GroupItems(out, lens), f)
  {
    var keys :| ListedAs(g, keys, out);
    var s := GroupItems(out, lens);
    assert forall i :: 0 <= i < |keys| ==> keys[i] in keys;
    assert forall i :: 0 <= i < |s| ==> s[i].place == lens.at(keys[i]);
    forall i, j | 0 <= i < j < |s|
      ensures s[i].place != s[j].place
    {
      assert lens.keyOf(s[i].place) == Some(keys[i]) && lens.keyOf(s[j].place) == Some(keys[j]);
    }
    forall p | f(p).Some?
      ensures exists i :: 0 <= i < |s| && s[i].place == p
    {
      var k := lens.keyOf(p).value;
      var i :| 0 <= i < |keys| && keys[i] == k;
      assert s[i].place == p;
    }
  }

  /** The parts of an instance by kind. */
  ghost function KindStore(sk: ServiceKey, ik: InstanceKey, i: InstanceMetrics, kinds: set<Kind>): Store {
    (p: Place) => if p.Kept? && p.service == sk && p.instance == ik && KindOf(p) in kinds then HeldBy(i, p.group) else None
  }

  lemma KindsListing(sk: ServiceKey, i: InstanceMetrics, out: PbInstance)
    requires EncodesInstance(i, out) && InstanceEmbedded(i)
    ensures Listing(GroupItems(out.transactions, TransactionLens(sk, out.key)), KindStore(sk, out.key, i, {Transactions}))
    ensures Listing(GroupItems(out.serviceTransactions, ServiceTransactionLens(sk, out.key)), KindStore(sk, out.key, i, {ServiceTransactions}))
    ensures Listing(GroupItems(out.spans, SpanLens(sk, out.key)), KindStore(sk, out.key, i, {Spans}))
  {
    hide Listing, EncodesGroups, GroupItems;
    GroupsListing(i.transactions, out.transactions, TransactionLens(sk, out.key), KindStore(sk, out.key, i, {Transactions}));
    GroupsListing(i.serviceTransactions, out.serviceTransactions, ServiceTransactionLens(sk, out.key),
                  KindStore(sk, out.key, i, {ServiceTransactions}));
    GroupsListing(i.spans, out.spans, SpanLens(sk, out.key), KindStore(sk, out.key, i, {Spans}));
  }

  lemma KindsBoth(sk: ServiceKey, ik: InstanceKey, i: InstanceMetrics, a: seq<Item>, k: set<Kind>, b: seq<Item>, l: set<Kind>)
    requires Listing(a, KindStore(sk, ik, i, k)) && Listing(b, KindStore(sk, ik, i, l)) && k !! l
    ensures Listing(a + b, KindStore(sk, ik, i, k + l))
  {
    hide Listing, HeldBy;
    ListingBoth(a, KindStore(sk, ik, i, k), b, KindStore(sk, ik, i, l), KindStore(sk, ik, i, k + l));
  }

  lemma SameListing(a: seq<Item>, f: Store, g: Store)
    requires Listing(a, f) && forall p :: f(p) == g(p)
    ensures Listing(a, g)
  {
  }

  lemma InstanceListing(sk: ServiceKey, i: InstanceMetrics, out: PbInstance)
    requires EncodesInstance(i, out) && InstanceEmbedded(i)
    ensures Listing(InstanceItems(sk, out), InstanceStore(sk, out.key, i, EmptyOverflow))
  {
    hide Listing, EncodesInstance, InstanceEmbedded, GroupItems, HeldBy, KindStore;
    KindsListing(sk, i, out);
    var t, s, p := GroupItems(out.transactions, TransactionLens(sk, out.key)),
                   GroupItems(out.serviceTransactions, ServiceTransactionLens(sk, out.key)), GroupItems(out.spans, SpanLens(sk, out.key));
    KindsBoth(sk, out.key, i, t, {Transactions}, s, {ServiceTransactions});
    KindsBoth(sk, out.key, i, t + s, {Transactions} + {ServiceTransactions}, p, {Spans});
    AllKinds(sk, out.key, i, t + s + p);
  }

  lemma AllKinds(sk: ServiceKey, ik: InstanceKey, i: InstanceMetrics, a: seq<Item>)
    requires Listing(a, KindStore(sk, ik, i, {Transactions} + {ServiceTransactions} + {Spans}))
    ensures Listing(a, InstanceStore(sk, ik, i, EmptyOverflow))
  {
    hide Listing, HeldBy, HeldIn;
    forall kind
      ensures HeldIn(EmptyOverflow, kind) == None
    {
      EmptyOverflowHolds(kind);
    }
    SameListing(a, KindStore(sk, ik, i, {Transactions} + {ServiceTransactions} + {Spans}), InstanceStore(sk, ik, i, EmptyOverflow));
  }

  lemma BucketListing<M>(b: Bucket<M>, at: Place, wrap: M -> Value)
    ensures Listing(BucketItems(b, at, wrap), BucketStore(b, wrap, at))
  {
    if b.metrics.Some? {
      var s := BucketItems(b, at, wrap);
      assert s[0].place == at;
    }
  }

  lemma OverflowListing(owner: Option<ServiceKey>, o: Overflow)
    ensures Listing(OverflowItems(owner, Some(o)), OverflowStore(owner, o))
  {
    hide Listing;
    var t, s, p := OverflowAt(owner, Transactions), OverflowAt(owner, ServiceTransactions), OverflowAt(owner, Spans);
    BucketListing(o.transactions, t, OfTransaction());
    BucketListing(o.serviceTransactions, s, OfServiceTransaction());
    BucketListing(o.spans, p, OfSpan());
    hide BucketItems;
    var ts := OverflowStore(owner, o.(spans := EmptyBucket()));
    ListingBoth(BucketItems(o.transactions, t, OfTransaction()), BucketStore(o.transactions, OfTransaction(), t),
                BucketItems(o.serviceTransactions, s, OfServiceTransaction()), BucketStore(o.serviceTransactions, OfServiceTransaction(), s), ts);
    ListingBoth(BucketItems(o.transactions, t, OfTransaction()) + BucketItems(o.serviceTransactions, s, OfServiceTransaction()), ts,
                BucketItems(o.spans, p, OfSpan()), BucketStore(o.spans, OfSpan(), p), OverflowStore(owner, o));
  }

  /** The part of a map under the first keys of its listing. */
  ghost function Part<K, V>(m: map<K, V>, keys: seq<K>): map<K, V> {
    map k | k in m && k in keys :: m[k]
  }

  lemma ListingNothing(f: Store)
    requires forall p :: f(p).None?
    ensures Listing([], f)
  {
  }

  /** One more instance of the listing. */
  lemma PartAndInstance(sk: ServiceKey, m: map<InstanceKey, InstanceMetrics>, keys: seq<InstanceKey>, k: InstanceKey, p: Place)
    requires k in m && k !in keys
    ensures var f, g := ServiceStore(sk, ServiceMetrics(Part(m, keys), EmptyOverflow)), InstanceStore(sk, k, m[k], EmptyOverflow);
            var h := ServiceStore(sk, ServiceMetrics(Part(m, keys + [k]), EmptyOverflow));
            !(f(p).Some? && g(p).Some?) && h(p) == if f(p).Some? then f(p) else g(p)
  {
    hide HeldBy, HeldIn;
    forall kind
      ensures HeldIn(EmptyOverflow, kind) == None
    {
      EmptyOverflowHolds(kind);
    }
  }

  lemma NoInstances(sk: ServiceKey, m: map<InstanceKey, InstanceMetrics>, keys: seq<InstanceKey>)
    requires keys == []
    ensures Listing([], ServiceStore(sk, ServiceMetrics(Part(m, keys), EmptyOverflow)))
  {
    ListingNothing(ServiceStore(sk, ServiceMetrics(Part(m, keys), EmptyOverflow)));
  }

  lemma {:induction false} InstancesListing(sk: ServiceKey, m: map<InstanceKey, InstanceMetrics>, out: seq<PbInstance>)
    requires forall i :: 0 <= i < |out| ==>
               out[i].key in m && EncodesInstance(m[out[i].key], out[i]) && InstanceEmbedded(m[out[i].key])
    requires forall i, j :: 0 <= i < j < |out| ==> out[i].key != out[j].key
    ensures Listing(InstancesItems(sk, out), ServiceStore(sk, ServiceMetrics(Part(m, InstanceKeys(out)), EmptyOverflow)))
  {
    hide Listing, EncodesInstance, InstanceEmbedded, HeldBy, InstanceItems, ServiceStore, InstanceStore, Part;
    if out == [] {
      NoInstances(sk, m, InstanceKeys(out));
    } else {
      var n := |out| - 1;
      var last, keys := out[n], InstanceKeys(out[..n]);
      InstancesListing(sk, m, out[..n]);
      InstanceListing(sk, m[last.key], last);
      assert InstanceKeys(out) == keys + [last.key];
      assert last.key !in keys;
      var f, g := ServiceStore(sk, ServiceMetrics(Part(m, keys), EmptyOverflow)), InstanceStore(sk, last.key, m[last.key], EmptyOverflow);
      var h := ServiceStore(sk, ServiceMetrics(Part(m, keys + [last.key]), EmptyOverflow));
      forall p
        ensures !(f(p).Some? && g(p).Some?) && h(p) == if f(p).Some? then f(p) else g(p)
      {
        PartAndInstance(sk, m, keys, last.key, p);
      }
      ListingBoth(InstancesItems(sk, out[..n]), f, InstanceItems(sk, last), g, h);
    }
  }

  lemma PartOfAll<K(!new), V>(m: map<K, V>, keys: seq<K>)
    requires Lists(m, keys)
    ensures Part(m, keys) == m
  {
  }

  lemma ServiceListing(sk: ServiceKey, s: ServiceMetrics, out: PbService)
    requires EncodesService(s, out) && out.key == sk && ServiceListable(s)
    ensures Listing(ServiceItems(out), ServiceStore(sk, s))
  {
    hide Listing, EncodesInstance, InstanceEmbedded, HeldBy, InstancesItems, OverflowItems, EncodeOverflow, PairedOverflow;
    PairedEncodesItself(s.overflow);
    OverflowListing(Some(sk), s.overflow);
    DistinctInstances(s.instances, out.instances);
    InstancesListing(sk, s.instances, out.instances);
    PartOfAll(s.instances, InstanceKeys(out.instances));
    ListingBoth(OverflowItems(Some(sk), out.overflow), OverflowStore(Some(sk), s.overflow), InstancesItems(sk, out.instances),
                ServiceStore(sk, s.(overflow := EmptyOverflow)), ServiceStore(sk, s));
  }

  lemma DistinctInstances(m: map<InstanceKey, InstanceMetrics>, out: seq<PbInstance>)
    requires Lists(m, InstanceKeys(out))
    ensures forall i, j :: 0 <= i < j < |out| ==> out[i].key != out[j].key
  {
    forall i, j | 0 <= i < j < |out|
      ensures out[i].key != out[j].key
    {
      assert InstanceKeys(out)[i] != InstanceKeys(out)[j];
    }
  }

  ghost predicate ServiceListable(s: ServiceMetrics) {
    PairedOverflow(s.overflow) && forall k :: k in s.instances ==> InstanceEmbedded(s.instances[k])
  }

  lemma PartAndService(m: map<ServiceKey, ServiceMetrics>, keys: seq<ServiceKey>, k: ServiceKey, p: Place)
    requires k in m && k !in keys
    ensures var f, g := CombinedStore(EmptyCombined.(services := Part(m, keys))), ServiceStore(k, m[k]);
            var h := CombinedStore(EmptyCombined.(services := Part(m, keys + [k])));
            !(f(p).Some? && g(p).Some?) && h(p) == if f(p).Some? then f(p) else g(p)
  {
    hide HeldAt, HeldIn;
    forall kind
      ensures HeldIn(EmptyOverflow, kind) == None
    {
      EmptyOverflowHolds(kind);
    }
  }

  lemma NoServices(m: map<ServiceKey, ServiceMetrics>, keys: seq<ServiceKey>)
    requires keys == []
    ensures Listing([], CombinedStore(EmptyCombined.(services := Part(m, keys))))
  {
    ListingNothing(CombinedStore(EmptyCombined.(services := Part(m, keys))));
  }

  lemma {:induction false} ServicesListing(m: map<ServiceKey, ServiceMetrics>, out: seq<PbService>)
    requires forall i :: 0 <= i < |out| ==>
               out[i].key in m && EncodesService(m[out[i].key], out[i]) && ServiceListable(m[out[i].key])
    requires forall i, j :: 0 <= i < j < |out| ==> out[i].key != out[j].key
    ensures Listing(ServicesItems(out), CombinedStore(EmptyCombined.(services := Part(m, ServiceKeys(out)))))
  {
    hide Listing, EncodesService, ServiceItems, ServiceListable, CombinedStore, ServiceStore, Part;
    if out == [] {
      NoServices(m, ServiceKeys(out));
    } else {
      var n := |out| - 1;
      var last, keys := out[n], ServiceKeys(out[..n]);
      ServicesListing(m, out[..n]);
      ServiceListing(last.key, m[last.key], last);
      assert ServiceKeys(out) == keys + [last.key];
      assert last.key !in keys;
      var f, g := CombinedStore(EmptyCombined.(services := Part(m, keys))), ServiceStore(last.key, m[last.key]);
      var h := CombinedStore(EmptyCombined.(services := Part(m, keys + [last.key])));
      forall p
        ensures !(f(p).Some? && g(p).Some?) && h(p) == if f(p).Some? then f(p) else g(p)
      {
        PartAndService(m, keys, last.key, p);
      }
      ListingBoth(ServicesItems(out[..n]), f, ServiceItems(last), g, h);
    }
  }

  lemma DistinctServices(m: map<ServiceKey, ServiceMetrics>, out: seq<PbService>)
    requires Lists(m, ServiceKeys(out))
    ensures forall i, j :: 0 <= i < j < |out| ==> out[i].key != out[j].key
  {
    forall i, j | 0 <= i < j < |out|
      ensures out[i].key != out[j].key
    {
      assert ServiceKeys(out)[i] != ServiceKeys(out)[j];
    }
  }

  /** Every encoding of a sealed state lists what the state holds, each place once. */
  lemma {:induction false} EncodingLists(cm: CombinedMetrics, out: PbCombined)
    requires Sealed(cm) && EncodesCombined(cm, out) && forall k :: k in cm.services ==> ServiceListable(cm.services[k])
    ensures Listing(Items(out), CombinedStore(cm))
  {
    hide Listing, EncodesService, HeldAt, HeldIn, ServicesItems, PairedOverflow, EncodeOverflow, ServiceListable;
    DistinctServices(cm.services, out.services);
    ServicesListing(cm.services, out.services);
    PartOfAll(cm.services, ServiceKeys(out.services));
    forall kind
      ensures HeldIn(EmptyOverflow, kind) == None
    {
      EmptyOverflowHolds(kind);
    }
    var o := OverflowItems(None, out.overflowServices);
    if cm.estimator.Some? {
      PairedEncodesItself(cm.overflowServices);
      OverflowListing(None, cm.overflowServices);
    } else {
      ListingNothing(OverflowStore(None, cm.overflowServices));
    }
    ListingBoth(o, OverflowStore(None, cm.overflowServices), ServicesItems(out.services),
                CombinedStore(EmptyCombined.(services := cm.services)), CombinedStore(cm));
  }

  // ----- from flows to regrouped items

  lemma {:induction false} AfterIsSum(items: seq<Item>, to: seq<Place>, p: Place)
    requires |to| == |items|
    ensures After(None, items, to, p) == if p in to then Some(SumTo(items, to, p)) else None
    ensures p !in to ==> SumTo(items, to, p) == Zero
  {
    hide Plus;
    if items != [] {
      var n := |items| - 1;
      AfterIsSum(items[..n], to[..n], p);
      assert to == to[..n] + [to[n]];
    }
  }

  lemma {:induction false} SumSame(items: seq<Item>, to: seq<Place>, index: seq<int>, p: Place, j: int)
    requires |to| == |items| == |index| && forall i :: 0 <= i < |to| ==> (index[i] == j <==> to[i] == p)
    ensures SumTo(items, index, j) == SumTo(items, to, p)
  {
    hide Plus;
    if items != [] {
      var n := |items| - 1;
      SumSame(items[..n], to[..n], index[..n], p, j);
    }
  }

  ghost function IndexAt(out: seq<Item>, p: Place): (j: int)
    requires exists i :: 0 <= i < |out| && out[i].place == p
    ensures 0 <= j < |out| && out[j].place == p
  {
    var i :| 0 <= i < |out| && out[i].place == p;
    i
  }

  lemma FlowIsListed(f: Store, items: seq<Item>, to: seq<Place>, g: Store, out: seq<Item>, i: nat)
    requires Flow(f, items, to, g, Anywhere()) && Listing(out, g) && (forall p :: f(p).None?) && i < |items|
    ensures exists j :: 0 <= j < |out| && out[j].place == to[i]
  {
    hide Moves, Plus;
    AfterIsSum(items, to, to[i]);
    assert g(to[i]).Some?;
  }

  lemma FlowsRegroup(f: Store, items: seq<Item>, g: Store, out: seq<Item>)
    requires Flows(f, items, g, Anywhere()) && Listing(out, g) && forall p :: f(p).None?
    ensures Regrouped(items, out)
  {
    hide Moves, Plus;
    var to :| Flow(f, items, to, g, Anywhere());
    forall i: nat | i < |items|
      ensures exists j :: 0 <= j < |out| && out[j].place == to[i]
    {
      FlowIsListed(f, items, to, g, out, i);
    }
    var index := seq(|items|, i requires 0 <= i < |items| => IndexAt(out, to[i]));
    forall j | 0 <= j < |out|
      ensures out[j].value == SumTo(items, index, j)
    {
      AfterIsSum(items, to, out[j].place);
      SumSame(items, to, index, out[j].place, j);
    }
    hide SumTo, After, Listing;
    assert Regroups(items, out, index);
  }

  // ----- merge trees

  lemma EmptyStore(p: Place)
    ensures CombinedStore(EmptyCombined)(p) == None
  {
  }

  lemma WithinIsListable(limits: Limits, cm: CombinedMetrics, k: ServiceKey)
    requires ServicesWithin(limits, cm) && Sealed(cm) && k in cm.services
    ensures ServiceListable(cm.services[k])
  {
    hide PairedOverflow;
    assert SealedService(cm.services[k], cm.estimator);
  }

  lemma NodeRegroups(limits: Limits, from: seq<PbCombined>, out: PbCombined)
    requires AllSealed(from) && EncodesCombined(MergeAll(limits, from).metrics, out)
    ensures Regrouped(ItemsOf(from), Items(out))
  {
    hide AllSealed, EncodesCombined, MergeAll, Sealed, ServicesWithin, CountersExact, Flows, Listing, Regrouped, ItemsOf, Items, CombinedStore,
         ServiceListable, Total;
    var cm := MergeAll(limits, from).metrics;
    MergeAllFlows(limits, from);
    MergeAllWithin(limits, from);
    MergeAllConserves(EventsTotal, limits, from);
    forall k | k in cm.services
      ensures ServiceListable(cm.services[k])
    {
      WithinIsListable(limits, cm, k);
    }
    EncodingLists(cm, out);
    forall p
      ensures CombinedStore(EmptyCombined)(p) == None
    {
      EmptyStore(p);
    }
    FlowsRegroup(CombinedStore(EmptyCombined), ItemsOf(from), CombinedStore(cm), Items(out));
  }

  lemma {:induction false} ItemsAppend(s: seq<PbCombined>, t: seq<PbCombined>)
    ensures ItemsOf(s + t) == ItemsOf(s) + ItemsOf(t)
    decreases |t|
  {
    hide Items;
    if t == [] {
      assert s + t == s;
    } else {
      var n := |t| - 1;
      ItemsAppend(s, t[..n]);
      assert (s + t)[..|s + t| - 1] == s + t[..n];
    }
  }

  /** For every merge tree over sealed operands and all limits: every group and every overflow bucket of an
      operand ends up, as a whole, in one item of the root: under its own keys, under them without the span
      name, in the overflow of its service or in the overflow services; and every item of the root is exactly
      the sum of those that ended up in it. */
  lemma {:induction false} TreeRegroups(limits: Limits, t: MergeTree)
    requires ValidTree(limits, t) && AllSealed(Operands(t))
    ensures Regrouped(ItemsOf(Operands(t)), Items(t.value))
    decreases t
  {
    hide Regrouped, Items, EncodesCombined, MergeAll, SealedPb, AllSealed;
    match t
    case Operand(v) =>
      assert Operands(t) == [v] && [v][..0] == [] && ItemsOf([]) == [];
      assert ItemsOf(Operands(t)) == Items(v);
      RegroupedSelf(Items(v));
    case Merged(inputs, value) =>
      TreesRegroup(limits, t, inputs);
      NodeRegroups(limits, Values(inputs), value);
      RegroupedTwice(ItemsOf(Operands(t)), ItemsOf(Values(inputs)), Items(value));
  }

  lemma {:induction false} TreesRegroup(limits: Limits, t: MergeTree, ts: seq<MergeTree>)
    requires forall i :: 0 <= i < |ts| ==> ts[i] < t && ValidTree(limits, ts[i])
    requires AllSealed(OperandsOf(t, ts))
    ensures AllSealed(Values(ts)) && Regrouped(ItemsOf(OperandsOf(t, ts)), ItemsOf(Values(ts)))
    decreases t, |ts|
  {
    hide Regrouped, Items, SealedPb, ValidTree;
    if ts == [] {
      RegroupedSelf([]);
    } else {
      var n := |ts| - 1;
      var front, last := OperandsOf(t, ts[..n]), Operands(ts[n]);
      AllSealedAppend(front, last);
      TreesRegroup(limits, t, ts[..n]);
      TreeRegroups(limits, ts[n]);
      TreeConserves(EventsTotal, limits, ts[n]);
      ValuesLast(ts);
      JoinRegroups(front, last, Values(ts[..n]), ts[n].value);
    }
  }

  lemma JoinRegroups(front: seq<PbCombined>, last: seq<PbCombined>, values: seq<PbCombined>, value: PbCombined)
    requires AllSealed(values) && SealedPb(value)
    requires Regrouped(ItemsOf(front), ItemsOf(values)) && Regrouped(ItemsOf(last), Items(value))
    ensures AllSealed(values + [value]) && Regrouped(ItemsOf(front + last), ItemsOf(values + [value]))
  {
    hide Regrouped, Items, SealedPb;
    assert (values + [value])[..|values|] == values;
    ItemsAppend(front, last);
    RegroupedBoth(ItemsOf(front), ItemsOf(values), ItemsOf(last), Items(value));
  }

  /** The same group, or the same span group with its name dropped. */
  predicate SameGroup(g: GroupKey, kept: GroupKey) {
    g == kept || (g.SpanGroup? && kept.SpanGroup? && kept.span == g.span.(spanName := ""))
  }

  /** In particular a kept group is the sum of operand groups with the same service key, instance key and group
      key, but for a dropped span name; nothing else ever ends up in it. */
  lemma {:induction false} KeptGroupsAreOwn(limits: Limits, t: MergeTree) returns (to: seq<int>)
    requires ValidTree(limits, t) && AllSealed(Operands(t))
    ensures Regroups(ItemsOf(Operands(t)), Items(t.value), to)
    ensures forall i :: 0 <= i < |to| ==>
              var p, q := ItemsOf(Operands(t))[i].place, Items(t.value)[to[i]].place;
              q.Kept? ==> p.Kept? && p.service == q.service && p.instance == q.instance && SameGroup(p.group, q.group)
  {
    hide ItemsOf, Items, SumTo, ValidTree, AllSealed, Operands;
    TreeRegroups(limits, t);
    to :| Regroups(ItemsOf(Operands(t)), Items(t.value), to);
  }
}
