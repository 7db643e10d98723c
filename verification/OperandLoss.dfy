/** What merging an operand and encoding the result can lose, in a merger that may hold other services:
    overflow that is stored without the service instance estimator. */
module OperandLoss {
  import opened Histograms
  import opened Models
  import opened Sums
  import opened Groups
  import opened MergerSpec
  import opened MergerCodec
  import opened MergerTotals

  /** Every overflow bucket of the operand has metrics exactly when it has an estimator. */
  ghost predicate PairedPb(pb: PbCombined) {
    && (pb.overflowServices.Some? ==> PairedOverflow(pb.overflowServices.value))
    && PairedServices(pb.services)
  }

  ghost predicate PairedState(cm: CombinedMetrics) {
    PairedOverflow(cm.overflowServices) && forall k :: k in cm.services ==> PairedOverflow(cm.services[k].overflow)
  }

  // ----- totals are kept until the encoding, estimator or not

  lemma KeptKeepsTotal(q: Quantity, limits: Limits, st: MergerState, from: PbService)
    requires PairedState(st.metrics) && (from.overflow.Some? ==> PairedOverflow(from.overflow.value))
    requires HasRoomForService(limits, st.metrics, from.key)
    ensures var r := MergeService(limits, st, from);
            Total(q, r.metrics) == Total(q, st.metrics) + PbServiceMass(q)(from) && PairedState(r.metrics)
  {
    hide MergeInstances, MergeOverflow, MapSum, PairedOverflow;
    EmptySum<InstanceKey, InstanceMetrics>(InstanceMass(q));
    EmptyOverflowPaired();
    var cm := st.metrics;
    var svc := ServiceOf(cm, from.key);
    assert PairedOverflow(svc.overflow);
    MergeOverflowConserves(q, svc.overflow, from.overflow);
    var sst := ServiceState(svc.(overflow := MergeOverflow(svc.overflow, from.overflow)), st.counters, cm.estimator);
    MergeInstancesConserves(q, limits, ServiceDigest(from.key), sst, from.instances);
    var sr := MergeInstances(limits, ServiceDigest(from.key), sst, from.instances);
    MapSumStore(cm.services, ServiceMass(q), from.key, sr.service);
  }

  lemma DivertedKeepsTotal(q: Quantity, limits: Limits, st: MergerState, from: PbService)
    requires PairedState(st.metrics) && (from.overflow.Some? ==> PairedOverflow(from.overflow.value))
    requires !HasRoomForService(limits, st.metrics, from.key)
    ensures var r := MergeService(limits, st, from);
            && Total(q, r.metrics) == Total(q, st.metrics) + PbServiceMass(q)(from) && PairedState(r.metrics)
            && r.metrics.services == st.metrics.services
            && (r.metrics.estimator.None? ==> st.metrics.estimator.None? && from.instances == [])
            && (from.instances == [] ==>
                  && r.metrics.estimator == st.metrics.estimator
                  && OverflowMass(q, r.metrics.overflowServices)
                     == OverflowMass(q, st.metrics.overflowServices) + OptionalOverflowMass(q, from.overflow))
  {
    hide DivertInstances, MergeOverflow, MapSum, PairedOverflow, OverflowMass;
    var cm := st.metrics;
    MergeOverflowConserves(q, cm.overflowServices, from.overflow);
    var ost := OverflowState(MergeOverflow(cm.overflowServices, from.overflow), cm.estimator);
    DivertInstancesConserves(q, limits, ServiceDigest(from.key), ost, from.instances);
  }

  // ----- which services are kept

  ghost function KeySet(s: seq<PbService>): set<ServiceKey> {
    set i | 0 <= i < |s| :: s[i].key
  }

  lemma KeySetLast(s: seq<PbService>)
    requires s != []
    ensures KeySet(s) == KeySet(s[..|s| - 1]) + {s[|s| - 1].key}
  {
    var init, last := s[..|s| - 1], s[|s| - 1];
    forall k | k in KeySet(s)
      ensures k in KeySet(init) + {last.key}
    {
      var i :| 0 <= i < |s| && s[i].key == k;
      if i < |s| - 1 { assert init[i].key == k; }
    }
    forall k | k in KeySet(init)
      ensures k in KeySet(s)
    {
      var i :| 0 <= i < |init| && init[i].key == k;
      assert s[i].key == k;
    }
  }

  /** The keys of a merger with room for `max` services that held `base`, after the services `s`. */
  ghost function KeptKeys(max: nat, base: set<ServiceKey>, s: seq<PbService>): set<ServiceKey> {
    if s == [] then base
    else
      var k, before := s[|s| - 1].key, KeptKeys(max, base, s[..|s| - 1]);
      if k in before || |before| < max then before + {k} else before
  }

  lemma {:induction false} KeptWithin(max: nat, base: set<ServiceKey>, s: seq<PbService>)
    ensures base <= KeptKeys(max, base, s) <= base + KeySet(s)
    ensures |KeptKeys(max, base, s)| < max ==> KeptKeys(max, base, s) == base + KeySet(s)
  {
    if s != [] {
      var before := KeptKeys(max, base, s[..|s| - 1]);
      KeptWithin(max, base, s[..|s| - 1]);
      KeySetLast(s);
      SubsetSize(before, before + {s[|s| - 1].key});
    }
  }

  lemma {:induction false} KeptAllIfRoom(max: nat, s: seq<PbService>)
    requires |KeySet(s)| <= max
    ensures KeptKeys(max, {}, s) == KeySet(s)
  {
    if s != [] {
      var init, last := s[..|s| - 1], s[|s| - 1];
      KeySetLast(s);
      SubsetSize(KeySet(init), KeySet(s));
      KeptAllIfRoom(max, init);
    }
  }

  /** A full merger keeps what it has. */
  lemma {:induction false} KeptIfFull(max: nat, base: set<ServiceKey>, s: seq<PbService>)
    requires |base| >= max
    ensures KeptKeys(max, base, s) == base
  {
    if s != [] {
      KeptIfFull(max, base, s[..|s| - 1]);
    }
  }

  // ----- what is not kept

  /** The overflow of the services whose keys are not in `kept`. */
  ghost function Outside(q: Quantity, s: seq<PbService>, kept: set<ServiceKey>): real {
    if s == [] then 0.0
    else
      var last := s[|s| - 1];
      Outside(q, s[..|s| - 1], kept) + if last.key in kept then 0.0 else OptionalOverflowMass(q, last.overflow)
  }

  /** The overflow of all services with one key. */
  ghost function KeyMass(q: Quantity, s: seq<PbService>, k: ServiceKey): real {
    if s == [] then 0.0
    else
      var last := s[|s| - 1];
      KeyMass(q, s[..|s| - 1], k) + if last.key == k then OptionalOverflowMass(q, last.overflow) else 0.0
  }

  lemma {:induction false} OutsideNothing(q: Quantity, s: seq<PbService>, kept: set<ServiceKey>)
    requires KeySet(s) <= kept
    ensures Outside(q, s, kept) == 0.0
  {
    hide OptionalOverflowMass;
    if s != [] {
      KeySetLast(s);
      OutsideNothing(q, s[..|s| - 1], kept);
    }
  }

  lemma {:induction false} OutsideOneMore(q: Quantity, s: seq<PbService>, kept: set<ServiceKey>, k: ServiceKey)
    requires k !in kept
    ensures Outside(q, s, kept) == Outside(q, s, kept + {k}) + KeyMass(q, s, k)
  {
    hide OptionalOverflowMass;
    if s != [] {
      OutsideOneMore(q, s[..|s| - 1], kept, k);
    }
  }

  lemma {:induction false} OutsideWeightless(q: Quantity, s: seq<PbService>, kept: set<ServiceKey>)
    requires forall k :: k in KeySet(s) - kept ==> KeyMass(q, s, k) == 0.0
    ensures Outside(q, s, kept) == 0.0
    decreases KeySet(s) - kept
  {
    if KeySet(s) - kept == {} {
      assert forall k :: k in KeySet(s) ==> k in kept || k in KeySet(s) - kept;
      OutsideNothing(q, s, kept);
    } else {
      var k :| k in KeySet(s) - kept;
      OutsideOneMore(q, s, kept, k);
      assert KeySet(s) - (kept + {k}) < KeySet(s) - kept by { assert k !in KeySet(s) - (kept + {k}); }
      OutsideWeightless(q, s, kept + {k});
    }
  }

  /** No service with this key has instances. */
  ghost predicate InstanceLess(s: seq<PbService>, k: ServiceKey) {
    forall i :: 0 <= i < |s| && s[i].key == k ==> s[i].instances == []
  }

  lemma InstanceLessLast(s: seq<PbService>, k: ServiceKey)
    requires s != []
    ensures InstanceLess(s, k)
            <==> InstanceLess(s[..|s| - 1], k) && (s[|s| - 1].key == k ==> s[|s| - 1].instances == [])
  {
    var init := s[..|s| - 1];
    assert forall i :: 0 <= i < |init| ==> init[i] == s[i];
    if InstanceLess(init, k) {
      assert forall i :: 0 <= i < |init| ==> s[i] == init[i];
    }
  }

  lemma {:induction false} AbsentKey(q: Quantity, s: seq<PbService>, k: ServiceKey)
    requires k !in KeySet(s)
    ensures KeyMass(q, s, k) == 0.0 && InstanceLess(s, k)
  {
    hide OptionalOverflowMass;
    forall i | 0 <= i < |s|
      ensures s[i].key != k
    {
      assert s[i].key in KeySet(s);
    }
    if s != [] {
      KeySetLast(s);
      AbsentKey(q, s[..|s| - 1], k);
    }
  }

  // ----- the merge, service by service

  /** Every service with instances found room. */
  ghost predicate InstancesKept(s: seq<PbService>, kept: set<ServiceKey>) {
    forall i :: 0 <= i < |s| && s[i].instances != [] ==> s[i].key in kept
  }

  lemma InstancesKeptLast(s: seq<PbService>, kept: set<ServiceKey>)
    requires s != []
    ensures InstancesKept(s, kept)
            <==> InstancesKept(s[..|s| - 1], kept) && (s[|s| - 1].instances != [] ==> s[|s| - 1].key in kept)
  {
    var init := s[..|s| - 1];
    if InstancesKept(s, kept) {
      assert forall i :: 0 <= i < |init| ==> init[i] == s[i];
    }
    if InstancesKept(init, kept) {
      assert forall i :: 0 <= i < |init| ==> s[i] == init[i];
    }
  }

  lemma {:induction false} EstimatorKept(limits: Limits, d: Digest, st: ServiceState, from: seq<PbInstance>)
    ensures st.estimator.Some? ==> MergeInstances(limits, d, st, from).estimator.Some?
  {
    hide MergeInstance, DivertInstance;
    if from != [] {
      EstimatorKept(limits, d, st, from[..|from| - 1]);
    }
  }

  /** What merging a service that is kept does: who is kept, and what a service without instances weighs. */
  ghost predicate KeptStep(q: Quantity, p: CombinedMetrics, from: PbService, r: CombinedMetrics) {
    && r.services.Keys == p.services.Keys + {from.key}
    && (forall k :: k in p.services && k != from.key ==> r.services[k] == p.services[k])
    && r.overflowServices == p.overflowServices
    && (r.estimator.None? ==> p.estimator.None?)
    && (r.estimator.None? && r.services[from.key].instances == map[] ==>
          && from.instances == [] && (from.key in p.services ==> p.services[from.key].instances == map[])
          && OverflowMass(q, r.services[from.key].overflow) == StoredMass(q, p, from.key) + OptionalOverflowMass(q, from.overflow))
  }

  lemma KeptService(q: Quantity, limits: Limits, st: MergerState, from: PbService)
    requires PairedState(st.metrics) && (from.overflow.Some? ==> PairedOverflow(from.overflow.value))
    requires HasRoomForService(limits, st.metrics, from.key)
    ensures KeptStep(q, st.metrics, from, MergeService(limits, st, from).metrics)
  {
    hide MergeInstances, MergeOverflow, PairedOverflow, OverflowMass, OptionalOverflowMass, KeptStep;
    EmptyOverflowPaired();
    var cm := st.metrics;
    var svc := ServiceOf(cm, from.key);
    assert PairedOverflow(svc.overflow);
    MergeOverflowConserves(q, svc.overflow, from.overflow);
    var sst := ServiceState(svc.(overflow := MergeOverflow(svc.overflow, from.overflow)), st.counters, cm.estimator);
    InstancesMerged(limits, ServiceDigest(from.key), sst, from.instances);
    var sr := MergeInstances(limits, ServiceDigest(from.key), sst, from.instances);
    KeptStepOf(q, cm, from, sr.service, sr.estimator);
  }

  lemma KeptStepOf(q: Quantity, cm: CombinedMetrics, from: PbService, service: ServiceMetrics, estimator: Option<Sketch>)
    requires estimator.None? ==> cm.estimator.None?
    requires from.instances != [] ==> service.instances != map[] || estimator.Some?
    requires from.instances == [] ==>
               && service.instances == ServiceOf(cm, from.key).instances
               && OverflowMass(q, service.overflow)
                  == OverflowMass(q, ServiceOf(cm, from.key).overflow) + OptionalOverflowMass(q, from.overflow)
    ensures KeptStep(q, cm, from, cm.(services := cm.services[from.key := service], estimator := estimator))
  {
    EmptyOverflowWeighsNothing(q);
    hide OverflowMass, OptionalOverflowMass;
  }

  lemma InstancesMerged(limits: Limits, d: Digest, st: ServiceState, from: seq<PbInstance>)
    requires PairedOverflow(st.service.overflow)
    ensures var r := MergeInstances(limits, d, st, from);
            && (r.estimator.None? ==> st.estimator.None?)
            && (from == [] ==> r == st)
            && (from != [] ==> r.service.instances != map[] || r.estimator.Some?)
  {
    EstimatorKept(limits, d, st, from);
    MergeInstancesConserves(EventsTotal, limits, d, st, from);
  }

  /** The overflow of a stored service. */
  ghost function StoredMass(q: Quantity, cm: CombinedMetrics, k: ServiceKey): real {
    if k in cm.services then OverflowMass(q, cm.services[k].overflow) else 0.0
  }

  /** A service that ends without instances had none before and got none, and weighs what was added up. */
  ghost predicate BareTracked(q: Quantity, s: seq<PbService>, st: CombinedMetrics, r: CombinedMetrics) {
    forall k :: k in r.services && r.services[k].instances == map[] ==>
      && InstanceLess(s, k) && (k in st.services ==> st.services[k].instances == map[])
      && OverflowMass(q, r.services[k].overflow) == StoredMass(q, st, k) + KeyMass(q, s, k)
  }

  /** What the state is after the services `s`. */
  ghost predicate Tracked(q: Quantity, limits: Limits, s: seq<PbService>, st: CombinedMetrics, r: CombinedMetrics) {
    var kept := KeptKeys(limits.maxServices, st.services.Keys, s);
    && PairedState(r)
    && Total(q, r) == Total(q, st) + SeqSum(s, PbServiceMass(q))
    && r.services.Keys == kept
    && (r.estimator.None? ==>
          && st.estimator.None? && InstancesKept(s, kept)
          && OverflowMass(q, r.overflowServices) == OverflowMass(q, st.overflowServices) + Outside(q, s, kept)
          && BareTracked(q, s, st, r))
  }

  lemma OutsideKept(q: Quantity, max: nat, base: set<ServiceKey>, s: seq<PbService>)
    requires s != [] && s[|s| - 1].key in KeptKeys(max, base, s)
    ensures Outside(q, s, KeptKeys(max, base, s)) == Outside(q, s[..|s| - 1], KeptKeys(max, base, s[..|s| - 1]))
    ensures KeptKeys(max, base, s[..|s| - 1]) <= KeptKeys(max, base, s)
    ensures s[|s| - 1].key !in KeptKeys(max, base, s[..|s| - 1]) ==> s[|s| - 1].key !in base + KeySet(s[..|s| - 1])
  {
    hide OptionalOverflowMass;
    var init, last := s[..|s| - 1], s[|s| - 1];
    var before, kept := KeptKeys(max, base, init), KeptKeys(max, base, s);
    if last.key in before {
      assert kept == before;
    } else {
      KeptWithin(max, base, init);
      OutsideNothing(q, init, before);
      OutsideNothing(q, init, kept);
    }
  }

  lemma BareKept(q: Quantity, st: CombinedMetrics, s: seq<PbService>, p: CombinedMetrics, r: CombinedMetrics)
    requires s != [] && BareTracked(q, s[..|s| - 1], st, p) && KeptStep(q, p, s[|s| - 1], r) && r.estimator.None?
    requires s[|s| - 1].key !in p.services ==> s[|s| - 1].key !in st.services.Keys + KeySet(s[..|s| - 1])
    ensures BareTracked(q, s, st, r)
  {
    hide OverflowMass, OptionalOverflowMass, BareTracked;
    var last := s[|s| - 1];
    forall k | k in r.services && r.services[k].instances == map[]
      ensures BareAt(q, s, st, r, k)
    {
      if k == last.key {
        BareAtLast(q, st, s, p, r);
      } else {
        BareAtOther(q, st, s, p, r, k);
      }
    }
    BareEach(q, s, st, r);
  }

  ghost predicate BareAt(q: Quantity, s: seq<PbService>, st: CombinedMetrics, r: CombinedMetrics, k: ServiceKey)
    requires k in r.services
  {
    && InstanceLess(s, k) && (k in st.services ==> st.services[k].instances == map[])
    && OverflowMass(q, r.services[k].overflow) == StoredMass(q, st, k) + KeyMass(q, s, k)
  }

  lemma BareEach(q: Quantity, s: seq<PbService>, st: CombinedMetrics, r: CombinedMetrics)
    ensures BareTracked(q, s, st, r)
            <==> forall k :: k in r.services && r.services[k].instances == map[] ==> BareAt(q, s, st, r, k)
  {
    hide OverflowMass, StoredMass, KeyMass, InstanceLess;
  }

  lemma BareAtLast(q: Quantity, st: CombinedMetrics, s: seq<PbService>, p: CombinedMetrics, r: CombinedMetrics)
    requires s != [] && BareTracked(q, s[..|s| - 1], st, p) && KeptStep(q, p, s[|s| - 1], r) && r.estimator.None?
    requires s[|s| - 1].key !in p.services ==> s[|s| - 1].key !in st.services.Keys + KeySet(s[..|s| - 1])
    requires r.services[s[|s| - 1].key].instances == map[]
    ensures BareAt(q, s, st, r, s[|s| - 1].key)
  {
    hide OverflowMass, OptionalOverflowMass;
    var init, k := s[..|s| - 1], s[|s| - 1].key;
    KeyMassLast(q, s);
    InstanceLessLast(s, k);
    if k !in p.services {
      AbsentKey(q, init, k);
    }
    hide KeyMass, InstanceLess, KeySet;
  }

  lemma BareAtOther(q: Quantity, st: CombinedMetrics, s: seq<PbService>, p: CombinedMetrics, r: CombinedMetrics, k: ServiceKey)
    requires s != [] && BareTracked(q, s[..|s| - 1], st, p) && KeptStep(q, p, s[|s| - 1], r)
    requires k in r.services && k != s[|s| - 1].key && r.services[k].instances == map[]
    ensures BareAt(q, s, st, r, k)
  {
    hide OverflowMass, OptionalOverflowMass, StoredMass;
    KeyMassLast(q, s);
    InstanceLessLast(s, k);
    hide KeyMass, InstanceLess;
    assert k in p.services && r.services[k] == p.services[k];
  }

  lemma KeyMassLast(q: Quantity, s: seq<PbService>)
    requires s != []
    ensures forall k :: KeyMass(q, s, k)
                        == KeyMass(q, s[..|s| - 1], k)
                           + if s[|s| - 1].key == k then OptionalOverflowMass(q, s[|s| - 1].overflow) else 0.0
  {
    hide OptionalOverflowMass;
  }

  lemma TrackKept(q: Quantity, limits: Limits, st: CombinedMetrics, s: seq<PbService>, p: MergerState)
    requires s != [] && Tracked(q, limits, s[..|s| - 1], st, p.metrics)
    requires s[|s| - 1].overflow.Some? ==> PairedOverflow(s[|s| - 1].overflow.value)
    requires HasRoomForService(limits, p.metrics, s[|s| - 1].key)
    ensures Tracked(q, limits, s, st, MergeService(limits, p, s[|s| - 1]).metrics)
  {
    hide MergeService, Total, OverflowMass, PairedState, OptionalOverflowMass, Outside, BareTracked;
    var last := s[|s| - 1];
    KeptKeepsTotal(q, limits, p, last);
    KeptService(q, limits, p, last);
    TrackKeptKeys(q, limits.maxServices, st, s, p.metrics, MergeService(limits, p, last).metrics);
  }

  lemma TrackKeptKeys(q: Quantity, max: nat, st: CombinedMetrics, s: seq<PbService>, p: CombinedMetrics, r: CombinedMetrics)
    requires s != [] && KeptStep(q, p, s[|s| - 1], r)
    requires p.services.Keys == KeptKeys(max, st.services.Keys, s[..|s| - 1])
    requires s[|s| - 1].key in p.services || |p.services| < max
    requires p.estimator.None? ==>
               && InstancesKept(s[..|s| - 1], p.services.Keys) && BareTracked(q, s[..|s| - 1], st, p)
               && OverflowMass(q, p.overflowServices)
                  == OverflowMass(q, st.overflowServices) + Outside(q, s[..|s| - 1], p.services.Keys)
    ensures var kept := KeptKeys(max, st.services.Keys, s);
            && r.services.Keys == kept
            && (r.estimator.None? ==>
                  && InstancesKept(s, kept) && BareTracked(q, s, st, r)
                  && OverflowMass(q, r.overflowServices) == OverflowMass(q, st.overflowServices) + Outside(q, s, kept))
  {
    var base, last := st.services.Keys, s[|s| - 1];
    assert |p.services| == |p.services.Keys|;
    assert KeptKeys(max, base, s) == p.services.Keys + {last.key};
    hide OverflowMass, OptionalOverflowMass, Outside, KeptKeys, BareTracked;
    InstancesKeptLast(s, KeptKeys(max, base, s));
    OutsideKept(q, max, base, s);
    if r.estimator.None? {
      BareKept(q, st, s, p, r);
    }
  }

  lemma BareDiverted(q: Quantity, s: seq<PbService>, st: CombinedMetrics, p: CombinedMetrics, r: CombinedMetrics)
    requires s != [] && BareTracked(q, s[..|s| - 1], st, p) && r.services == p.services && s[|s| - 1].key !in p.services
    ensures BareTracked(q, s, st, r)
  {
    hide OverflowMass, OptionalOverflowMass;
    forall k | k in r.services && r.services[k].instances == map[]
      ensures InstanceLess(s, k) && KeyMass(q, s, k) == KeyMass(q, s[..|s| - 1], k)
    {
      InstanceLessLast(s, k);
    }
  }

  lemma TrackDiverted(q: Quantity, limits: Limits, st: CombinedMetrics, s: seq<PbService>, p: MergerState)
    requires s != [] && Tracked(q, limits, s[..|s| - 1], st, p.metrics)
    requires s[|s| - 1].overflow.Some? ==> PairedOverflow(s[|s| - 1].overflow.value)
    requires !HasRoomForService(limits, p.metrics, s[|s| - 1].key)
    ensures Tracked(q, limits, s, st, MergeService(limits, p, s[|s| - 1]).metrics)
  {
    hide MergeService, Total, OverflowMass, PairedState, OptionalOverflowMass, BareTracked, Outside;
    var last := s[|s| - 1];
    DivertedKeepsTotal(q, limits, p, last);
    TrackDivertedKeys(q, limits.maxServices, st, s, p.metrics, MergeService(limits, p, last).metrics);
  }

  lemma TrackDivertedKeys(q: Quantity, max: nat, st: CombinedMetrics, s: seq<PbService>, p: CombinedMetrics, r: CombinedMetrics)
    requires s != [] && r.services == p.services && p.services.Keys == KeptKeys(max, st.services.Keys, s[..|s| - 1])
    requires s[|s| - 1].key !in p.services && |p.services| >= max
    requires r.estimator.None? ==>
               && s[|s| - 1].instances == []
               && InstancesKept(s[..|s| - 1], p.services.Keys) && BareTracked(q, s[..|s| - 1], st, p)
               && OverflowMass(q, r.overflowServices)
                  == OverflowMass(q, st.overflowServices) + Outside(q, s[..|s| - 1], p.services.Keys)
                     + OptionalOverflowMass(q, s[|s| - 1].overflow)
    ensures var kept := KeptKeys(max, st.services.Keys, s);
            && r.services.Keys == kept
            && (r.estimator.None? ==>
                  && InstancesKept(s, kept) && BareTracked(q, s, st, r)
                  && OverflowMass(q, r.overflowServices) == OverflowMass(q, st.overflowServices) + Outside(q, s, kept))
  {
    hide OverflowMass, OptionalOverflowMass, BareTracked;
    assert |p.services| == |p.services.Keys|;
    assert KeptKeys(max, st.services.Keys, s) == p.services.Keys;
    InstancesKeptLast(s, p.services.Keys);
    if r.estimator.None? {
      BareDiverted(q, s, st, p, r);
    }
  }

  lemma TrackNothing(q: Quantity, limits: Limits, st: CombinedMetrics)
    requires PairedState(st)
    ensures Tracked(q, limits, [], st, st)
  {
    hide OverflowMass, Total;
  }

  lemma {:induction false} ServicesTracked(q: Quantity, limits: Limits, st: MergerState, s: seq<PbService>)
    requires PairedServices(s) && PairedState(st.metrics)
    ensures Tracked(q, limits, s, st.metrics, MergeServices(limits, st, s).metrics)
  {
    hide MergeService, Tracked, PairedState;
    if s == [] {
      TrackNothing(q, limits, st.metrics);
    } else {
      var init, last := s[..|s| - 1], s[|s| - 1];
      assert PairedServices(init) by { assert forall i :: 0 <= i < |init| ==> init[i] == s[i]; }
      ServicesTracked(q, limits, st, init);
      var p := MergeServices(limits, st, init);
      if HasRoomForService(limits, p.metrics, last.key) {
        TrackKept(q, limits, st.metrics, s, p);
      } else {
        TrackDiverted(q, limits, st.metrics, s, p);
      }
    }
  }

  // ----- the exact loss

  /** The exact loss: an encoding drops the overflow services bucket when there is no service instance
      estimator, and nothing else. */
  lemma {:induction false} EncodingLoss(q: Quantity, cm: CombinedMetrics, out: PbCombined)
    requires EncodesCombined(cm, out)
    requires PairedOverflow(cm.overflowServices) && forall k :: k in cm.services ==> PairedOverflow(cm.services[k].overflow)
    ensures PbTotal(q)(out)
            == Total(q, cm) - if cm.estimator.None? then OverflowMass(q, cm.overflowServices) else 0.0
  {
    EncodesServicesConserves(q, cm.services, out.services);
  }

  /** The header of an operand: all totals but those of an overflow services bucket without estimator. */
  lemma HeaderTotal(q: Quantity, cm: CombinedMetrics, pb: PbCombined)
    requires PairedState(cm) && PairedPb(pb)
    ensures var h := MergeHeader(cm, pb);
            && PairedState(h) && h.services == cm.services
            && (h.estimator.None? <==> cm.estimator.None? && pb.estimator.None?)
            && (h.estimator.None? ==> h.overflowServices == cm.overflowServices)
            && Total(q, h) + SeqSum(pb.services, PbServiceMass(q))
               == Total(q, cm) + PbTotal(q)(pb) - if pb.estimator.None? then OptionalOverflowMass(q, pb.overflowServices) else 0.0
  {
    hide SeqSum, MergeOverflow, MapSum;
    MergeOverflowConserves(q, cm.overflowServices, pb.overflowServices);
  }

  /** What every encoding lacks after an operand was merged into a state. */
  ghost function Lost(q: Quantity, limits: Limits, st: MergerState, pb: PbCombined): real {
    (if pb.estimator.None? then OptionalOverflowMass(q, pb.overflowServices) else 0.0)
    + if MergeMessage(limits, st, pb).metrics.estimator.Some? then 0.0
      else
        OverflowMass(q, st.metrics.overflowServices)
        + Outside(q, pb.services, KeptKeys(limits.maxServices, st.metrics.services.Keys, pb.services))
  }

  /** For every state and operand with paired overflow and all limits, exactly the lost part is missing from
      every encoding: the overflow services of an operand without estimator, and, while there is no
      estimator, the overflow of all services that found no room. */
  lemma {:induction false} ExactLoss(q: Quantity, limits: Limits, st: MergerState, pb: PbCombined, out: PbCombined)
    requires PairedState(st.metrics) && PairedPb(pb) && EncodesCombined(MergeMessage(limits, st, pb).metrics, out)
    ensures PbTotal(q)(out) == Total(q, st.metrics) + PbTotal(q)(pb) - Lost(q, limits, st, pb)
  {
    hide PbTotal, Total, OverflowMass, OptionalOverflowMass, PairedOverflow, MergeServices, EncodesCombined, MergeHeader, SeqSum,
         Outside, KeptKeys, BareTracked;
    var h := st.(metrics := MergeHeader(st.metrics, pb));
    HeaderTotal(q, st.metrics, pb);
    ServicesTracked(q, limits, h, pb.services);
    EncodingLoss(q, MergeMessage(limits, st, pb).metrics, out);
  }

  // ----- limits under which no estimator is made

  ghost function InstanceTotal(s: seq<PbService>): nat {
    if s == [] then 0 else InstanceTotal(s[..|s| - 1]) + |s[|s| - 1].instances|
  }

  lemma {:induction false} InstancesFindRoom(limits: Limits, d: Digest, st: ServiceState, from: seq<PbInstance>)
    requires |st.service.instances| + |from| <= limits.maxInstancesPerService
    ensures var r := MergeInstances(limits, d, st, from);
            r.estimator == st.estimator && |r.service.instances| <= |st.service.instances| + |from|
  {
    hide MergeInstance, DivertInstance;
    if from != [] {
      var n := |from| - 1;
      InstancesFindRoom(limits, d, st, from[..n]);
      var p := MergeInstances(limits, d, st, from[..n]);
      var r := MergeServiceInstance(limits, d, p, from[n]);
      assert r.service.instances.Keys == p.service.instances.Keys + {from[n].key};
      assert |r.service.instances| == |r.service.instances.Keys|;
    }
  }

  /** No estimator, and no service with more than `n` instances. */
  ghost predicate Unestimated(cm: CombinedMetrics, n: nat) {
    cm.estimator.None? && forall k :: k in cm.services ==> |cm.services[k].instances| <= n
  }

  lemma ServiceUnestimated(limits: Limits, st: MergerState, from: PbService, n: nat)
    requires Unestimated(st.metrics, n) && n + |from.instances| <= limits.maxInstancesPerService
    requires HasRoomForService(limits, st.metrics, from.key) || from.instances == []
    ensures Unestimated(MergeService(limits, st, from).metrics, n + |from.instances|)
  {
    hide MergeInstances, MergeOverflow;
    if HasRoomForService(limits, st.metrics, from.key) {
      var svc := ServiceOf(st.metrics, from.key);
      var sst := ServiceState(svc.(overflow := MergeOverflow(svc.overflow, from.overflow)), st.counters, st.metrics.estimator);
      InstancesFindRoom(limits, ServiceDigest(from.key), sst, from.instances);
    }
  }

  lemma KeptEarlier(max: nat, base: set<ServiceKey>, s: seq<PbService>)
    requires s != [] && InstancesKept(s, KeptKeys(max, base, s))
    ensures InstancesKept(s[..|s| - 1], KeptKeys(max, base, s[..|s| - 1]))
  {
    var init := s[..|s| - 1];
    KeptWithin(max, base, init);
    forall i | 0 <= i < |init| && init[i].instances != []
      ensures init[i].key in KeptKeys(max, base, init)
    {
      assert init[i] == s[i] && init[i].key in KeySet(init);
    }
  }

  lemma {:induction false} ServicesUnestimated(limits: Limits, st: MergerState, s: seq<PbService>, n: nat)
    requires PairedServices(s) && PairedState(st.metrics) && Unestimated(st.metrics, n)
    requires InstancesKept(s, KeptKeys(limits.maxServices, st.metrics.services.Keys, s))
    requires n + InstanceTotal(s) <= limits.maxInstancesPerService
    ensures Unestimated(MergeServices(limits, st, s).metrics, n + InstanceTotal(s))
  {
    hide MergeService, Total, OverflowMass, PairedState, BareTracked;
    if s != [] {
      var init, last := s[..|s| - 1], s[|s| - 1];
      assert PairedServices(init) by { assert forall i :: 0 <= i < |init| ==> init[i] == s[i]; }
      KeptEarlier(limits.maxServices, st.metrics.services.Keys, s);
      ServicesUnestimated(limits, st, init, n);
      ServicesTracked(EventsTotal, limits, st, init);
      var p := MergeServices(limits, st, init);
      assert |p.metrics.services| == |p.metrics.services.Keys|;
      assert last.instances != [] ==> HasRoomForService(limits, p.metrics, last.key);
      ServiceUnestimated(limits, p, last, n + InstanceTotal(init));
    }
  }

  // ----- every state has an encoding

  lemma {:induction false} MapListed<K(!new), V>(m: map<K, V>) returns (keys: seq<K>)
    ensures Lists(m, keys)
    decreases |m|
  {
    if m == map[] {
      keys := [];
    } else {
      var k :| k in m;
      assert (m - {k}).Keys == m.Keys - {k};
      var rest := MapListed(m - {k});
      assert m - (m.Keys - (m.Keys - {k})) == m - {k};
      keys := rest + [k];
    }
  }

  lemma GroupsEncoded<K(!new), M>(g: GroupMap<K, M>) returns (out: seq<Keyed<K, M>>)
    ensures EncodesGroups(g, out)
  {
    var keys := MapListed(g);
    assert forall i :: 0 <= i < |keys| ==> keys[i] in keys;
    out := ValuesOf(g, keys);
    assert ListedAs(g, keys, out);
  }

  lemma {:induction false} InstancesEncoded(m: map<InstanceKey, InstanceMetrics>, keys: seq<InstanceKey>) returns (out: seq<PbInstance>)
    requires forall k :: k in keys ==> k in m
    ensures InstanceKeys(out) == keys
    ensures forall i :: 0 <= i < |out| ==> out[i].key in m && EncodesInstance(m[out[i].key], out[i])
  {
    hide EncodesGroups;
    out := [];
    if keys != [] {
      var n := |keys| - 1;
      assert forall k :: k in keys[..n] ==> k in keys;
      var rest := InstancesEncoded(m, keys[..n]);
      var k := keys[n];
      assert k in keys;
      var t := GroupsEncoded(m[k].transactions);
      var s := GroupsEncoded(m[k].serviceTransactions);
      var p := GroupsEncoded(m[k].spans);
      out := rest + [PbInstance(k, t, s, p)];
      assert keys == keys[..n] + [k];
    }
  }

  lemma {:induction false} ServicesEncoded(m: map<ServiceKey, ServiceMetrics>, keys: seq<ServiceKey>) returns (out: seq<PbService>)
    requires forall k :: k in keys ==> k in m
    ensures ServiceKeys(out) == keys
    ensures forall i :: 0 <= i < |out| ==> out[i].key in m && EncodesService(m[out[i].key], out[i])
  {
    hide EncodesInstance, EncodeOverflow;
    out := [];
    if keys != [] {
      var n := |keys| - 1;
      assert forall k :: k in keys[..n] ==> k in keys;
      var rest := ServicesEncoded(m, keys[..n]);
      var k := keys[n];
      assert k in keys;
      var inner := MapListed(m[k].instances);
      var instances := InstancesEncoded(m[k].instances, inner);
      out := rest + [PbService(k, instances, Some(EncodeOverflow(m[k].overflow)))];
      assert keys == keys[..n] + [k];
    }
  }

  lemma EncodingExists(cm: CombinedMetrics) returns (out: PbCombined)
    ensures EncodesCombined(cm, out)
  {
    hide EncodesService, EncodeOverflow;
    var keys := MapListed(cm.services);
    var services := ServicesEncoded(cm.services, keys);
    out := PbCombined(services, if cm.estimator.Some? then Some(EncodeOverflow(cm.overflowServices)) else None,
                      cm.estimator, cm.eventsTotal, cm.youngest);
  }
}
