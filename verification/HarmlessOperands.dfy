/** Which operands can lose totals in some merge: exactly those that store weight without the service
    instance estimator, under the overflow services or under a key without instances. */
module HarmlessOperands {
  import opened Histograms
  import opened Models
  import opened Sums
  import opened MergerSpec
  import opened MergerCodec
  import opened MergerTotals
  import opened OperandLoss

  /** What is stored without the estimator weighs nothing: the overflow services, and the overflow of every
      key none of whose services has instances. */
  ghost predicate Harmless(pb: PbCombined) {
    pb.estimator.None? ==> forall q: Quantity :: HarmlessFor(q, pb)
  }

  ghost predicate HarmlessFor(q: Quantity, pb: PbCombined) {
    && OptionalOverflowMass(q, pb.overflowServices) == 0.0
    && forall k: ServiceKey :: InstanceLess(pb.services, k) ==> KeyMass(q, pb.services, k) == 0.0
  }

  /** The same of a merge state. */
  ghost predicate HarmlessState(cm: CombinedMetrics) {
    cm.estimator.None? ==> forall q: Quantity :: HarmlessStateFor(q, cm)
  }

  ghost predicate HarmlessStateFor(q: Quantity, cm: CombinedMetrics) {
    && OverflowMass(q, cm.overflowServices) == 0.0
    && forall k :: k in cm.services && cm.services[k].instances == map[] ==> OverflowMass(q, cm.services[k].overflow) == 0.0
  }

  // ----- merging harmless operands

  lemma OutsideIsInstanceLess(s: seq<PbService>, kept: set<ServiceKey>, k: ServiceKey)
    requires InstancesKept(s, kept) && k !in kept
    ensures InstanceLess(s, k)
  {
  }

  /** No weight ends up outside the kept services while there is no estimator. */
  lemma OutsideHarmless(q: Quantity, pb: PbCombined, kept: set<ServiceKey>)
    requires HarmlessFor(q, pb) && InstancesKept(pb.services, kept)
    ensures Outside(q, pb.services, kept) == 0.0
  {
    hide OptionalOverflowMass, KeyMass, InstanceLess, InstancesKept, Outside, KeySet;
    forall k | k in KeySet(pb.services) - kept
      ensures KeyMass(q, pb.services, k) == 0.0
    {
      OutsideIsInstanceLess(pb.services, kept, k);
    }
    OutsideWeightless(q, pb.services, kept);
  }

  lemma BareHarmless(q: Quantity, pb: PbCombined, st: CombinedMetrics, r: CombinedMetrics)
    requires HarmlessFor(q, pb) && HarmlessStateFor(q, st) && BareTracked(q, pb.services, st, r)
    requires OverflowMass(q, r.overflowServices) == 0.0
    ensures HarmlessStateFor(q, r)
  {
    hide OverflowMass, OptionalOverflowMass, KeyMass, InstanceLess;
  }

  /** A harmless operand adds all its totals to a harmless state, which stays harmless. */
  lemma MergeHarmless(q: Quantity, limits: Limits, st: MergerState, pb: PbCombined)
    requires PairedState(st.metrics) && HarmlessState(st.metrics) && PairedPb(pb) && Harmless(pb)
    ensures var r := MergeMessage(limits, st, pb).metrics;
            && PairedState(r) && Total(q, r) == Total(q, st.metrics) + PbTotal(q)(pb)
            && (r.estimator.None? ==> HarmlessStateFor(q, r))
  {
    hide PbTotal, Total, OverflowMass, OptionalOverflowMass, PairedOverflow, MergeServices, MergeHeader, SeqSum, Outside, KeptKeys,
         BareTracked, InstancesKept, HarmlessStateFor;
    var h := st.(metrics := MergeHeader(st.metrics, pb));
    assert pb.estimator.None? ==> HarmlessFor(q, pb);
    HeaderTotal(q, st.metrics, pb);
    ServicesTracked(q, limits, h, pb.services);
    var r := MergeMessage(limits, st, pb).metrics;
    if r.estimator.None? {
      OutsideHarmless(q, pb, KeptKeys(limits.maxServices, h.metrics.services.Keys, pb.services));
      HeaderHarmless(q, st.metrics, h.metrics);
      BareHarmless(q, pb, h.metrics, r);
    }
  }

  lemma HeaderHarmless(q: Quantity, cm: CombinedMetrics, h: CombinedMetrics)
    requires HarmlessStateFor(q, cm) && h.services == cm.services && h.overflowServices == cm.overflowServices
    ensures HarmlessStateFor(q, h) && OverflowMass(q, h.overflowServices) == 0.0
  {
    hide OverflowMass;
  }

  lemma MergeStaysHarmless(limits: Limits, st: MergerState, pb: PbCombined)
    requires PairedState(st.metrics) && HarmlessState(st.metrics) && PairedPb(pb) && Harmless(pb)
    ensures HarmlessState(MergeMessage(limits, st, pb).metrics)
  {
    hide MergeMessage, PairedState, PairedPb, Harmless, HarmlessStateFor;
    forall q: Quantity | MergeMessage(limits, st, pb).metrics.estimator.None?
      ensures HarmlessStateFor(q, MergeMessage(limits, st, pb).metrics)
    {
      MergeHarmless(q, limits, st, pb);
    }
  }

  // ----- encoding harmless states

  lemma {:induction false} KeyOnce(q: Quantity, s: seq<PbService>, i: nat)
    requires i < |s| && forall a, b :: 0 <= a < b < |s| ==> s[a].key != s[b].key
    ensures KeyMass(q, s, s[i].key) == OptionalOverflowMass(q, s[i].overflow)
  {
    hide OptionalOverflowMass;
    var n := |s| - 1;
    if i < n {
      KeyOnce(q, s[..n], i);
    } else {
      forall j | 0 <= j < n
        ensures s[..n][j].key != s[n].key
      {
      }
      AbsentKey(q, s[..n], s[n].key);
    }
  }

  lemma EncodedServiceBare(m: map<ServiceKey, ServiceMetrics>, out: seq<PbService>, i: nat)
    requires EncodesServices(m, out) && i < |out|
    ensures out[i].key in m && out[i].overflow == Some(EncodeOverflow(m[out[i].key].overflow))
    ensures out[i].instances == [] ==> m[out[i].key].instances == map[]
  {
    assert EncodesService(m[out[i].key], out[i]);
    if out[i].instances == [] {
      assert InstanceKeys(out[i].instances) == [];
      assert forall k :: k !in m[out[i].key].instances;
    }
  }

  lemma EncodedKeysOnce(m: map<ServiceKey, ServiceMetrics>, out: seq<PbService>)
    requires EncodesServices(m, out)
    ensures forall a, b :: 0 <= a < b < |out| ==> out[a].key != out[b].key
  {
    forall a, b | 0 <= a < b < |out|
      ensures out[a].key != out[b].key
    {
      assert ServiceKeys(out)[a] != ServiceKeys(out)[b];
    }
  }

  lemma EncodedHarmlessFor(q: Quantity, cm: CombinedMetrics, out: PbCombined)
    requires PairedState(cm) && EncodesCombined(cm, out) && cm.estimator.None? && HarmlessStateFor(q, cm)
    ensures HarmlessFor(q, out)
  {
    EncodedKeysOnce(cm.services, out.services);
    hide OverflowMass, EncodesServices, PairedOverflow, EncodeOverflow;
    var s := out.services;
    forall k: ServiceKey | InstanceLess(s, k)
      ensures KeyMass(q, s, k) == 0.0
    {
      if k in KeySet(s) {
        var i :| 0 <= i < |s| && s[i].key == k;
        KeyOnce(q, s, i);
        EncodedServiceBare(cm.services, s, i);
        PairedEncodesItself(cm.services[k].overflow);
      } else {
        AbsentKey(q, s, k);
      }
    }
  }

  lemma EncodedPaired(cm: CombinedMetrics, out: PbCombined)
    requires PairedState(cm) && EncodesCombined(cm, out)
    ensures PairedPb(out)
  {
    hide EncodesServices, PairedOverflow, EncodeOverflow;
    PairedEncodesItself(cm.overflowServices);
    forall i | 0 <= i < |out.services|
      ensures out.services[i].overflow.Some? ==> PairedOverflow(out.services[i].overflow.value)
    {
      EncodedServiceBare(cm.services, out.services, i);
      PairedEncodesItself(cm.services[out.services[i].key].overflow);
    }
  }

  /** Every encoding of a harmless state carries all totals and is harmless again. */
  lemma EncodingHarmless(q: Quantity, cm: CombinedMetrics, out: PbCombined)
    requires PairedState(cm) && HarmlessState(cm) && EncodesCombined(cm, out)
    ensures PbTotal(q)(out) == Total(q, cm) && PairedPb(out) && Harmless(out)
  {
    hide PbTotal, Total, EncodesServices, OverflowMass, HarmlessFor;
    EncodedPaired(cm, out);
    EncodingLoss(q, cm, out);
    if cm.estimator.None? {
      assert HarmlessStateFor(q, cm);
      forall p: Quantity
        ensures HarmlessFor(p, out)
      {
        EncodedHarmlessFor(p, cm, out);
      }
    }
  }

  // ----- merge trees of harmless operands

  ghost predicate AllHarmless(s: seq<PbCombined>) {
    forall i :: 0 <= i < |s| ==> PairedPb(s[i]) && Harmless(s[i])
  }

  lemma AllHarmlessParts(a: seq<PbCombined>, b: seq<PbCombined>)
    ensures AllHarmless(a + b) <==> AllHarmless(a) && AllHarmless(b)
  {
    hide PairedPb, Harmless;
    var s := a + b;
    assert forall i :: 0 <= i < |a| ==> s[i] == a[i];
    assert forall i :: 0 <= i < |b| ==> s[|a| + i] == b[i];
  }

  lemma EmptyHarmless(q: Quantity)
    ensures PairedState(EmptyCombined) && HarmlessState(EmptyCombined) && Total(q, EmptyCombined) == 0.0
  {
    EmptyOverflowPaired();
    EmptyIsSealed(q);
    forall p: Quantity
      ensures HarmlessStateFor(p, EmptyCombined)
    {
      EmptyOverflowWeighsNothing(p);
    }
  }

  lemma {:induction false} MergeAllHarmless(q: Quantity, limits: Limits, from: seq<PbCombined>)
    requires AllHarmless(from)
    ensures var r := MergeAll(limits, from).metrics;
            PairedState(r) && HarmlessState(r) && Total(q, r) == SeqSum(from, PbTotal(q))
  {
    hide PairedPb, Harmless, PairedState, HarmlessState, Total, PbTotal, MergeMessage;
    if from == [] {
      EmptyHarmless(q);
    } else {
      var n := |from| - 1;
      MergeAllHarmless(q, limits, from[..n]);
      MergeHarmless(q, limits, MergeAll(limits, from[..n]), from[n]);
      MergeStaysHarmless(limits, MergeAll(limits, from[..n]), from[n]);
    }
  }

  /** For every merge tree over harmless operands, every total of the root is the sum over the operands, and
      the root is harmless. */
  lemma {:induction false} HarmlessTree(q: Quantity, limits: Limits, t: MergeTree)
    requires ValidTree(limits, t) && AllHarmless(Operands(t))
    ensures PairedPb(t.value) && Harmless(t.value)
    ensures PbTotal(q)(t.value) == SeqSum(Operands(t), PbTotal(q))
    decreases t
  {
    hide PairedPb, Harmless, PbTotal, PairedState, HarmlessState, Total, EncodesCombined, MergeAll;
    match t
    case Operand(v) =>
      assert Operands(t)[0] == v && Operands(t)[..0] == [];
    case Merged(inputs, value) =>
      HarmlessTrees(q, limits, t, inputs);
      MergeAllHarmless(q, limits, Values(inputs));
      EncodingHarmless(q, MergeAll(limits, Values(inputs)).metrics, value);
  }

  lemma {:induction false} HarmlessTrees(q: Quantity, limits: Limits, t: MergeTree, ts: seq<MergeTree>)
    requires forall i :: 0 <= i < |ts| ==> ts[i] < t && ValidTree(limits, ts[i])
    requires AllHarmless(OperandsOf(t, ts))
    ensures AllHarmless(Values(ts))
    ensures SeqSum(Values(ts), PbTotal(q)) == SeqSum(OperandsOf(t, ts), PbTotal(q))
    decreases t, |ts|
  {
    hide PairedPb, Harmless, PbTotal, ValidTree;
    if ts != [] {
      var n := |ts| - 1;
      var front, last := OperandsOf(t, ts[..n]), Operands(ts[n]);
      AllHarmlessParts(front, last);
      HarmlessTrees(q, limits, t, ts[..n]);
      HarmlessTree(q, limits, ts[n]);
      ValuesLast(ts);
      JoinHarmless(q, Values(ts[..n]), ts[n].value, front, last);
    }
  }

  lemma JoinHarmless(q: Quantity, values: seq<PbCombined>, value: PbCombined, front: seq<PbCombined>, last: seq<PbCombined>)
    requires AllHarmless(values) && PairedPb(value) && Harmless(value)
    requires SeqSum(values, PbTotal(q)) == SeqSum(front, PbTotal(q)) && PbTotal(q)(value) == SeqSum(last, PbTotal(q))
    ensures AllHarmless(values + [value])
    ensures SeqSum(values + [value], PbTotal(q)) == SeqSum(front + last, PbTotal(q))
  {
    hide PairedPb, Harmless, PbTotal;
    assert (values + [value])[..|values|] == values;
    AllHarmlessParts(values, [value]);
    SeqSumAppend(front, last, PbTotal(q));
  }

  // ----- sealed operands are harmless

  lemma {:induction false} KeyWeighsNothing(q: Quantity, s: seq<PbService>, k: ServiceKey)
    requires forall i :: 0 <= i < |s| && s[i].key == k ==> OptionalOverflowMass(q, s[i].overflow) == 0.0
    ensures KeyMass(q, s, k) == 0.0
  {
    hide OptionalOverflowMass;
    if s != [] {
      var init := s[..|s| - 1];
      assert forall i :: 0 <= i < |init| ==> init[i] == s[i];
      KeyWeighsNothing(q, init, k);
    }
  }

  /** Sealed operands, such as those of events, are harmless. */
  lemma {:induction false} SealedIsHarmless(pb: PbCombined)
    requires SealedPb(pb)
    ensures PairedPb(pb) && Harmless(pb)
  {
    forall q: Quantity | pb.estimator.None?
      ensures HarmlessFor(q, pb)
    {
      EmptyOverflowWeighsNothing(q);
      var s := pb.services;
      forall k: ServiceKey | InstanceLess(s, k)
        ensures KeyMass(q, s, k) == 0.0
      {
        forall i | 0 <= i < |s| && s[i].key == k
          ensures OptionalOverflowMass(q, s[i].overflow) == 0.0
        {
          assert SealedPbService(s[i], pb.estimator);
        }
        hide OverflowMass, OptionalOverflowMass, SealedPb;
        KeyWeighsNothing(q, s, k);
      }
    }
  }

  // ----- an operand that is not harmless loses totals in some merge

  /** In every merge tree whose other operands are sealed, every total of the root is the sum over the
      operands. */
  ghost predicate Preserved(pb: PbCombined) {
    forall limits: Limits, t: MergeTree, q: Quantity ::
      ValidTree(limits, t) && (forall x :: x in Operands(t) ==> x == pb || SealedPb(x)) ==>
        PbTotal(q)(t.value) == SeqSum(Operands(t), PbTotal(q))
  }

  lemma HarmlessIsPreserved(pb: PbCombined)
    requires PairedPb(pb) && Harmless(pb)
    ensures Preserved(pb)
  {
    hide PairedPb, Harmless, PbTotal, ValidTree, SealedPb, SeqSum;
    forall limits: Limits, t: MergeTree, q: Quantity |
      ValidTree(limits, t) && (forall x :: x in Operands(t) ==> x == pb || SealedPb(x))
      ensures PbTotal(q)(t.value) == SeqSum(Operands(t), PbTotal(q))
    {
      var s := Operands(t);
      hide Operands;
      forall i | 0 <= i < |s|
        ensures PairedPb(s[i]) && Harmless(s[i])
      {
        assert s[i] in s;
        if s[i] != pb {
          SealedIsHarmless(s[i]);
        }
      }
      HarmlessTree(q, limits, t);
    }
  }

  function LimitsFor(maxServices: nat, maxInstances: nat): Limits {
    Limits(maxServices, maxInstances, 0, 0, 0, 0, 0, 0)
  }

  /** The tree that merges the operands in turn and encodes the result. */
  lemma InTurn(limits: Limits, s: seq<PbCombined>) returns (t: MergeTree)
    requires s != []
    ensures ValidTree(limits, t) && Operands(t) == s && EncodesCombined(MergeAll(limits, s).metrics, t.value)
  {
    hide EncodesCombined, MergeAll;
    var out := EncodingExists(MergeAll(limits, s).metrics);
    var leaves := seq(|s|, i requires 0 <= i < |s| => Operand(s[i]));
    t := Merged(leaves, out);
    assert Values(leaves) == s;
    LeavesOperands(t, leaves);
  }

  lemma {:induction false} LeavesOperands(t: MergeTree, ts: seq<MergeTree>)
    requires forall i :: 0 <= i < |ts| ==> ts[i] < t && ts[i].Operand?
    ensures OperandsOf(t, ts) == Values(ts)
    decreases |ts|
  {
    if ts != [] {
      LeavesOperands(t, ts[..|ts| - 1]);
      ValuesLast(ts);
    }
  }

  lemma LossIsSeen(q: Quantity, limits: Limits, before: seq<PbCombined>, pb: PbCombined)
    requires PairedPb(pb) && (forall x :: x in before ==> SealedPb(x))
    requires Lost(q, limits, MergeAll(limits, before), pb) != 0.0
    ensures !Preserved(pb)
  {
    hide Lost, PbTotal, EncodesCombined, PairedPb, SealedPb, Harmless, MergeMessage, SeqSum, ValidTree, Operands, PairedState, Total;
    var s := before + [pb];
    assert s[..|s| - 1] == before;
    var t := InTurn(limits, s);
    forall i | 0 <= i < |before|
      ensures PairedPb(before[i]) && Harmless(before[i])
    {
      assert before[i] in before;
      SealedIsHarmless(before[i]);
    }
    MergeAllHarmless(q, limits, before);
    ExactLoss(q, limits, MergeAll(limits, before), pb, t.value);
    SeqSumSnoc(before, pb, PbTotal(q));
    assert forall x :: x in s ==> x == pb || SealedPb(x);
  }

  /** With room for all services the overflow services bucket is lost. */
  lemma HeaderLost(q: Quantity, pb: PbCombined)
    requires PairedPb(pb) && pb.estimator.None? && OptionalOverflowMass(q, pb.overflowServices) != 0.0
    ensures Lost(q, LimitsFor(|KeySet(pb.services)|, 0), EmptyMerger, pb) != 0.0
  {
    var s := pb.services;
    KeptAllIfRoom(|KeySet(s)|, s);
    OutsideNothing(q, s, KeySet(s));
    EmptyOverflowWeighsNothing(q);
    hide OptionalOverflowMass, OverflowMass, MergeMessage, KeptKeys, Outside, KeySet;
    assert EmptyMerger.metrics.services.Keys == {};
  }

  // A merger filled with other services

  function OneInstance(k: ServiceKey): PbService {
    PbService(k, [PbInstance(InstanceKey(""), [], [], [])], None)
  }

  /** An operand with one instance for each key. */
  function Filler(keys: seq<ServiceKey>): PbCombined {
    PbCombined(seq(|keys|, i requires 0 <= i < |keys| => OneInstance(keys[i])), None, None, 1.0, 0)
  }

  lemma FillerKeys(keys: seq<ServiceKey>)
    ensures SealedPb(Filler(keys)) && PairedPb(Filler(keys))
    ensures forall k :: k in KeySet(Filler(keys).services) <==> k in keys
  {
    var s := Filler(keys).services;
    forall k | k in keys
      ensures k in KeySet(s)
    {
      var i :| 0 <= i < |keys| && keys[i] == k;
      assert s[i].key == k;
    }
  }

  lemma {:induction false} FillerInstances(s: seq<PbService>)
    requires forall i :: 0 <= i < |s| ==> |s[i].instances| == 1
    ensures InstanceTotal(s) == |s|
  {
    if s != [] {
      FillerInstances(s[..|s| - 1]);
    }
  }

  lemma FillerFits(q: Quantity, max: nat, keys: seq<ServiceKey>, others: set<ServiceKey>)
    requires (forall k :: k in keys <==> k in others) && |others| == max
    ensures var s := Filler(keys).services;
            && KeptKeys(max, {}, s) == others && InstancesKept(s, others) && Outside(q, s, others) == 0.0
            && InstanceTotal(s) == |keys|
  {
    var s := Filler(keys).services;
    FillerKeys(keys);
    FillerInstances(s);
    assert KeySet(s) == others;
    KeptAllIfRoom(max, s);
    assert InstancesKept(s, KeySet(s));
    OutsideNothing(q, s, others);
  }

  /** The state in which the services of a first operand without overflow are merged. */
  lemma FirstHeader(q: Quantity, pb: PbCombined)
    requires PairedPb(pb) && pb.estimator.None?
    ensures var h := MergeHeader(EmptyCombined, pb);
            && PairedState(h) && Unestimated(h, 0) && h.services.Keys == {} && OverflowMass(q, h.overflowServices) == 0.0
  {
    EmptyHarmless(q);
    EmptyOverflowWeighsNothing(q);
    HeaderTotal(q, EmptyCombined, pb);
    hide MergeHeader, OverflowMass, PairedState, Total;
  }

  /** After the filler the merger holds exactly its keys, is full, and has no estimator. */
  lemma FilledUp(q: Quantity, limits: Limits, keys: seq<ServiceKey>, others: set<ServiceKey>)
    requires (forall k :: k in keys <==> k in others) && |keys| == |others| == limits.maxServices
    requires |keys| <= limits.maxInstancesPerService
    ensures var st := MergeAll(limits, [Filler(keys)]).metrics;
            && PairedState(st) && Unestimated(st, |keys|) && st.services.Keys == others
            && OverflowMass(q, st.overflowServices) == 0.0
  {
    hide MergeServices, MergeHeader, MergeAll, OverflowMass, PairedState, KeptKeys, Outside, InstancesKept, KeySet, BareTracked,
         Total, Unestimated, SealedPb, InstanceTotal;
    var pb := Filler(keys);
    FillerKeys(keys);
    FillerFits(q, limits.maxServices, keys, others);
    FirstHeader(q, pb);
    MergedAlone(limits, pb);
    var h := EmptyMerger.(metrics := MergeHeader(EmptyCombined, pb));
    ServicesUnestimated(limits, h, pb.services, 0);
    ServicesTracked(q, limits, h, pb.services);
    UnestimatedIs(MergeAll(limits, [pb]).metrics, |keys|);
  }

  lemma UnestimatedIs(cm: CombinedMetrics, n: nat)
    requires Unestimated(cm, n)
    ensures cm.estimator.None?
  {
  }

  lemma MergedAlone(limits: Limits, pb: PbCombined)
    ensures MergeAll(limits, [pb]) == MergeServices(limits, EmptyMerger.(metrics := MergeHeader(EmptyCombined, pb)), pb.services)
  {
    hide MergeServices, MergeHeader;
    assert [pb][..0] == [];
    assert MergeAll(limits, []) == EmptyMerger;
  }

  /** In a full merger that holds all other keys, what the key weighs is lost. */
  lemma KeyLost(q: Quantity, limits: Limits, st: MergerState, pb: PbCombined, k: ServiceKey, n: nat)
    requires PairedState(st.metrics) && PairedPb(pb) && pb.estimator.None? && Unestimated(st.metrics, n)
    requires st.metrics.services.Keys == KeySet(pb.services) - {k} && |st.metrics.services| >= limits.maxServices
    requires n + InstanceTotal(pb.services) <= limits.maxInstancesPerService && InstanceLess(pb.services, k)
    requires OverflowMass(q, st.metrics.overflowServices) == 0.0 && OptionalOverflowMass(q, pb.overflowServices) == 0.0
    ensures Lost(q, limits, st, pb) == KeyMass(q, pb.services, k)
  {
    hide MergeServices, MergeHeader, OverflowMass, OptionalOverflowMass, PairedState, KeptKeys, Outside, InstancesKept, KeyMass,
         Total, Unestimated, KeySet, InstanceLess;
    assert |st.metrics.services| == |st.metrics.services.Keys|;
    KeyOutside(q, limits.maxServices, pb.services, k);
    HeaderTotal(q, st.metrics, pb);
    HeaderUnestimated(st.metrics, pb, n);
    var h := st.(metrics := MergeHeader(st.metrics, pb));
    ServicesUnestimated(limits, h, pb.services, n);
    UnestimatedIs(MergeMessage(limits, st, pb).metrics, n + InstanceTotal(pb.services));
  }

  lemma HeaderUnestimated(cm: CombinedMetrics, pb: PbCombined, n: nat)
    requires Unestimated(cm, n) && pb.estimator.None?
    ensures Unestimated(MergeHeader(cm, pb), n)
  {
  }

  lemma KeyOutside(q: Quantity, max: nat, s: seq<PbService>, k: ServiceKey)
    requires InstanceLess(s, k) && |KeySet(s) - {k}| >= max
    ensures var base := KeySet(s) - {k};
            && KeptKeys(max, base, s) == base && InstancesKept(s, base) && Outside(q, s, base) == KeyMass(q, s, k)
  {
    hide OptionalOverflowMass;
    var base := KeySet(s) - {k};
    KeptIfFull(max, base, s);
    forall i | 0 <= i < |s| && s[i].instances != []
      ensures s[i].key in base
    {
      assert s[i].key in KeySet(s);
    }
    OutsideOneMore(q, s, base, k);
    OutsideNothing(q, s, base + {k});
  }

  lemma ExposedInContext(q: Quantity, pb: PbCombined, k: ServiceKey)
    requires PairedPb(pb) && pb.estimator.None? && OptionalOverflowMass(q, pb.overflowServices) == 0.0
    requires InstanceLess(pb.services, k) && KeyMass(q, pb.services, k) != 0.0
    ensures !Preserved(pb)
  {
    hide PairedPb, OptionalOverflowMass, OverflowMass, KeyMass, Preserved, MergeAll, PairedState, Lost, InstanceLess;
    var others := KeySet(pb.services) - {k};
    var keys := SetListed(others);
    var limits := LimitsFor(|others|, |keys| + InstanceTotal(pb.services));
    FilledUp(q, limits, keys, others);
    var st := MergeAll(limits, [Filler(keys)]);
    assert |st.metrics.services| == |st.metrics.services.Keys|;
    KeyLost(q, limits, st, pb, k, |keys|);
    FillerKeys(keys);
    hide SealedPb;
    LossIsSeen(q, limits, [Filler(keys)], pb);
  }

  lemma {:induction false} SetListed(s: set<ServiceKey>) returns (keys: seq<ServiceKey>)
    ensures (forall k :: k in keys <==> k in s) && |keys| == |s|
  {
    if s == {} {
      keys := [];
    } else {
      var k :| k in s;
      var rest := SetListed(s - {k});
      keys := rest + [k];
    }
  }

  /** An operand with paired overflow keeps all totals in every merge tree with sealed operands exactly when
      it is harmless. */
  lemma {:induction false} PreservedIff(pb: PbCombined)
    requires PairedPb(pb)
    ensures Preserved(pb) <==> Harmless(pb)
  {
    hide PairedPb, Preserved, OptionalOverflowMass, KeyMass, InstanceLess, Lost, KeySet;
    if Harmless(pb) {
      HarmlessIsPreserved(pb);
    } else {
      var q: Quantity :| !HarmlessFor(q, pb);
      if OptionalOverflowMass(q, pb.overflowServices) != 0.0 {
        HeaderLost(q, pb);
        assert MergeAll(LimitsFor(|KeySet(pb.services)|, 0), []) == EmptyMerger;
        LossIsSeen(q, LimitsFor(|KeySet(pb.services)|, 0), [], pb);
      } else {
        var k: ServiceKey :| InstanceLess(pb.services, k) && KeyMass(q, pb.services, k) != 0.0;
        ExposedInContext(q, pb, k);
      }
    }
  }

  // ----- examples

  /** A service with one overflowed span and no instance. */
  function OverflowOnly(k: ServiceKey, d: Digest): PbService {
    PbService(k, [], Some(EmptyOverflow.(spans := Bucket(Some(SpanMetrics(1.0, 1.0)), Some({d})))))
  }

  function Unestimating(services: seq<PbService>): PbCombined {
    PbCombined(services, None, None, 1.0, 0)
  }

  lemma OverflowOnlyMass(k: ServiceKey, d: Digest)
    ensures PairedOverflow(OverflowOnly(k, d).overflow.value)
    ensures OptionalOverflowMass(SpanCount, OverflowOnly(k, d).overflow) == 1.0
  {
  }

  /** Such a service can lose its span, also in front of a service with instances: a merger that already
      holds that one, and is full, keeps it without making the estimator. */
  lemma {:induction false} OverflowOnlyIsLost(k: ServiceKey, d: Digest, rest: seq<PbService>)
    requires forall i :: 0 <= i < |rest| ==> rest[i].key != k && rest[i].overflow.None?
    ensures !Preserved(Unestimating([OverflowOnly(k, d)] + rest))
  {
    var s := [OverflowOnly(k, d)] + rest;
    var pb := Unestimating(s);
    OverflowOnlyMass(k, d);
    assert PairedPb(pb) && InstanceLess(pb.services, k);
    hide Preserved, OverflowOnly;
    forall i | 0 < i < |s|
      ensures s[i].key != k
    {
      assert s[i] == rest[i - 1];
    }
    FirstWeighs(SpanCount, s, k);
    PreservedIff(pb);
    assert !HarmlessFor(SpanCount, pb);
  }

  lemma {:induction false} FirstWeighs(q: Quantity, s: seq<PbService>, k: ServiceKey)
    requires s != [] && s[0].key == k && forall i :: 0 < i < |s| ==> s[i].key != k
    ensures KeyMass(q, s, k) == OptionalOverflowMass(q, s[0].overflow)
  {
    hide OptionalOverflowMass;
    if |s| > 1 {
      FirstWeighs(q, s[..|s| - 1], k);
    } else {
      assert s[..0] == [];
    }
  }
}
