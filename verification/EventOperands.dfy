/** From events to merged metrics: the operands that events become satisfy what the merge theorems ask
    for, so every event is counted exactly once. */
module EventOperands {
  import opened Sums
  import opened KeyedSums
  import opened Models
  import opened Groups
  import opened MergerTotals
  import opened Converter
  import MergerExact

  /** A message with one service, one instance and no overflow, as every event part is. */
  ghost predicate SingleInstance(pb: PbCombined) {
    && |pb.services| == 1 && |pb.services[0].instances| == 1 && pb.services[0].overflow.None?
    && pb.overflowServices.None? && pb.estimator.None?
  }

  lemma {:induction false} PartsAreSingle(src: Source, i: nat)
    requires src.partitions > 0 && i < |Parts(src)|
    ensures SingleInstance(Parts(src)[i].metrics) && SealedPb(Parts(src)[i].metrics)
  {
    hide PartInstance, EventMetrics, PartitionsOf;
  }

  lemma CollectOne<P, K, V>(s: seq<P>, key: P -> K, val: P -> V, f: Combine<K, V>)
    requires |s| == 1
    ensures Collect(s, key, val, f) == map[key(s[0]) := val(s[0])]
  {
    var none: map<K, V> := map[];
    assert s[..0] == [] && CollectInto(none, [], key, val, f) == none;
    assert Collect(s, key, val, f) == Store(none, key(s[0]), val(s[0]), f);
  }

  lemma SingleIsClean(pb: PbCombined)
    requires SingleInstance(pb)
    ensures MergerExact.Clean(MergerExact.Plain(pb)) && SealedPb(pb)
  {
    CollectOne(pb.services, MergerExact.PbServiceKey(), MergerExact.PlainService(), MergerExact.AddService());
  }

  /** Within the limits, merging the operands of events creates no overflow, in any order and bracketing. */
  lemma {:induction false} FittingEventsDoNotOverflow(limits: Limits, t: MergeTree)
    requires ValidTree(limits, t) && MergerExact.Fits(limits, MergerExact.PlainSum(Operands(t)))
    requires forall x :: x in Operands(t) ==> SingleInstance(x)
    ensures MergerExact.Clean(MergerExact.Plain(t.value))
  {
    var s := Operands(t);
    forall x | x in s
      ensures SealedPb(x) && MergerExact.Clean(MergerExact.Plain(x))
    {
      SingleIsClean(x);
    }
    hide SealedPb, MergerExact.Clean, MergerExact.Plain, MergerExact.Fits, MergerExact.PlainSum, Operands, ValidTree;
    AllSealedIff(s);
    MergerExact.PlainSumClean(s);
    MergerExact.TreeExact(limits, t);
  }

  // ----- counting events

  lemma {:induction false} ZeroMass<V>(s: seq<V>, f: V -> real)
    requires forall i :: 0 <= i < |s| ==> f(s[i]) == 0.0
    ensures SeqSum(s, f) == 0.0
  {
    if s != [] {
      ZeroMass(s[..|s| - 1], f);
    }
  }

  lemma InstancesCountNoEvents(i: PbInstance)
    ensures PbInstanceMass(EventsTotal)(i) == 0.0
  {
    ZeroMass(i.transactions, OfKeyed<TransactionKey, TransactionMetrics>(TransactionMass(EventsTotal)));
    ZeroMass(i.serviceTransactions,
             OfKeyed<ServiceTransactionKey, ServiceTransactionMetrics>(ServiceTransactionMass(EventsTotal)));
    ZeroMass(i.spans, OfKeyed<SpanKey, SpanMetrics>(SpanMass(EventsTotal)));
  }

  lemma SingleTotal(pb: PbCombined)
    requires SingleInstance(pb)
    ensures PbTotal(EventsTotal)(pb) == pb.eventsTotal
  {
    var s := pb.services[0];
    InstancesCountNoEvents(s.instances[0]);
    ZeroMass(s.instances, PbInstanceMass(EventsTotal));
    ZeroMass(pb.services, PbServiceMass(EventsTotal));
  }

  ghost function Messages(parts: seq<Part>): (r: seq<PbCombined>)
    ensures |r| == |parts| && forall i :: 0 <= i < |parts| ==> r[i] == parts[i].metrics
  {
    seq(|parts|, i requires 0 <= i < |parts| => parts[i].metrics)
  }

  ghost predicate Partitioned(sources: seq<Source>) {
    forall i :: 0 <= i < |sources| ==> sources[i].partitions > 0
  }

  /** All operands that a list of events yields, over all partitions. */
  ghost function AllOperands(sources: seq<Source>): seq<PbCombined>
    requires Partitioned(sources)
  {
    if sources == [] then []
    else AllOperands(sources[..|sources| - 1]) + Messages(Parts(sources[|sources| - 1]))
  }

  /** How many of the events yield metrics. */
  ghost function Yielding(sources: seq<Source>): nat {
    if sources == [] then 0
    else
      Yielding(sources[..|sources| - 1])
      + if EventMetrics(sources[|sources| - 1].event.body) == [] then 0 else 1
  }

  lemma {:induction false} MessagesTotal(parts: seq<Part>)
    requires forall i :: 0 <= i < |parts| ==> SingleInstance(parts[i].metrics)
    ensures SeqSum(Messages(parts), PbTotal(EventsTotal)) == Shares(parts)
  {
    if parts != [] {
      var n := |parts| - 1;
      MessagesTotal(parts[..n]);
      SingleTotal(parts[n].metrics);
      assert Messages(parts)[..n] == Messages(parts[..n]);
    }
  }

  lemma {:induction false} OperandsCounted(sources: seq<Source>)
    requires Partitioned(sources)
    ensures SeqSum(AllOperands(sources), PbTotal(EventsTotal)) == Yielding(sources) as real
  {
    hide Parts, EventMetrics, PbTotal, SealedPb, Messages, AllSealed;
    if sources != [] {
      var n := |sources| - 1;
      OperandsCounted(sources[..n]);
      EventCounted(sources[n]);
      SeqSumAppend(AllOperands(sources[..n]), Messages(Parts(sources[n])), PbTotal(EventsTotal));
    }
  }

  lemma {:induction false} OperandsSealed(sources: seq<Source>)
    requires Partitioned(sources)
    ensures AllSealed(AllOperands(sources))
  {
    hide Parts, EventMetrics, PbTotal, SealedPb, Messages, SeqSum;
    if sources != [] {
      var n := |sources| - 1;
      OperandsSealed(sources[..n]);
      EventCounted(sources[n]);
      AllSealedAppend(AllOperands(sources[..n]), Messages(Parts(sources[n])));
    }
  }

  lemma EventCounted(src: Source)
    requires src.partitions > 0
    ensures SeqSum(Messages(Parts(src)), PbTotal(EventsTotal))
            == if EventMetrics(src.event.body) == [] then 0.0 else 1.0
    ensures AllSealed(Messages(Parts(src)))
  {
    var parts := Parts(src);
    SharesSumToOne(src);
    forall i | 0 <= i < |parts|
      ensures SingleInstance(parts[i].metrics) && SealedPb(parts[i].metrics)
    {
      PartsAreSingle(src, i);
    }
    hide Parts, EventMetrics, SingleInstance, SealedPb, PbTotal;
    MessagesTotal(parts);
    AllSealedIff(Messages(parts));
  }

  /** Operands of several merge trees, one per database key. */
  ghost function ForestOperands(ts: seq<MergeTree>): seq<PbCombined> {
    if ts == [] then [] else ForestOperands(ts[..|ts| - 1]) + Operands(ts[|ts| - 1])
  }

  ghost predicate ValidForest(limits: Limits, ts: seq<MergeTree>) {
    forall i :: 0 <= i < |ts| ==> ValidTree(limits, ts[i])
  }

  lemma {:induction false} ForestConserves(q: Quantity, limits: Limits, ts: seq<MergeTree>)
    requires ValidForest(limits, ts) && AllSealed(ForestOperands(ts))
    ensures SeqSum(Values(ts), PbTotal(q)) == SeqSum(ForestOperands(ts), PbTotal(q))
    ensures AllSealed(Values(ts))
  {
    if ts != [] {
      var n := |ts| - 1;
      var front, last := ForestOperands(ts[..n]), Operands(ts[n]);
      AllSealedAppend(front, last);
      ForestConserves(q, limits, ts[..n]);
      TreeConserves(q, limits, ts[n]);
      hide ValidTree, PbTotal, Operands, SealedPb;
      ValuesLast(ts);
      var values := Values(ts[..n]);
      assert (values + [ts[n].value])[..n] == values;
      SeqSumAppend(front, last, PbTotal(q));
    }
  }

  /** End to end: however the operands of the events are spread over partitions and merged under each
      key, the merged totals add up to the number of events that yield metrics. */
  lemma {:induction false} EventsCountedOnce(limits: Limits, sources: seq<Source>, ts: seq<MergeTree>)
    requires Partitioned(sources)
    requires ValidForest(limits, ts) && multiset(ForestOperands(ts)) == multiset(AllOperands(sources))
    ensures SeqSum(Values(ts), PbTotal(EventsTotal)) == Yielding(sources) as real
    ensures AllSealed(Values(ts))
  {
    var a, b := ForestOperands(ts), AllOperands(sources);
    OperandsCounted(sources);
    OperandsSealed(sources);
    hide ForestOperands, AllOperands, PbTotal, ValidForest, SealedPb;
    assert forall x :: x in a <==> x in multiset(a);
    assert forall x :: x in b <==> x in multiset(b);
    AllSealedIff(a);
    AllSealedIff(b);
    ForestConserves(EventsTotal, limits, ts);
    SeqSumPermutes(a, b, PbTotal(EventsTotal));
  }
}
