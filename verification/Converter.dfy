/** From one event to partitioned metrics: what the builders must emit. */
module Converter {
  import opened Histograms
  import opened HdrIndex
  import opened HdrHistogram
  import opened Models

  const MAX_SPANS := 128

  datatype DroppedSpan = DroppedSpan(key: SpanKey, count: nat, sum: int)

  /** What the event type contributes. Keys are those that the event's fields give. */
  datatype Body =
    | Transaction(repCount: real, duration: int, transactionKey: TransactionKey,
                  serviceTransactionKey: ServiceTransactionKey, outcome: string, dropped: seq<DroppedSpan>)
    | Span(repCount: real, hasTarget: bool, destination: string, spanKey: SpanKey, count: nat, duration: int)
    | Other

  datatype Event = Event(service: ServiceKey, instance: InstanceKey, received: nat, body: Body)

  /** One metric of an event. */
  datatype Metric =
    | TransactionMetric(transaction: Keyed<TransactionKey, TransactionMetrics>)
    | ServiceTransactionMetric(serviceTransaction: Keyed<ServiceTransactionKey, ServiceTransactionMetrics>)
    | SpanMetric(span: Keyed<SpanKey, SpanMetrics>)
    | Summary

  /** The histogram of one duration: a single bar, or none when the duration is out of range. */
  function DurationBars(d: int, count: real): seq<Bar> {
    if -1000 < d < 1000 * 0x1_0000_0000 then
      var bar := Bar(CountsIndexFor(if d > 0 then d / 1000 else 0), Round(1000.0 * count));
      if bar == Bar(0, 0) then [] else [bar]
    else []
  }

  function DurationHistogram(d: int, count: real): (r: Histogram) {
    DurationBars(d, count)
  }

  /** Count and summed duration of a span, weighted by the representative count. */
  function ScaledSpan(count: nat, sum: int, repCount: real): SpanMetrics {
    SpanMetrics(count as real * repCount, sum as real * repCount)
  }

  function DroppedMetric(d: DroppedSpan, repCount: real): Metric {
    SpanMetric(Keyed(d.key, ScaledSpan(d.count, d.sum, repCount)))
  }

  function DroppedMetrics(ds: seq<DroppedSpan>, repCount: real): (r: seq<Metric>)
    ensures |r| == |ds| && forall i :: 0 <= i < |r| ==> r[i] == DroppedMetric(ds[i], repCount)
  {
    seq(|ds|, i requires 0 <= i < |ds| => DroppedMetric(ds[i], repCount))
  }

  /** The metrics of an event, in the order in which they are added. */
  function EventMetrics(b: Body): seq<Metric> {
    match b
    case Transaction(repCount, duration, tk, sk, outcome, dropped) =>
      if repCount <= 0.0 then []
      else
        var h := Some(DurationHistogram(duration, repCount));
        [TransactionMetric(Keyed(tk, TransactionMetrics(h))),
         ServiceTransactionMetric(Keyed(sk, ServiceTransactionMetrics(h, if outcome == "failure" then repCount else 0.0,
                                                                      if outcome == "success" then repCount else 0.0)))]
        + DroppedMetrics(dropped, repCount)
    case Span(repCount, hasTarget, destination, key, count, duration) =>
      if repCount <= 0.0 || (!hasTarget && destination == "") then []
      else [SpanMetric(Keyed(key, ScaledSpan(count, duration, repCount)))]
    case Other => [Summary]
  }

  /** What is hashed to choose the partition. */
  function DigestOf(e: Event, m: Metric): Digest {
    var prefix := InstanceDigest(ServiceDigest(e.service), e.instance);
    match m
    case TransactionMetric(t) => TransactionDigest(prefix, t.key)
    case ServiceTransactionMetric(s) => ServiceTransactionDigest(prefix, s.key)
    case SpanMetric(s) => SpanDigest(prefix, s.key)
    case Summary => prefix
  }

  /** The event and how it is partitioned; the hash is any function. */
  datatype Source = Source(event: Event, partitions: nat, hash: Digest -> nat)

  function PartitionOf(src: Source, m: Metric): nat
    requires src.partitions > 0
  {
    src.hash(DigestOf(src.event, m)) % src.partitions
  }

  // ----- what each part holds

  function InPart(src: Source, ms: seq<Metric>, p: nat): seq<Metric>
    requires src.partitions > 0
  {
    if ms == [] then []
    else
      var last := ms[|ms| - 1];
      var before := InPart(src, ms[..|ms| - 1], p);
      if PartitionOf(src, last) == p then before + [last] else before
  }

  function TransactionsOf(ms: seq<Metric>): seq<Keyed<TransactionKey, TransactionMetrics>> {
    if ms == [] then []
    else
      var last := ms[|ms| - 1];
      TransactionsOf(ms[..|ms| - 1]) + if last.TransactionMetric? then [last.transaction] else []
  }

  function ServiceTransactionsOf(ms: seq<Metric>): seq<Keyed<ServiceTransactionKey, ServiceTransactionMetrics>> {
    if ms == [] then []
    else
      var last := ms[|ms| - 1];
      ServiceTransactionsOf(ms[..|ms| - 1]) + if last.ServiceTransactionMetric? then [last.serviceTransaction] else []
  }

  function SpansOf(ms: seq<Metric>): seq<Keyed<SpanKey, SpanMetrics>> {
    if ms == [] then []
    else
      var last := ms[|ms| - 1];
      SpansOf(ms[..|ms| - 1]) + if last.SpanMetric? then [last.span] else []
  }

  function FirstSpans(s: seq<Keyed<SpanKey, SpanMetrics>>): seq<Keyed<SpanKey, SpanMetrics>> {
    if |s| <= MAX_SPANS then s else s[..MAX_SPANS]
  }

  /** The service instance metrics of a part: its transactions, its service transactions and its first
      128 spans. */
  function PartInstance(src: Source, ms: seq<Metric>, p: nat): PbInstance
    requires src.partitions > 0
  {
    var part := InPart(src, ms, p);
    PbInstance(src.event.instance, TransactionsOf(part), ServiceTransactionsOf(part), FirstSpans(SpansOf(part)))
  }

  /** The partitions in use, in the order in which they were first needed. */
  function PartitionsOf(src: Source, ms: seq<Metric>): seq<nat>
    requires src.partitions > 0
  {
    if ms == [] then []
    else
      var before := PartitionsOf(src, ms[..|ms| - 1]);
      var p := PartitionOf(src, ms[|ms| - 1]);
      if p in before then before else before + [p]
  }

  /** One call of the callback. */
  datatype Part = Part(partition: nat, metrics: PbCombined)

  function PartFor(src: Source, p: nat, share: real): Part
    requires src.partitions > 0
  {
    Part(p, PbCombined([PbService(src.event.service, [PartInstance(src, EventMetrics(src.event.body), p)], None)],
                       None, None, share, src.event.received))
  }

  /** What the conversion emits. */
  function Parts(src: Source): (r: seq<Part>)
    requires src.partitions > 0
    ensures |r| == |PartitionsOf(src, EventMetrics(src.event.body))|
  {
    var ps := PartitionsOf(src, EventMetrics(src.event.body));
    seq(|ps|, i requires 0 <= i < |ps| => PartFor(src, ps[i], 1.0 / |ps| as real))
  }

  // ----- properties of the parts

  ghost predicate Distinct(ps: seq<nat>) {
    forall i, j :: 0 <= i < j < |ps| ==> ps[i] != ps[j]
  }

  /** The partitions are distinct, in range, and exactly those of the metrics. */
  lemma {:induction false} PartitionsExact(src: Source, ms: seq<Metric>)
    requires src.partitions > 0
    ensures Distinct(PartitionsOf(src, ms))
    ensures forall p :: p in PartitionsOf(src, ms) ==> p < src.partitions
    ensures forall p :: p in PartitionsOf(src, ms) <==> exists m :: m in ms && PartitionOf(src, m) == p
  {
    if ms != [] {
      var init, last := ms[..|ms| - 1], ms[|ms| - 1];
      PartitionsExact(src, init);
      hide PartitionOf;
      assert PartitionOf(src, last) < src.partitions by { PartitionInRange(src, last); }
      forall p
        ensures p in PartitionsOf(src, ms) <==> exists m :: m in ms && PartitionOf(src, m) == p
      {
        assert last in ms && forall m :: m in ms <==> m in init || m == last;
        if p == PartitionOf(src, last) {
          assert p in PartitionsOf(src, ms);
        }
      }
    }
  }

  lemma PartitionInRange(src: Source, m: Metric)
    requires src.partitions > 0
    ensures PartitionOf(src, m) < src.partitions
  {
  }

  /** A part holds the metrics that hash to it, and no others. */
  lemma {:induction false} InPartExact(src: Source, ms: seq<Metric>, p: nat, m: Metric)
    requires src.partitions > 0
    ensures m in InPart(src, ms, p) <==> m in ms && PartitionOf(src, m) == p
    ensures multiset(InPart(src, ms, p))[m] == if PartitionOf(src, m) == p then multiset(ms)[m] else 0
  {
    if ms != [] {
      hide PartitionOf;
      var init, last := ms[..|ms| - 1], ms[|ms| - 1];
      InPartExact(src, init, p, m);
      assert ms == init + [last];
    }
  }

  lemma {:induction false} SpansFewer(src: Source, ms: seq<Metric>, p: nat)
    requires src.partitions > 0
    ensures |SpansOf(InPart(src, ms, p))| <= |SpansOf(ms)| <= |ms|
  {
    if ms != [] {
      hide PartitionOf;
      var init, last := ms[..|ms| - 1], ms[|ms| - 1];
      SpansFewer(src, init, p);
      var before := InPart(src, init, p);
      assert (before + [last])[..|before|] == before;
    }
  }

  lemma {:induction false} SpansOfAppend(a: seq<Metric>, b: seq<Metric>)
    ensures SpansOf(a + b) == SpansOf(a) + SpansOf(b)
  {
    if b == [] {
      assert a + b == a;
    } else {
      var n := |b| - 1;
      SpansOfAppend(a, b[..n]);
      assert (a + b)[..|a + b| - 1] == a + b[..n];
    }
  }

  lemma {:induction false} NumberOfSpans(ms: seq<Metric>)
    ensures |SpansOf(ms)| <= |ms|
  {
    if ms != [] { NumberOfSpans(ms[..|ms| - 1]); }
  }

  /** With at most 128 dropped span statistics no span is discarded. */
  lemma {:induction false} NoSpanDiscarded(src: Source, p: nat)
    requires src.partitions > 0
    requires src.event.body.Transaction? ==> |src.event.body.dropped| <= MAX_SPANS
    ensures var ms := EventMetrics(src.event.body);
            PartInstance(src, ms, p).spans == SpansOf(InPart(src, ms, p))
  {
    var ms := EventMetrics(src.event.body);
    SpansFewer(src, ms, p);
    if src.event.body.Transaction? && ms != [] {
      var b := src.event.body;
      var two := ms[..2];
      var rest := DroppedMetrics(b.dropped, b.repCount);
      assert ms == two + rest;
      SpansOfAppend(two, rest);
      NumberOfSpans(rest);
      assert SpansOf(two) == [] by {
        assert two[..1] == [two[0]] && [two[0]][..0] == [];
        assert SpansOf([]) == [] && SpansOf([two[0]]) == [];
      }
    }
  }

  ghost function Shares(parts: seq<Part>): real {
    if parts == [] then 0.0 else Shares(parts[..|parts| - 1]) + parts[|parts| - 1].metrics.eventsTotal
  }

  lemma {:induction false} EqualShares(parts: seq<Part>, share: real)
    requires forall i :: 0 <= i < |parts| ==> parts[i].metrics.eventsTotal == share
    ensures Shares(parts) == |parts| as real * share
  {
    if parts != [] {
      EqualShares(parts[..|parts| - 1], share);
      assert |parts| as real * share == (|parts| - 1) as real * share + share;
    }
  }

  /** An event is counted once in all, however many parts it is spread over; it is not counted at all
      exactly when it yields no metric. */
  lemma {:induction false} SharesSumToOne(src: Source)
    requires src.partitions > 0
    ensures Parts(src) == [] <==> EventMetrics(src.event.body) == []
    ensures Shares(Parts(src)) == if EventMetrics(src.event.body) == [] then 0.0 else 1.0
  {
    hide EventMetrics, PartitionsOf;
    var ms := EventMetrics(src.event.body);
    SomePartition(src, ms);
    if ms != [] {
      ShareOfPart(src);
      hide Parts;
      var n := |PartitionsOf(src, ms)|;
      EqualShares(Parts(src), 1.0 / n as real);
      WholeFromShares(n);
    }
  }

  lemma SomePartition(src: Source, ms: seq<Metric>)
    requires src.partitions > 0
    ensures ms == [] <==> PartitionsOf(src, ms) == []
  {
    hide PartitionOf;
    PartitionsExact(src, ms);
    if ms != [] {
      assert ms[0] in ms;
    }
  }

  lemma ShareOfPart(src: Source)
    requires src.partitions > 0
    ensures forall i :: 0 <= i < |Parts(src)| ==>
              Parts(src)[i].metrics.eventsTotal == 1.0 / |PartitionsOf(src, EventMetrics(src.event.body))| as real
  {
    hide EventMetrics, PartInstance, PartitionsOf;
  }

  lemma WholeFromShares(n: nat)
    requires n > 0
    ensures n as real * (1.0 / n as real) == 1.0
  {
  }

  /** Transaction and service transaction metrics of one event have the same histogram, in one part or
      in two. */
  lemma {:induction false} HistogramsAgree(src: Source, t: Keyed<TransactionKey, TransactionMetrics>,
                        s: Keyed<ServiceTransactionKey, ServiceTransactionMetrics>, i: nat, j: nat)
    requires src.partitions > 0 && i < |Parts(src)| && j < |Parts(src)|
    requires t in Parts(src)[i].metrics.services[0].instances[0].transactions
    requires s in Parts(src)[j].metrics.services[0].instances[0].serviceTransactions
    ensures t.metrics.histogram == s.metrics.histogram
  {
    var ms := EventMetrics(src.event.body);
    TransactionFromEvent(src, i, t);
    ServiceTransactionFromEvent(src, j, s);
    hide Parts, DurationHistogram;
  }

  lemma TransactionFromEvent(src: Source, i: nat, t: Keyed<TransactionKey, TransactionMetrics>)
    requires src.partitions > 0 && i < |Parts(src)|
    requires t in Parts(src)[i].metrics.services[0].instances[0].transactions
    ensures TransactionMetric(t) in EventMetrics(src.event.body)
  {
    hide EventMetrics, PartitionsOf, PartitionOf, InPart, TransactionsOf;
    var ms := EventMetrics(src.event.body);
    var p := PartitionsOf(src, ms)[i];
    TransactionListed(InPart(src, ms, p), t);
    InPartExact(src, ms, p, TransactionMetric(t));
  }

  lemma ServiceTransactionFromEvent(src: Source, i: nat, s: Keyed<ServiceTransactionKey, ServiceTransactionMetrics>)
    requires src.partitions > 0 && i < |Parts(src)|
    requires s in Parts(src)[i].metrics.services[0].instances[0].serviceTransactions
    ensures ServiceTransactionMetric(s) in EventMetrics(src.event.body)
  {
    hide EventMetrics, PartitionsOf, PartitionOf, InPart, ServiceTransactionsOf;
    var ms := EventMetrics(src.event.body);
    var p := PartitionsOf(src, ms)[i];
    ServiceTransactionListed(InPart(src, ms, p), s);
    InPartExact(src, ms, p, ServiceTransactionMetric(s));
  }

  lemma {:induction false} TransactionListed(ms: seq<Metric>, t: Keyed<TransactionKey, TransactionMetrics>)
    ensures t in TransactionsOf(ms) <==> TransactionMetric(t) in ms
  {
    if ms != [] {
      TransactionListed(ms[..|ms| - 1], t);
    }
  }

  lemma {:induction false} ServiceTransactionListed(ms: seq<Metric>,
                                                    s: Keyed<ServiceTransactionKey, ServiceTransactionMetrics>)
    ensures s in ServiceTransactionsOf(ms) <==> ServiceTransactionMetric(s) in ms
  {
    if ms != [] {
      ServiceTransactionListed(ms[..|ms| - 1], s);
    }
  }
}
