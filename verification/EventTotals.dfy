/** What the parts of an event carry, from the event's fields alone: every metric once, under its own key, and
    up to 128 span entries in each part. */
module EventTotals {
  import opened Histograms
  import opened HdrIndex
  import opened HdrHistogram
  import opened Models
  import opened Sums
  import opened Groups
  import opened MergerTotals
  import opened Converter
  import opened EventOperands

  // ----- any weight of the groups

  /** How much a group of each kind weighs. */
  datatype Weights = Weights(transaction: Keyed<TransactionKey, TransactionMetrics> -> real,
                             serviceTransaction: Keyed<ServiceTransactionKey, ServiceTransactionMetrics> -> real,
                             span: Keyed<SpanKey, SpanMetrics> -> real)

  ghost function InstanceWeight(w: Weights, i: PbInstance): real {
    SeqSum(i.transactions, w.transaction) + SeqSum(i.serviceTransactions, w.serviceTransaction) + SeqSum(i.spans, w.span)
  }

  ghost function PartWeight(w: Weights): Part -> real {
    (part: Part) => if |part.metrics.services| == 1 && |part.metrics.services[0].instances| == 1
                    then InstanceWeight(w, part.metrics.services[0].instances[0]) else 0.0
  }

  ghost function MetricWeight(w: Weights, m: Metric): real {
    match m
    case TransactionMetric(t) => w.transaction(t)
    case ServiceTransactionMetric(s) => w.serviceTransaction(s)
    case SpanMetric(s) => w.span(s)
    case Summary => 0.0
  }

  /** The part `p` of the metrics. */
  ghost function WeightOf(w: Weights, src: Source, ms: seq<Metric>): nat -> real
    requires src.partitions > 0
  {
    (p: nat) => InstanceWeight(w, PartInstance(src, ms, p))
  }

  ghost predicate Discarded(src: Source, ms: seq<Metric>, m: Metric)
    requires src.partitions > 0
  {
    m.SpanMetric? && |SpansOf(InPart(src, ms, PartitionOf(src, m)))| >= 128
  }

  lemma {:induction false} SumLast<V>(s: seq<V>, x: V, f: V -> real)
    ensures SeqSum(s + [x], f) == SeqSum(s, f) + f(x)
  {
    assert (s + [x])[..|s|] == s;
  }

  lemma PartsOfMore(src: Source, ms: seq<Metric>, m: Metric, p: nat)
    requires src.partitions > 0
    ensures InPart(src, ms + [m], p) == if PartitionOf(src, m) == p then InPart(src, ms, p) + [m] else InPart(src, ms, p)
  {
    hide PartitionOf;
    assert (ms + [m])[..|ms|] == ms;
  }

  lemma KindsOfMore(ms: seq<Metric>, m: Metric)
    ensures TransactionsOf(ms + [m]) == if m.TransactionMetric? then TransactionsOf(ms) + [m.transaction] else TransactionsOf(ms)
    ensures ServiceTransactionsOf(ms + [m]) == if m.ServiceTransactionMetric? then ServiceTransactionsOf(ms) + [m.serviceTransaction] else ServiceTransactionsOf(ms)
    ensures SpansOf(ms + [m]) == if m.SpanMetric? then SpansOf(ms) + [m.span] else SpansOf(ms)
  {
    assert (ms + [m])[..|ms|] == ms;
  }

  /** One more metric weighs on its own part, unless it is a span that finds 128 there. */
  lemma OneMetric(w: Weights, src: Source, ms: seq<Metric>, m: Metric, p: nat)
    requires src.partitions > 0
    ensures WeightOf(w, src, ms + [m])(p)
            == WeightOf(w, src, ms)(p)
               + if PartitionOf(src, m) != p || Discarded(src, ms, m) then 0.0 else MetricWeight(w, m)
  {
    hide PartitionOf, TransactionsOf, ServiceTransactionsOf, SpansOf, InPart, SeqSum;
    PartsOfMore(src, ms, m, p);
    if PartitionOf(src, m) == p {
      var part := InPart(src, ms, p);
      KindsOfMore(part, m);
      match m
      case TransactionMetric(t) => SumLast(TransactionsOf(part), t, w.transaction);
      case ServiceTransactionMetric(s) => SumLast(ServiceTransactionsOf(part), s, w.serviceTransaction);
      case SpanMetric(s) =>
        if |SpansOf(part)| < 128 {
          SumLast(SpansOf(part), s, w.span);
        } else {
          assert FirstSpans(SpansOf(part) + [s]) == FirstSpans(SpansOf(part));
        }
      case Summary =>
    }
  }

  lemma {:induction false} OneTermMore(ps: seq<nat>, f: nat -> real, g: nat -> real, p: nat, x: real)
    requires Distinct(ps) && (forall k :: k in ps && k != p ==> g(k) == f(k)) && g(p) == f(p) + x
    ensures SeqSum(ps, g) == SeqSum(ps, f) + if p in ps then x else 0.0
  {
    if ps != [] {
      var n := |ps| - 1;
      assert ps == ps[..n] + [ps[n]];
      OneTermMore(ps[..n], f, g, p, x);
      if ps[n] == p {
        assert p !in ps[..n];
      }
    }
  }

  /** The metrics that are not discarded. */
  ghost function KeptWeight(w: Weights, src: Source, ms: seq<Metric>): real
    requires src.partitions > 0
  {
    if ms == [] then 0.0
    else
      var init, last := ms[..|ms| - 1], ms[|ms| - 1];
      KeptWeight(w, src, init) + if Discarded(src, init, last) then 0.0 else MetricWeight(w, last)
  }

  lemma {:induction false} AllParts(w: Weights, src: Source, ms: seq<Metric>, ps: seq<nat>)
    requires src.partitions > 0 && Distinct(ps) && forall m :: m in ms ==> PartitionOf(src, m) in ps
    ensures SeqSum(ps, WeightOf(w, src, ms)) == KeptWeight(w, src, ms)
  {
    if ms == [] {
      ZeroMass(ps, WeightOf(w, src, ms));
    } else {
      hide PartitionOf, MetricWeight, Discarded, WeightOf;
      var init, m := ms[..|ms| - 1], ms[|ms| - 1];
      assert ms == init + [m];
      AllParts(w, src, init, ps);
      var p := PartitionOf(src, m);
      forall k: nat
        ensures WeightOf(w, src, ms)(k) == WeightOf(w, src, init)(k) + if p != k || Discarded(src, init, m) then 0.0 else MetricWeight(w, m)
      {
        OneMetric(w, src, init, m, k);
      }
      OneTermMore(ps, WeightOf(w, src, init), WeightOf(w, src, ms), p, if Discarded(src, init, m) then 0.0 else MetricWeight(w, m));
    }
  }

  // ----- the metrics of an event

  function SpanPartition(src: Source, k: SpanKey): nat
    requires src.partitions > 0
  {
    src.hash(SpanDigest(InstanceDigest(ServiceDigest(src.event.service), src.event.instance), k)) % src.partitions
  }

  /** How many of the dropped span statistics belong to the part. */
  ghost function EntriesIn(src: Source, ds: seq<DroppedSpan>, p: nat): nat
    requires src.partitions > 0
  {
    if ds == [] then 0
    else EntriesIn(src, ds[..|ds| - 1], p) + if SpanPartition(src, ds[|ds| - 1].key) == p then 1 else 0
  }

  /** The sum over those dropped span statistics with fewer than 128 before them in their part. */
  ghost function DroppedSum(src: Source, ds: seq<DroppedSpan>, f: DroppedSpan -> real): real
    requires src.partitions > 0
  {
    if ds == [] then 0.0
    else
      var init, d := ds[..|ds| - 1], ds[|ds| - 1];
      DroppedSum(src, init, f) + if EntriesIn(src, init, SpanPartition(src, d.key)) < 128 then f(d) else 0.0
  }

  ghost function DroppedWeight(w: Weights, repCount: real): DroppedSpan -> real {
    (d: DroppedSpan) => w.span(Keyed(d.key, Times(d.count, d.sum, repCount)))
  }

  /** Count and sum of durations, each times the representative count. */
  function Times(count: nat, sum: int, repCount: real): SpanMetrics {
    SpanMetrics(count as real * repCount, sum as real * repCount)
  }

  /** What the metrics of the event weigh, each under its own key. */
  ghost function EventWeight(w: Weights, src: Source): real
    requires src.partitions > 0
  {
    match src.event.body
    case Transaction(repCount, duration, tk, sk, outcome, dropped) =>
      if repCount <= 0.0 then 0.0
      else
        var h := Some(DurationHistogram(duration, repCount));
        w.transaction(Keyed(tk, TransactionMetrics(h)))
        + w.serviceTransaction(Keyed(sk, ServiceTransactionMetrics(h, if outcome == "failure" then repCount else 0.0,
                                                                   if outcome == "success" then repCount else 0.0)))
        + DroppedSum(src, dropped, DroppedWeight(w, repCount))
    case Span(repCount, hasTarget, destination, key, count, duration) =>
      if repCount <= 0.0 || (!hasTarget && destination == "") then 0.0
      else w.span(Keyed(key, Times(count, duration, repCount)))
    case Other => 0.0
  }

  lemma {:induction false} DroppedInPart(src: Source, two: seq<Metric>, ds: seq<DroppedSpan>, repCount: real, p: nat)
    requires src.partitions > 0 && SpansOf(InPart(src, two, p)) == []
    ensures |SpansOf(InPart(src, two + DroppedMetrics(ds, repCount), p))| == EntriesIn(src, ds, p)
  {
    hide InPart, SpansOf, DroppedMetric, PartitionOf, SpanPartition;
    if ds == [] {
      assert two + DroppedMetrics(ds, repCount) == two;
    } else {
      var init, d := ds[..|ds| - 1], ds[|ds| - 1];
      DroppedInPart(src, two, init, repCount, p);
      var ms, m := two + DroppedMetrics(init, repCount), DroppedMetric(d, repCount);
      assert two + DroppedMetrics(ds, repCount) == ms + [m];
      DroppedPartition(src, d, repCount);
      PartsOfMore(src, ms, m, p);
      KindsOfMore(InPart(src, ms, p), m);
    }
  }

  lemma DroppedPartition(src: Source, d: DroppedSpan, repCount: real)
    requires src.partitions > 0
    ensures var m := DroppedMetric(d, repCount); m.SpanMetric? && PartitionOf(src, m) == SpanPartition(src, d.key)
  {
  }

  lemma DroppedIs(d: DroppedSpan, repCount: real)
    ensures DroppedMetric(d, repCount) == SpanMetric(Keyed(d.key, Times(d.count, d.sum, repCount)))
  {
    assert ScaledSpan(d.count, d.sum, repCount) == Times(d.count, d.sum, repCount);
  }

  lemma {:induction false} DroppedKept(w: Weights, src: Source, two: seq<Metric>, ds: seq<DroppedSpan>, repCount: real)
    requires src.partitions > 0 && forall p: nat :: SpansOf(InPart(src, two, p)) == []
    ensures KeptWeight(w, src, two + DroppedMetrics(ds, repCount))
            == KeptWeight(w, src, two) + DroppedSum(src, ds, DroppedWeight(w, repCount))
  {
    hide KeptWeight, InPart, SpansOf, Discarded, EntriesIn, SpanPartition, DroppedMetric, Times;
    if ds == [] {
      assert two + DroppedMetrics(ds, repCount) == two;
    } else {
      var init, d := ds[..|ds| - 1], ds[|ds| - 1];
      DroppedKept(w, src, two, init, repCount);
      var ms, m := two + DroppedMetrics(init, repCount), DroppedMetric(d, repCount);
      assert two + DroppedMetrics(ds, repCount) == ms + [m];
      KeptLast(w, src, ms, m);
      DroppedIs(d, repCount);
      DroppedDiscarded(src, two, init, d, repCount);
      assert MetricWeight(w, m) == DroppedWeight(w, repCount)(d);
    }
  }

  lemma KeptLast(w: Weights, src: Source, ms: seq<Metric>, m: Metric)
    requires src.partitions > 0
    ensures KeptWeight(w, src, ms + [m]) == KeptWeight(w, src, ms) + if Discarded(src, ms, m) then 0.0 else MetricWeight(w, m)
  {
    assert (ms + [m])[..|ms|] == ms;
  }

  lemma DroppedDiscarded(src: Source, two: seq<Metric>, ds: seq<DroppedSpan>, d: DroppedSpan, repCount: real)
    requires src.partitions > 0 && forall p: nat :: SpansOf(InPart(src, two, p)) == []
    ensures Discarded(src, two + DroppedMetrics(ds, repCount), DroppedMetric(d, repCount))
            <==> EntriesIn(src, ds, SpanPartition(src, d.key)) >= 128
  {
    hide InPart, SpansOf, EntriesIn;
    DroppedInPart(src, two, ds, repCount, SpanPartition(src, d.key));
    DroppedPartition(src, d, repCount);
    hide PartitionOf, SpanPartition;
  }

  lemma NoSpans(src: Source, t: Metric, s: Metric, p: nat)
    requires src.partitions > 0 && t.TransactionMetric? && s.ServiceTransactionMetric?
    ensures SpansOf(InPart(src, [t, s], p)) == []
  {
    SpansFewer(src, [t, s], p);
    hide PartitionOf, InPart;
    assert [t, s][..1] == [t] && [t][..0] == [];
    assert SpansOf([]) == [] && SpansOf([t]) == [] && SpansOf([t, s]) == [];
  }

  lemma KeptTwo(w: Weights, src: Source, t: Metric, s: Metric)
    requires src.partitions > 0 && t.TransactionMetric? && s.ServiceTransactionMetric?
    ensures KeptWeight(w, src, [t, s]) == w.transaction(t.transaction) + w.serviceTransaction(s.serviceTransaction)
  {
    assert [t, s][..1] == [t] && [t][..0] == [];
    assert KeptWeight(w, src, []) == 0.0 && KeptWeight(w, src, [t]) == w.transaction(t.transaction);
  }

  lemma KeptOne(w: Weights, src: Source, m: Metric)
    requires src.partitions > 0
    ensures KeptWeight(w, src, [m]) == MetricWeight(w, m)
  {
    hide PartitionOf;
    assert [m][..0] == [];
    assert KeptWeight(w, src, []) == 0.0 && InPart(src, [], PartitionOf(src, m)) == [];
  }

  lemma EventKept(w: Weights, src: Source)
    requires src.partitions > 0
    ensures KeptWeight(w, src, EventMetrics(src.event.body)) == EventWeight(w, src)
  {
    hide KeptWeight, DurationHistogram, DroppedSum;
    var ms := EventMetrics(src.event.body);
    if ms == [] {
      NothingKept(w, src);
    } else if src.event.body.Transaction? {
      var b := src.event.body;
      var t, s := ms[0], ms[1];
      assert ms == [t, s] + DroppedMetrics(b.dropped, b.repCount);
      forall p: nat
        ensures SpansOf(InPart(src, [t, s], p)) == []
      {
        NoSpans(src, t, s, p);
      }
      DroppedKept(w, src, [t, s], b.dropped, b.repCount);
      KeptTwo(w, src, t, s);
    } else {
      assert ms == [ms[0]];
      KeptOne(w, src, ms[0]);
      SpanKept(w, src);
    }
  }

  lemma SpanKept(w: Weights, src: Source)
    requires src.partitions > 0 && !src.event.body.Transaction? && EventMetrics(src.event.body) != []
    ensures MetricWeight(w, EventMetrics(src.event.body)[0]) == EventWeight(w, src)
  {
    match src.event.body
    case Span(repCount, hasTarget, destination, key, count, duration) =>
      assert ScaledSpan(count, duration, repCount) == Times(count, duration, repCount);
    case Other =>
  }

  lemma NothingKept(w: Weights, src: Source)
    requires src.partitions > 0
    ensures KeptWeight(w, src, []) == 0.0
  {
  }

  /** However the event is partitioned, its parts together hold each of its metrics once, under its own key, but
      for the span entries that find 128 in their part; for any weight of the groups. */
  lemma {:induction false} PartsCarry(w: Weights, src: Source)
    requires src.partitions > 0
    ensures SeqSum(Parts(src), PartWeight(w)) == EventWeight(w, src)
  {
    var ms := EventMetrics(src.event.body);
    var ps := PartitionsOf(src, ms);
    EventKept(w, src);
    PartitionsExact(src, ms);
    hide EventMetrics, KeptWeight, EventWeight, PartitionsOf, PartInstance, InstanceWeight, PartitionOf;
    AllParts(w, src, ms, ps);
    SeqSumMatches(Parts(src), PartWeight(w), ps, WeightOf(w, src, ms));
  }

  // ----- totals

  ghost function QuantityWeights(q: Quantity): Weights {
    Weights(OfKeyed<TransactionKey, TransactionMetrics>(TransactionMass(q)),
            OfKeyed<ServiceTransactionKey, ServiceTransactionMetrics>(ServiceTransactionMass(q)),
            OfKeyed<SpanKey, SpanMetrics>(SpanMass(q)))
  }

  lemma SinglePartTotal(q: Quantity, part: Part)
    requires SingleInstance(part.metrics)
    ensures PbTotal(q)(part.metrics) == PartWeight(QuantityWeights(q))(part) + if q.EventsTotal? then part.metrics.eventsTotal else 0.0
  {
    var s := part.metrics.services;
    hide TransactionMass, ServiceTransactionMass, SpanMass;
    assert s[..0] == [] && s[0].instances[..0] == [];
    assert SeqSum(s[..0], PbServiceMass(q)) == 0.0 && SeqSum(s[0].instances[..0], PbInstanceMass(q)) == 0.0;
    assert SeqSum(s, PbServiceMass(q)) == PbServiceMass(q)(s[0]);
    assert SeqSum(s[0].instances, PbInstanceMass(q)) == PbInstanceMass(q)(s[0].instances[0]);
  }

  lemma {:induction false} PartsTotal(q: Quantity, parts: seq<Part>)
    requires forall i :: 0 <= i < |parts| ==> SingleInstance(parts[i].metrics)
    ensures SeqSum(Messages(parts), PbTotal(q))
            == SeqSum(parts, PartWeight(QuantityWeights(q))) + if q.EventsTotal? then Shares(parts) else 0.0
  {
    hide PbTotal, PartWeight, SingleInstance;
    if parts != [] {
      var n := |parts| - 1;
      PartsTotal(q, parts[..n]);
      SinglePartTotal(q, parts[n]);
      assert Messages(parts)[..n] == Messages(parts[..n]);
    }
  }

  /** The thousandths of the representative count, recorded in the bar of the duration in microseconds. */
  ghost function DurationCount(d: int, repCount: real, bucket: int): int {
    if -1000 < d < 4_294_967_296_000 && bucket == CountsIndexFor(if d > 0 then d / 1000 else 0) then Round(1000.0 * repCount) else 0
  }

  lemma DurationCounts(d: int, repCount: real, bucket: int)
    ensures CountAt(DurationHistogram(d, repCount), bucket) == DurationCount(d, repCount, bucket)
  {
    hide CountsIndexFor, Round;
    var h := DurationHistogram(d, repCount);
    if h != [] {
      assert h == [h[0]];
      OneBar(h[0], bucket);
    }
  }

  lemma OneBar(bar: Bar, bucket: int)
    ensures CountAt([bar], bucket) == if bar.bucket == bucket then bar.count else 0
  {
    assert CountAt([], bucket) == 0;
    assert [bar][..0] == [] && [bar][1..] == [];
  }

  /** The totals that an event stands for, from its fields alone. */
  ghost function EventTotal(q: Quantity, src: Source): real
    requires src.partitions > 0
  {
    match src.event.body
    case Transaction(repCount, duration, _, _, outcome, dropped) =>
      if repCount <= 0.0 then 0.0
      else (
        match q
        case EventsTotal => 1.0
        case TransactionsIn(b) => DurationCount(duration, repCount, b) as real
        case ServiceTransactionsIn(b) => DurationCount(duration, repCount, b) as real
        case Failures => if outcome == "failure" then repCount else 0.0
        case Successes => if outcome == "success" then repCount else 0.0
        case SpanCount => DroppedSum(src, dropped, (d: DroppedSpan) => Times(d.count, d.sum, repCount).count)
        case SpanSum => DroppedSum(src, dropped, (d: DroppedSpan) => Times(d.count, d.sum, repCount).sum))
    case Span(repCount, hasTarget, destination, _, count, duration) =>
      if repCount <= 0.0 || (!hasTarget && destination == "") then 0.0
      else (
        match q
        case EventsTotal => 1.0
        case SpanCount => Times(count, duration, repCount).count
        case SpanSum => Times(count, duration, repCount).sum
        case _ => 0.0)
    case Other => if q.EventsTotal? then 1.0 else 0.0
  }

  lemma {:induction false} DroppedSame(src: Source, ds: seq<DroppedSpan>, f: DroppedSpan -> real, g: DroppedSpan -> real)
    requires src.partitions > 0 && forall d :: f(d) == g(d)
    ensures DroppedSum(src, ds, f) == DroppedSum(src, ds, g)
  {
    if ds != [] {
      DroppedSame(src, ds[..|ds| - 1], f, g);
    }
  }

  lemma {:induction false} DroppedNothing(src: Source, ds: seq<DroppedSpan>, f: DroppedSpan -> real)
    requires src.partitions > 0 && forall d :: f(d) == 0.0
    ensures DroppedSum(src, ds, f) == 0.0
  {
    if ds != [] {
      DroppedNothing(src, ds[..|ds| - 1], f);
    }
  }

  lemma TransactionTotal(q: Quantity, src: Source)
    requires src.partitions > 0 && src.event.body.Transaction? && !q.EventsTotal?
    ensures EventWeight(QuantityWeights(q), src) == EventTotal(q, src)
  {
    hide DroppedSum, DurationHistogram, DurationCount, Times;
    var b := src.event.body;
    var f := DroppedWeight(QuantityWeights(q), b.repCount);
    match q
    case TransactionsIn(k) =>
      DurationCounts(b.duration, b.repCount, k);
      DroppedNothing(src, b.dropped, f);
    case ServiceTransactionsIn(k) =>
      DurationCounts(b.duration, b.repCount, k);
      DroppedNothing(src, b.dropped, f);
    case Failures => DroppedNothing(src, b.dropped, f);
    case Successes => DroppedNothing(src, b.dropped, f);
    case SpanCount => DroppedSame(src, b.dropped, f, (d: DroppedSpan) => Times(d.count, d.sum, b.repCount).count);
    case SpanSum => DroppedSame(src, b.dropped, f, (d: DroppedSpan) => Times(d.count, d.sum, b.repCount).sum);
  }

  lemma NoEventsInGroups(src: Source)
    requires src.partitions > 0
    ensures EventWeight(QuantityWeights(EventsTotal), src) == 0.0
  {
    if src.event.body.Transaction? {
      DroppedNothing(src, src.event.body.dropped, DroppedWeight(QuantityWeights(EventsTotal), src.event.body.repCount));
    }
  }

  /** For every event and any partitioning, each total of its parts is what the event's fields say: successes and
      failures are the representative count for that outcome, histograms count its thousandths, and spans are
      weighted by it. */
  lemma {:induction false} PartsTotals(q: Quantity, src: Source)
    requires src.partitions > 0
    ensures SeqSum(Messages(Parts(src)), PbTotal(q)) == EventTotal(q, src)
  {
    forall i | 0 <= i < |Parts(src)|
      ensures SingleInstance(Parts(src)[i].metrics)
    {
      PartsAreSingle(src, i);
    }
    PartsTotal(q, Parts(src));
    PartsCarry(QuantityWeights(q), src);
    SharesSumToOne(src);
    hide PbTotal, SingleInstance, Parts, PartWeight, QuantityWeights;
    if q.EventsTotal? {
      NoEventsInGroups(src);
    } else if src.event.body.Transaction? {
      TransactionTotal(q, src);
    } else {
      SpanTotal(q, src);
    }
  }

  lemma SpanTotal(q: Quantity, src: Source)
    requires src.partitions > 0 && !src.event.body.Transaction? && !q.EventsTotal?
    ensures EventWeight(QuantityWeights(q), src) == EventTotal(q, src)
  {
  }

  // ----- many events

  ghost function EventsTotals(q: Quantity, sources: seq<Source>): real
    requires Partitioned(sources)
  {
    if sources == [] then 0.0
    else EventsTotals(q, sources[..|sources| - 1]) + EventTotal(q, sources[|sources| - 1])
  }

  lemma {:induction false} OperandsTotals(q: Quantity, sources: seq<Source>)
    requires Partitioned(sources)
    ensures SeqSum(AllOperands(sources), PbTotal(q)) == EventsTotals(q, sources)
  {
    hide Parts, EventTotal, PbTotal, Messages;
    if sources != [] {
      var n := |sources| - 1;
      OperandsTotals(q, sources[..n]);
      PartsTotals(q, sources[n]);
      SeqSumAppend(AllOperands(sources[..n]), Messages(Parts(sources[n])), PbTotal(q));
    }
  }

  /** However the parts of the events are spread over keys and merged, under any limits, every total of the
      merged values is the sum of what the events' fields say. */
  lemma {:induction false} EventsAddUp(q: Quantity, limits: Limits, sources: seq<Source>, ts: seq<MergeTree>)
    requires Partitioned(sources)
    requires ValidForest(limits, ts) && multiset(ForestOperands(ts)) == multiset(AllOperands(sources))
    ensures SeqSum(Values(ts), PbTotal(q)) == EventsTotals(q, sources)
  {
    var a, b := ForestOperands(ts), AllOperands(sources);
    OperandsTotals(q, sources);
    OperandsSealed(sources);
    hide ForestOperands, AllOperands, PbTotal, ValidForest, SealedPb;
    assert forall x :: x in a <==> x in multiset(a);
    assert forall x :: x in b <==> x in multiset(b);
    AllSealedIff(a);
    AllSealedIff(b);
    ForestConserves(q, limits, ts);
    SeqSumPermutes(a, b, PbTotal(q));
  }

  // ----- what else a part says

  /** A part carries the event's service and instance keys and its received time, and no other. */
  lemma {:induction false} PartCarriesEvent(src: Source, i: nat)
    requires src.partitions > 0 && i < |Parts(src)|
    ensures var m := Parts(src)[i].metrics;
            && |m.services| == 1 && m.services[0].key == src.event.service
            && |m.services[0].instances| == 1 && m.services[0].instances[0].key == src.event.instance
            && m.youngest == src.event.received
            && |m.services[0].instances[0].spans| <= 128
  {
    hide EventMetrics, PartitionsOf, InPart, TransactionsOf, ServiceTransactionsOf, SpansOf;
  }

  /** Metrics of two events with the same group key, service and instance go to the same partition. */
  lemma {:induction false} SameGroupSamePartition(a: Source, b: Source, m: Metric, n: Metric)
    requires a.partitions == b.partitions > 0 && a.hash == b.hash
    requires a.event.service == b.event.service && a.event.instance == b.event.instance
    requires match m
             case TransactionMetric(t) => n.TransactionMetric? && n.transaction.key == t.key
             case ServiceTransactionMetric(s) => n.ServiceTransactionMetric? && n.serviceTransaction.key == s.key
             case SpanMetric(s) => n.SpanMetric? && n.span.key == s.key
             case Summary => n.Summary?
    ensures PartitionOf(a, m) == PartitionOf(b, n)
  {
  }

  lemma {:induction false} SpanListed(ms: seq<Metric>, s: Keyed<SpanKey, SpanMetrics>)
    ensures s in SpansOf(ms) <==> SpanMetric(s) in ms
  {
    if ms != [] {
      SpanListed(ms[..|ms| - 1], s);
    }
  }

  /** Every group of a part hashes to the partition of the part, its key being hashed after those of the service
      and the instance. */
  lemma {:induction false} GroupsHashToPart(src: Source, i: nat)
    requires src.partitions > 0 && i < |Parts(src)|
    ensures var part, d := Parts(src)[i], InstanceDigest(ServiceDigest(src.event.service), src.event.instance);
            var inst := part.metrics.services[0].instances[0];
            && (forall t :: t in inst.transactions ==> part.partition == src.hash(TransactionDigest(d, t.key)) % src.partitions)
            && (forall s :: s in inst.serviceTransactions ==> part.partition == src.hash(ServiceTransactionDigest(d, s.key)) % src.partitions)
            && (forall s :: s in inst.spans ==> part.partition == src.hash(SpanDigest(d, s.key)) % src.partitions)
  {
    var ms := EventMetrics(src.event.body);
    var p := PartitionsOf(src, ms)[i];
    var mine := InPart(src, ms, p);
    hide EventMetrics, PartitionsOf, InPart, TransactionsOf, ServiceTransactionsOf, SpansOf;
    var part, d := Parts(src)[i], InstanceDigest(ServiceDigest(src.event.service), src.event.instance);
    var inst := part.metrics.services[0].instances[0];
    assert part.partition == p && inst == PartInstance(src, ms, p);
    assert forall s :: s in inst.spans ==> s in SpansOf(mine);
    forall t | t in TransactionsOf(mine)
      ensures p == src.hash(TransactionDigest(d, t.key)) % src.partitions
    {
      TransactionListed(mine, t);
      InPartExact(src, ms, p, TransactionMetric(t));
    }
    forall s | s in ServiceTransactionsOf(mine)
      ensures p == src.hash(ServiceTransactionDigest(d, s.key)) % src.partitions
    {
      ServiceTransactionListed(mine, s);
      InPartExact(src, ms, p, ServiceTransactionMetric(s));
    }
    forall s | s in SpansOf(mine)
      ensures p == src.hash(SpanDigest(d, s.key)) % src.partitions
    {
      SpanListed(mine, s);
      InPartExact(src, ms, p, SpanMetric(s));
    }
  }

  ghost function LatestReceived(sources: seq<Source>): nat {
    if sources == [] then 0
    else
      var before, last := LatestReceived(sources[..|sources| - 1]), sources[|sources| - 1].event;
      if EventMetrics(last.body) != [] && before < last.received then last.received else before
  }

  lemma {:induction false} YoungestOfParts(parts: seq<Part>, received: nat)
    requires forall i :: 0 <= i < |parts| ==> parts[i].metrics.youngest == received
    ensures Youngest(Messages(parts)) == if parts == [] then 0 else received
  {
    if parts != [] {
      var n := |parts| - 1;
      YoungestOfParts(parts[..n], received);
      assert Messages(parts)[..n] == Messages(parts[..n]);
    }
  }

  /** The youngest timestamp over the operands of events is the latest time at which one of those that yield
      metrics was received. */
  lemma {:induction false} YoungestReceived(sources: seq<Source>)
    requires Partitioned(sources)
    ensures Youngest(AllOperands(sources)) == LatestReceived(sources)
  {
    if sources != [] {
      var n := |sources| - 1;
      var parts := Parts(sources[n]);
      YoungestReceived(sources[..n]);
      SharesSumToOne(sources[n]);
      forall i | 0 <= i < |parts|
        ensures parts[i].metrics.youngest == sources[n].event.received
      {
        PartCarriesEvent(sources[n], i);
      }
      hide EventMetrics, Parts;
      YoungestOfParts(parts, sources[n].event.received);
      YoungestAppend(AllOperands(sources[..n]), Messages(parts));
    }
  }
}
