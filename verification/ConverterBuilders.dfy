/** The builders that turn an event into partitioned metrics, with the pool they are reused from. */
module ConverterBuilders {
  import opened Bits
  import opened Histograms
  import opened HdrIndex
  import opened HdrHistogram
  import opened Models
  import opened Converter

  /** `eventMetricsBuilder`. The lengths of its slices say which fields are in use; all others may hold
      leftovers. `hasTransactionHistogram` is whether the transaction metrics point to the histogram. */
  datatype Builder = Builder(partition: nat,
                             histogram: Histogram,
                             transactionKey: TransactionKey,
                             hasTransactionHistogram: bool,
                             transactions: nat,
                             serviceTransactionKey: ServiceTransactionKey,
                             hasServiceTransactionHistogram: bool,
                             successCount: real,
                             failureCount: real,
                             serviceTransactions: nat,
                             spanKeys: seq<SpanKey>,
                             spanMetrics: seq<SpanMetrics>,
                             spans: nat)

  ghost predicate Allocated(b: Builder) {
    |b.spanKeys| == MAX_SPANS && |b.spanMetrics| == MAX_SPANS
  }

  ghost predicate WellFormed(b: Builder) {
    && Allocated(b) && b.spans <= MAX_SPANS && b.transactions <= 1 && b.serviceTransactions <= 1
    && (b.hasTransactionHistogram <==> b.transactions == 1)
  }

  /** `getEventMetricsBuilder`, with no builder in the pool. */
  function NewBuilder(partition: nat): (b: Builder)
    ensures WellFormed(b) && b.partition == partition
  {
    Builder(partition, [], TransactionKey([]), false, 0, ServiceTransactionKey(""), false, 0.0, 0.0, 0,
            seq(MAX_SPANS, _ => SpanKey("", "", "", "", "")), seq(MAX_SPANS, _ => SpanMetrics(0.0, 0.0)), 0)
  }

  /** `getEventMetricsBuilder`, with a builder from the pool: metrics and slices are reset, while keys and
      the histogram keep what the last event left in them. */
  function Reused(b: Builder, partition: nat): (r: Builder)
    requires Allocated(b)
    ensures WellFormed(r) && r.partition == partition
  {
    b.(partition := partition,
       hasTransactionHistogram := false, transactions := 0,
       hasServiceTransactionHistogram := false, successCount := 0.0, failureCount := 0.0, serviceTransactions := 0,
       spanMetrics := seq(MAX_SPANS, _ => SpanMetrics(0.0, 0.0)), spans := 0)
  }

  function SpansIn(b: Builder): (r: seq<Keyed<SpanKey, SpanMetrics>>)
    requires WellFormed(b)
    ensures |r| == b.spans
  {
    seq(b.spans, i requires 0 <= i < b.spans => Keyed(b.spanKeys[i], b.spanMetrics[i]))
  }

  /** The service instance metrics that a builder stands for. */
  function Instance(b: Builder, key: InstanceKey): PbInstance
    requires WellFormed(b)
  {
    var h := Some(b.histogram);
    PbInstance(key,
               if b.transactions == 0 then []
               else [Keyed(b.transactionKey, TransactionMetrics(if b.hasTransactionHistogram then h else None))],
               if b.serviceTransactions == 0 then []
               else [Keyed(b.serviceTransactionKey,
                           ServiceTransactionMetrics(if b.hasServiceTransactionHistogram then h else None,
                                                     b.failureCount, b.successCount))],
               SpansIn(b))
  }

  // ----- adding one metric

  /** A part with one more metric; spans past the 128th are left out. */
  function WithMetric(i: PbInstance, m: Metric): PbInstance {
    match m
    case TransactionMetric(t) => i.(transactions := i.transactions + [t])
    case ServiceTransactionMetric(s) => i.(serviceTransactions := i.serviceTransactions + [s])
    case SpanMetric(s) => if |i.spans| >= MAX_SPANS then i else i.(spans := i.spans + [s])
    case Summary => i
  }

  lemma PartStep(src: Source, ms: seq<Metric>, m: Metric, p: nat)
    requires src.partitions > 0
    ensures PartInstance(src, ms + [m], p)
            == if PartitionOf(src, m) == p then WithMetric(PartInstance(src, ms, p), m) else PartInstance(src, ms, p)
  {
    hide PartitionOf;
    assert (ms + [m])[..|ms|] == ms;
    var part := InPart(src, ms, p);
    assert (part + [m])[..|part|] == part;
  }

  lemma PartitionsStep(src: Source, ms: seq<Metric>, m: Metric)
    requires src.partitions > 0
    ensures var p, ps := PartitionOf(src, m), PartitionsOf(src, ms);
            PartitionsOf(src, ms + [m]) == if p in ps then ps else ps + [p]
  {
    hide PartitionOf;
    assert (ms + [m])[..|ms|] == ms;
  }

  lemma UnusedPartEmpty(src: Source, ms: seq<Metric>, p: nat)
    requires src.partitions > 0 && p !in PartitionsOf(src, ms)
    ensures PartInstance(src, ms, p) == PbInstance(src.event.instance, [], [], [])
  {
    var part := InPart(src, ms, p);
    PartitionsExact(src, ms);
    if part != [] {
      InPartExact(src, ms, p, part[0]);
    }
  }

  /** The builders, one per partition of `ps`, hold the metrics `ms`. */
  ghost predicate Holds(src: Source, builders: seq<Builder>, ps: seq<nat>, ms: seq<Metric>)
    requires src.partitions > 0
  {
    && |builders| == |ps|
    && forall i :: 0 <= i < |ps| ==>
         && builders[i].partition == ps[i] && WellFormed(builders[i])
         && Instance(builders[i], src.event.instance) == PartInstance(src, ms, ps[i])
  }

  lemma UpdateHolds(src: Source, builders: seq<Builder>, ms: seq<Metric>, m: Metric, i: nat, b: Builder)
    requires src.partitions > 0 && Holds(src, builders, PartitionsOf(src, ms + [m]), ms)
    requires i < |builders| && builders[i].partition == b.partition == PartitionOf(src, m)
    requires WellFormed(b)
    requires Instance(b, src.event.instance) == WithMetric(Instance(builders[i], src.event.instance), m)
    ensures Holds(src, builders[i := b], PartitionsOf(src, ms + [m]), ms + [m])
  {
    hide PartitionOf, PartInstance, Instance, WithMetric, WellFormed, PartitionsOf;
    var ps := PartitionsOf(src, ms + [m]);
    PartitionsExact(src, ms + [m]);
    forall j | 0 <= j < |ps|
      ensures var c := builders[i := b][j];
              c.partition == ps[j] && WellFormed(c)
              && Instance(c, src.event.instance) == PartInstance(src, ms + [m], ps[j])
    {
      PartStep(src, ms, m, ps[j]);
      if j != i {
        assert ps[j] != ps[i];
      }
    }
  }

  /** `hdrhistogram.New`, `RecordDuration` and `setHistogramProto` for a single duration. */
  method RecordOne(d: int, count: real) returns (h: Histogram)
    requires -MAX_INT64 - 1 <= d <= MAX_INT64
    ensures h == DurationHistogram(d, count)
  {
    hide CountsIndexFor, Round, CountAt;
    var hdr := new HistogramRepresentation();
    var _ := hdr.RecordDuration(d, count);
    h := hdr.countsRep.ForEach();
  }

  lemma NewIsEmpty(partition: nat, key: InstanceKey)
    ensures Instance(NewBuilder(partition), key) == PbInstance(key, [], [], [])
  {
  }

  /** A reused builder holds nothing, whatever the last event left in it. */
  lemma ReusedIsEmpty(b: Builder, partition: nat, key: InstanceKey)
    requires Allocated(b)
    ensures Instance(Reused(b, partition), key) == PbInstance(key, [], [], [])
  {
  }

  ghost predicate ValidSource(src: Source) {
    && 0 < src.partitions
    && (src.event.body.Transaction? ==> -MAX_INT64 - 1 <= src.event.body.duration <= MAX_INT64)
  }

  class PartitionedMetricsBuilder {
    var src: Source
    var builders: seq<Builder>
    /** Builders that earlier events have released. */
    var pool: seq<Builder>

    constructor (src: Source)
      ensures builders == [] && pool == []
    {
      this.src, builders, pool := src, [], [];
    }

    /** The builders hold the metrics added so far, whatever the pool held. */
    ghost predicate Built(ms: seq<Metric>)
      reads this
    {
      && ValidSource(src)
      && Holds(src, builders, PartitionsOf(src, ms), ms)
      && PoolValid()
    }

    ghost predicate PoolValid()
      reads this
    {
      forall b :: b in pool ==> Allocated(b)
    }

    /** `get`: the builder of the metric's partition, which is made or reused on first need. */
    method Get(d: Digest, ghost ms: seq<Metric>, ghost m: Metric) returns (i: nat)
      requires Built(ms) && d == DigestOf(src.event, m)
      modifies this`builders, this`pool
      ensures ValidSource(src) && PoolValid()
      ensures Holds(src, builders, PartitionsOf(src, ms + [m]), ms)
      ensures i < |builders| && builders[i].partition == PartitionOf(src, m)
    {
      hide PartInstance, DigestOf, PartitionsOf, WellFormed, Instance;
      PartitionsStep(src, ms, m);
      var partition := src.hash(d) % src.partitions;
      i := 0;
      while i < |builders|
        invariant 0 <= i <= |builders|
        invariant forall j :: 0 <= j < i ==> builders[j].partition != partition
      {
        if builders[i].partition == partition {
          assert PartitionsOf(src, ms)[i] == partition;
          return;
        }
        i := i + 1;
      }
      ghost var ps := PartitionsOf(src, ms);
      assert partition !in ps;
      UnusedPartEmpty(src, ms, partition);
      var mb := NewBuilder(partition);
      NewIsEmpty(partition, src.event.instance);
      if |pool| > 0 {
        assert pool[0] in pool;
        mb := Reused(pool[0], partition);
        ReusedIsEmpty(pool[0], partition, src.event.instance);
        pool := pool[1..];
      }
      builders := builders + [mb];
    }

    method AddTransactionMetrics(key: TransactionKey, count: real, duration: int, ghost ms: seq<Metric>)
      requires Built(ms) && TransactionsOf(ms) == [] && ServiceTransactionsOf(ms) == []
      requires -MAX_INT64 - 1 <= duration <= MAX_INT64
      modifies this`builders, this`pool
      ensures Built(ms + [TransactionMetric(Keyed(key, TransactionMetrics(Some(DurationHistogram(duration, count)))))])
    {
      hide DurationHistogram, PartitionOf, PartitionsOf, PartInstance, Instance, WithMetric, WellFormed, TransactionsOf,
           ServiceTransactionsOf;
      ghost var m := TransactionMetric(Keyed(key, TransactionMetrics(Some(DurationHistogram(duration, count)))));
      var i := Get(TransactionDigest(InstanceDigest(ServiceDigest(src.event.service), src.event.instance), key), ms, m);
      var h := RecordOne(duration, count);
      WithTransaction(src, builders[i], ms, key, h);
      var mb := builders[i].(transactionKey := key, histogram := h, hasTransactionHistogram := true, transactions := 1);
      UpdateHolds(src, builders, ms, m, i, mb);
      builders := builders[i := mb];
    }

    method AddServiceTransactionMetrics(key: ServiceTransactionKey, count: real, duration: int, outcome: string,
                                        ghost ms: seq<Metric>)
      requires Built(ms) && ServiceTransactionsOf(ms) == []
      requires forall t :: t in TransactionsOf(ms) ==> t.metrics.histogram == Some(DurationHistogram(duration, count))
      requires -MAX_INT64 - 1 <= duration <= MAX_INT64
      modifies this`builders, this`pool
      ensures Built(ms + [ServiceTransactionMetric(Keyed(key, OutcomeMetrics(count, duration, outcome)))])
    {
      hide DurationHistogram, PartitionOf, PartitionsOf, PartInstance, Instance, WithMetric, TransactionsOf,
           ServiceTransactionsOf;
      ghost var m := ServiceTransactionMetric(Keyed(key, OutcomeMetrics(count, duration, outcome)));
      var i := Get(ServiceTransactionDigest(InstanceDigest(ServiceDigest(src.event.service), src.event.instance), key), ms, m);
      var mb := builders[i].(serviceTransactionKey := key);
      if !mb.hasTransactionHistogram {
        // Set already if the event's transaction metric is in the same partition.
        var h := RecordOne(duration, count);
        mb := mb.(histogram := h);
      } else {
        SharedHistogram(src, builders[i], ms, DurationHistogram(duration, count));
      }
      mb := mb.(hasServiceTransactionHistogram := true);
      if outcome == "failure" {
        mb := mb.(successCount := 0.0, failureCount := count);
      } else if outcome == "success" {
        mb := mb.(successCount := count, failureCount := 0.0);
      } else {
        mb := mb.(successCount := 0.0, failureCount := 0.0);
      }
      mb := mb.(serviceTransactions := 1);
      WithServiceTransaction(src, builders[i], ms, mb, m.serviceTransaction);
      UpdateHolds(src, builders, ms, m, i, mb);
      builders := builders[i := mb];
    }

    /** Dropped span statistics and spans; the 129th entry of a part is discarded. */
    method AddSpanMetrics(key: SpanKey, metrics: SpanMetrics, ghost ms: seq<Metric>)
      requires Built(ms)
      modifies this`builders, this`pool
      ensures Built(ms + [SpanMetric(Keyed(key, metrics))])
    {
      hide PartitionOf, PartitionsOf, PartInstance, Instance, WithMetric;
      ghost var m := SpanMetric(Keyed(key, metrics));
      var i := Get(SpanDigest(InstanceDigest(ServiceDigest(src.event.service), src.event.instance), key), ms, m);
      var n := builders[i].spans;
      if n == MAX_SPANS {
        WithSpan(builders[i], builders[i], src.event.instance, key, metrics);
        UpdateHolds(src, builders, ms, m, i, builders[i]);
        assert builders[i := builders[i]] == builders;
        return;
      }
      var mb := builders[i].(spanKeys := builders[i].spanKeys[n := key],
                             spanMetrics := builders[i].spanMetrics[n := metrics],
                             spans := n + 1);
      WithSpan(builders[i], mb, src.event.instance, key, metrics);
      UpdateHolds(src, builders, ms, m, i, mb);
      builders := builders[i := mb];
    }

    method AddServiceSummaryMetrics(ghost ms: seq<Metric>)
      requires Built(ms)
      modifies this`builders, this`pool
      ensures Built(ms + [Summary])
    {
      hide PartitionOf, PartitionsOf, PartInstance, Instance;
      var i := Get(InstanceDigest(ServiceDigest(src.event.service), src.event.instance), ms, Summary);
      UpdateHolds(src, builders, ms, Summary, i, builders[i]);
      assert builders[i := builders[i]] == builders;
    }

    /** `processEvent`: the builders end up with the event's metrics, all of them. */
    method ProcessEvent()
      requires Built([])
      modifies this`builders, this`pool
      ensures Built(EventMetrics(src.event.body))
    {
      hide Holds, PartitionsOf;
      match src.event.body
      case Transaction(repCount, duration, tk, sk, outcome, dropped) =>
        if repCount <= 0.0 {
          return;
        }
        ProcessTransaction(repCount, duration, tk, sk, outcome, dropped);
      case Span(repCount, hasTarget, destination, key, count, duration) =>
        if repCount <= 0.0 || (!hasTarget && destination == "") {
          return;
        }
        var metrics := ScaledSpan(count, duration, repCount);
        AddSpanMetrics(key, metrics, []);
        assert [] + [SpanMetric(Keyed(key, metrics))] == [SpanMetric(Keyed(key, metrics))];
      case Other =>
        AddServiceSummaryMetrics([]);
        assert [] + [Summary] == [Summary];
    }

    method ProcessTransaction(repCount: real, duration: int, tk: TransactionKey, sk: ServiceTransactionKey,
                              outcome: string, dropped: seq<DroppedSpan>)
      requires Built([]) && src.event.body == Transaction(repCount, duration, tk, sk, outcome, dropped) && repCount > 0.0
      modifies this`builders, this`pool
      ensures Built(EventMetrics(src.event.body))
    {
      ghost var t := Keyed(tk, TransactionMetrics(Some(DurationHistogram(duration, repCount))));
      ghost var s := Keyed(sk, OutcomeMetrics(repCount, duration, outcome));
      ghost var ms := [TransactionMetric(t)];
      OneTransaction(t);
      hide Holds, DurationHistogram, TransactionsOf, ServiceTransactionsOf;
      AddTransactionMetrics(tk, repCount, duration, []);
      assert [] + ms == ms;
      AddServiceTransactionMetrics(sk, repCount, duration, outcome, ms);
      ms := ms + [ServiceTransactionMetric(s)];
      ghost var two := ms;
      for i := 0 to |dropped|
        invariant Built(ms) && src == old(src)
        invariant ms == two + DroppedMetrics(dropped, repCount)[..i]
      {
        var d := dropped[i];
        AddSpanMetrics(d.key, ScaledSpan(d.count, d.sum, repCount), ms);
        ms := ms + [DroppedMetric(d, repCount)];
        assert DroppedMetrics(dropped, repCount)[..i + 1]
               == DroppedMetrics(dropped, repCount)[..i] + [DroppedMetrics(dropped, repCount)[i]];
      }
      assert DroppedMetrics(dropped, repCount)[..|dropped|] == DroppedMetrics(dropped, repCount);
      assert two == [TransactionMetric(t), ServiceTransactionMetric(s)];
    }

    /** `release`. */
    method Release(ghost ms: seq<Metric>)
      requires Built(ms)
      modifies this`builders, this`pool
      ensures builders == [] && PoolValid()
    {
      pool := pool + builders;
      builders := [];
    }

    /** `EventToCombinedMetrics`: what is emitted depends on the event alone, not on what the pool held. */
    method EventToCombinedMetrics(source: Source) returns (parts: seq<Part>)
      requires ValidSource(source) && builders == [] && PoolValid()
      modifies this
      ensures parts == Parts(source)
      ensures builders == [] && PoolValid()
    {
      src := source;
      assert PartitionsOf(src, []) == [];
      hide EventMetrics, PartInstance, PartitionsOf;
      ProcessEvent();
      ghost var ms := EventMetrics(source.event.body);
      if |builders| == 0 {
        Release(ms);
        return [];
      }
      parts := Emit();
      Release(ms);
    }

    /** The callbacks, one per builder, each with an equal share of the event. */
    method Emit() returns (parts: seq<Part>)
      requires Built(EventMetrics(src.event.body)) && |builders| > 0
      ensures parts == Parts(src)
    {
      hide EventMetrics, PartInstance, PartitionsOf, PartitionOf, Instance;
      parts := [];
      var share := 1.0 / |builders| as real;
      for i := 0 to |builders|
        invariant parts == Parts(src)[..i]
      {
        var mb := builders[i];
        var metrics := PbCombined([PbService(src.event.service, [Instance(mb, src.event.instance)], None)],
                                  None, None, share, src.event.received);
        assert Parts(src)[i] == Part(mb.partition, metrics);
        parts := parts + [Part(mb.partition, metrics)];
      }
      assert Parts(src)[..|builders|] == Parts(src);
    }
  }

  function OutcomeMetrics(count: real, duration: int, outcome: string): ServiceTransactionMetrics {
    ServiceTransactionMetrics(Some(DurationHistogram(duration, count)),
                              if outcome == "failure" then count else 0.0,
                              if outcome == "success" then count else 0.0)
  }

  lemma OneTransaction(t: Keyed<TransactionKey, TransactionMetrics>)
    ensures TransactionsOf([]) == [] && TransactionsOf([TransactionMetric(t)]) == [t]
    ensures ServiceTransactionsOf([]) == [] && ServiceTransactionsOf([TransactionMetric(t)]) == []
  {
    assert [TransactionMetric(t)][..0] == [];
  }

  lemma NoTransactionYet(src: Source, ms: seq<Metric>, p: nat)
    requires src.partitions > 0
    ensures TransactionsOf(ms) == [] ==> TransactionsOf(InPart(src, ms, p)) == []
    ensures ServiceTransactionsOf(ms) == [] ==> ServiceTransactionsOf(InPart(src, ms, p)) == []
  {
    var part := InPart(src, ms, p);
    if TransactionsOf(part) != [] {
      var t := TransactionsOf(part)[0];
      TransactionListed(part, t);
      InPartExact(src, ms, p, TransactionMetric(t));
      TransactionListed(ms, t);
    }
    if ServiceTransactionsOf(part) != [] {
      var t := ServiceTransactionsOf(part)[0];
      ServiceTransactionListed(part, t);
      InPartExact(src, ms, p, ServiceTransactionMetric(t));
      ServiceTransactionListed(ms, t);
    }
  }

  /** A builder that holds its part of `ms`. */
  ghost predicate Shows(src: Source, b: Builder, ms: seq<Metric>)
    requires src.partitions > 0
  {
    WellFormed(b) && Instance(b, src.event.instance) == PartInstance(src, ms, b.partition)
  }

  lemma WithTransaction(src: Source, b: Builder, ms: seq<Metric>, key: TransactionKey, h: Histogram)
    requires src.partitions > 0 && Shows(src, b, ms) && TransactionsOf(ms) == [] && ServiceTransactionsOf(ms) == []
    ensures var b' := b.(transactionKey := key, histogram := h, hasTransactionHistogram := true, transactions := 1);
            && WellFormed(b')
            && Instance(b', src.event.instance)
               == WithMetric(Instance(b, src.event.instance), TransactionMetric(Keyed(key, TransactionMetrics(Some(h)))))
  {
    NoTransactionYet(src, ms, b.partition);
  }

  lemma SharedHistogram(src: Source, b: Builder, ms: seq<Metric>, h: Histogram)
    requires src.partitions > 0 && Shows(src, b, ms) && b.hasTransactionHistogram
    requires forall t :: t in TransactionsOf(ms) ==> t.metrics.histogram == Some(h)
    ensures b.histogram == h
  {
    var part := InPart(src, ms, b.partition);
    var t := TransactionsOf(part)[0];
    TransactionListed(part, t);
    InPartExact(src, ms, b.partition, TransactionMetric(t));
    TransactionListed(ms, t);
  }

  lemma WithServiceTransaction(src: Source, b: Builder, ms: seq<Metric>, b': Builder,
                               s: Keyed<ServiceTransactionKey, ServiceTransactionMetrics>)
    requires src.partitions > 0 && Shows(src, b, ms) && ServiceTransactionsOf(ms) == []
    requires b' == b.(serviceTransactionKey := s.key, histogram := b'.histogram, hasServiceTransactionHistogram := true,
                      successCount := s.metrics.successCount, failureCount := s.metrics.failureCount,
                      serviceTransactions := 1)
    requires s.metrics.histogram == Some(b'.histogram) && (b.hasTransactionHistogram ==> b'.histogram == b.histogram)
    ensures WellFormed(b')
    ensures Instance(b', src.event.instance)
            == WithMetric(Instance(b, src.event.instance), ServiceTransactionMetric(s))
  {
    NoTransactionYet(src, ms, b.partition);
    assert SpansIn(b') == SpansIn(b);
  }

  lemma WithSpan(b: Builder, b': Builder, key: InstanceKey, span: SpanKey, metrics: SpanMetrics)
    requires WellFormed(b)
    requires b' == if b.spans == MAX_SPANS then b
                   else b.(spanKeys := b.spanKeys[b.spans := span], spanMetrics := b.spanMetrics[b.spans := metrics],
                           spans := b.spans + 1)
    ensures WellFormed(b')
    ensures Instance(b', key) == WithMetric(Instance(b, key), SpanMetric(Keyed(span, metrics)))
  {
    if b.spans < MAX_SPANS {
      assert SpansIn(b') == SpansIn(b) + [Keyed(span, metrics)];
    }
  }
}
