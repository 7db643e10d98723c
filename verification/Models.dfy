/** The state of a merge (`combinedMetrics` and what it is made of), the messages it is read from
    and written to, and the rules for adding one set of metric values to another. */
module Models {
  import opened Histograms

  // ----- aggregation keys

  datatype ServiceKey = ServiceKey(timestamp: nat, serviceName: string, serviceEnvironment: string,
                                   serviceLanguageName: string, agentName: string)
  datatype InstanceKey = InstanceKey(globalLabels: seq<char>)
  /** All 29 fields of a transaction key; merging only compares them for equality. */
  datatype TransactionKey = TransactionKey(fields: seq<string>)
  datatype ServiceTransactionKey = ServiceTransactionKey(transactionType: string)
  datatype SpanKey = SpanKey(spanName: string, outcome: string, targetType: string, targetName: string, resource: string)

  /** What is fed to xxhash before a key is inserted in a sketch. */
  datatype Digest =
    | ServiceDigest(service: ServiceKey)
    | InstanceDigest(prefix: Digest, instance: InstanceKey)
    | TransactionDigest(prefix: Digest, transaction: TransactionKey)
    | ServiceTransactionDigest(prefix: Digest, serviceTransaction: ServiceTransactionKey)
    | SpanDigest(prefix: Digest, span: SpanKey)

  /** A HyperLogLog sketch is known by the set of inputs whose hashes it has seen. */
  type Sketch = set<Digest>

  function InsertHash(to: Option<Sketch>, d: Digest): Option<Sketch> {
    match to
    case None => Some({d})
    case Some(s) => Some(s + {d})
  }

  function MergeEstimator(to: Option<Sketch>, from: Sketch): Option<Sketch> {
    match to
    case None => Some(from)
    case Some(s) => Some(s + from)
  }

  // ----- metric values

  datatype TransactionMetrics = TransactionMetrics(histogram: Option<Histogram>)
  datatype ServiceTransactionMetrics =
    ServiceTransactionMetrics(histogram: Option<Histogram>, failureCount: real, successCount: real)
  datatype SpanMetrics = SpanMetrics(count: real, sum: real)

  function MergeOptional(to: Option<Histogram>, from: Option<Histogram>): Option<Histogram> {
    match from
    case None => to
    case Some(f) =>
      var t: Histogram := if to.Some? then to.value else [];
      Some(Merge(t, f))
  }

  function MergeTransactionMetrics(to: TransactionMetrics, from: TransactionMetrics): TransactionMetrics {
    TransactionMetrics(MergeOptional(to.histogram, from.histogram))
  }

  function MergeServiceTransactionMetrics(to: ServiceTransactionMetrics, from: ServiceTransactionMetrics): ServiceTransactionMetrics {
    ServiceTransactionMetrics(MergeOptional(to.histogram, from.histogram),
                              to.failureCount + from.failureCount,
                              to.successCount + from.successCount)
  }

  function MergeSpanMetrics(to: SpanMetrics, from: SpanMetrics): SpanMetrics {
    SpanMetrics(to.count + from.count, to.sum + from.sum)
  }

  /** How one kind of metrics is added up, and the empty message it starts from. */
  datatype Ops<!M> = Ops(zero: M, add: (M, M) -> M)

  const TransactionOps: Ops<TransactionMetrics> := Ops(TransactionMetrics(None), MergeTransactionMetrics)
  const ServiceTransactionOps: Ops<ServiceTransactionMetrics> :=
    Ops(ServiceTransactionMetrics(None, 0.0, 0.0), MergeServiceTransactionMetrics)
  const SpanOps: Ops<SpanMetrics> := Ops(SpanMetrics(0.0, 0.0), MergeSpanMetrics)

  // ----- groups, overflow buckets and the merge state

  datatype Keyed<K, M> = Keyed(key: K, metrics: M)

  /** An overflow bucket: accumulated metrics and the sketch of the keys that went into them. */
  datatype Bucket<M> = Bucket(metrics: Option<M>, estimator: Option<Sketch>)

  function EmptyBucket<M>(): Bucket<M> { Bucket(None, None) }

  datatype Overflow = Overflow(transactions: Bucket<TransactionMetrics>,
                               serviceTransactions: Bucket<ServiceTransactionMetrics>,
                               spans: Bucket<SpanMetrics>)

  const EmptyOverflow := Overflow(EmptyBucket(), EmptyBucket(), EmptyBucket())

  type TransactionGroups = map<TransactionKey, Keyed<TransactionKey, TransactionMetrics>>
  type ServiceTransactionGroups = map<ServiceTransactionKey, Keyed<ServiceTransactionKey, ServiceTransactionMetrics>>
  type SpanGroups = map<SpanKey, Keyed<SpanKey, SpanMetrics>>

  datatype InstanceMetrics = InstanceMetrics(transactions: TransactionGroups,
                                             serviceTransactions: ServiceTransactionGroups,
                                             spans: SpanGroups)
  const EmptyInstance := InstanceMetrics(map[], map[], map[])

  datatype ServiceMetrics = ServiceMetrics(instances: map<InstanceKey, InstanceMetrics>, overflow: Overflow)
  const EmptyService := ServiceMetrics(map[], EmptyOverflow)

  datatype CombinedMetrics = CombinedMetrics(services: map<ServiceKey, ServiceMetrics>,
                                             overflowServices: Overflow,
                                             estimator: Option<Sketch>,
                                             eventsTotal: real,
                                             youngest: nat)
  const EmptyCombined := CombinedMetrics(map[], EmptyOverflow, None, 0.0, 0)

  // ----- messages

  datatype PbInstance = PbInstance(key: InstanceKey,
                                   transactions: seq<Keyed<TransactionKey, TransactionMetrics>>,
                                   serviceTransactions: seq<Keyed<ServiceTransactionKey, ServiceTransactionMetrics>>,
                                   spans: seq<Keyed<SpanKey, SpanMetrics>>)

  /** `overflow` is `Overflow` with both metrics and estimator bytes optional in each field pair. */
  datatype PbService = PbService(key: ServiceKey, instances: seq<PbInstance>, overflow: Option<Overflow>)

  datatype PbCombined = PbCombined(services: seq<PbService>,
                                   overflowServices: Option<Overflow>,
                                   estimator: Option<Sketch>,
                                   eventsTotal: real,
                                   youngest: nat)

  datatype Limits = Limits(maxServices: nat,
                           maxInstancesPerService: nat,
                           maxTransactions: nat, maxTransactionsPerInstance: nat,
                           maxServiceTransactions: nat, maxServiceTransactionsPerInstance: nat,
                           maxSpans: nat, maxSpansPerInstance: nat)
}
