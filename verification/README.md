# Verified model of an LSM-backed metrics aggregator

The aggregator turns application events into partial metrics, stores them as merge operands in an
ordered key-value store (pebble), and periodically hands the merged metrics of each aggregation
interval to a Processor. This project models its core in Dafny and proves what the design promises:

- **No loss in merging.** Pebble may combine operands in any order and bracketing, and each partial
  result is serialized and read again. For every such merge tree, under any limits, all totals (events,
  per-bucket histogram counts, successes, failures, span counts and sums) and the youngest timestamp are
  those of the operands (`MergerTotals`). When the distinct keys fit the limits, the result is the keyed
  pointwise sum, group by group (`MergerExact`). Every reachable state is within all limits, with exact
  counters (`MergerLimits`).
- **Where everything goes.** Past the limits too, each group and each overflow bucket of an operand ends up
  whole in one item of the result: under its own keys, without its span name, in the overflow of its service
  or in the overflow services. Every item is exactly the sum of what ended up in it (`Regrouping`). Which
  groups are kept is determined exactly (`GroupPlacement`), and the service instance estimator has seen
  exactly the instances that were diverted anywhere in the tree (`OverflowEstimators`).
- **Delivery once.** Writers, the harvester that works outside the lock and the final harvest of Close
  are interleaved steps. In every run each contribution is handed over at most once per interval, and
  exactly once when Close has finished (`AggregatorSafety`). Among all configurations that
  validation accepts this holds exactly for those without equal neighbouring intervals. Cached event
  counts are loaded once as well, with the harvest of their batch (`CachedRuns`).
- **Events end to end.** An event is split over partitions with shares that sum to 1 (`Converter`), and its
  parts carry each of its metrics once (`EventTotals`). When Close has finished, every total over all
  Processor calls of an interval (events, successes, failures, histogram counts, spans) is the sum of what
  the fields of the aggregated events say (`Delivery`).
- **Histograms.** The in-place merge of two sparse histograms refines pointwise addition
  (`HistogramMerge`). The HDR index arithmetic, its iterator and the hybrid counts refine simple
  definitions (`HdrIndex`, `HdrHistogram`, `HdrCounts`).
- **Wire formats.** Varints, packed fields, labels and database keys round-trip; label bytes are
  canonical, and key bytes sort as the keys do (`Varint`, `HdrWire`, `Labels`, `KeyCodec`). Every byte is
  fixed by the wire format and the field numbers of the messages (`WireLayout`).

## Layout

| files | content |
|---|---|
| Histograms, HistogramMerge | merged histograms and the in-place merge on arrays |
| Models, Groups, MergerSpec, Merger, MergerCodec | merge state, limits and overflow, the merger class, serialization |
| Sums, KeyedSums, MergerTotals, MergerLimits, MergerExact | conservation, limits, and the in-limit keyed sum over merge trees |
| Places, Placement, Regrouping, GroupPlacement, OverflowEstimators | where every group and bucket goes past the limits, and what the sketches have seen |
| OperandLoss, HarmlessOperands, ServiceLimits | what a merge can lose, exactly which operands can lose it, and when a limit holds per service |
| Converter, ConverterBuilders, EventOperands, EventTotals, Delivery | events to partitioned operands, pooled builders, the totals of events, end-to-end delivery |
| ConfigValidation, AggregatorSpec, AggregatorSafety, AcceptedEntries, Aggregator, CachedEvents, CachedRuns | interval checks, the step system, its safety, what runs accept, the class, cached event counts and their loads along runs |
| Bits, HdrIndex, HdrCounts, HdrHistogram | HDR index arithmetic, hybrid counts, recording and reporting |
| Varint, Wire, WireFields, WireLoops, HdrWire, HdrMarshal, WireLayout | varints, records, the HDRHistogram message, the bytes of all messages and keys |
| ByteOrder, LabelWire, LabelBuffers, Labels, LabelMarshal, KeyCodec, KeyWindows | byte order, label messages, canonical label sets, database keys, harvest windows as key ranges |

Operations that the program performs step by step are methods or classes. Each is proved equal to a
function of its inputs or of the old state, and the properties are lemmas about those functions.

## Modelling decisions

- Floating point sums are reals. Doubles on the wire are 64-bit patterns. Counts are unbounded integers;
  int32 subtraction in the histogram comparison, sign extension and truncation of varints are explicit.
- A HyperLogLog sketch is the set of inputs whose hashes it has seen, or nil. The hash that chooses a
  partition is an arbitrary function.
- A map that Go ranges over in arbitrary order has many encodings; theorems hold for each of them.
- Protocol times are nanoseconds since Go's zero time, to which Truncate refers; keys hold Unix seconds,
  and `KeyWindows` shows that rounding down does not change what a harvest finds. Writes, the tick, the
  commit, the snapshot, each hand-over and each range delete are separate steps. A commit in the middle
  of a batch may happen after any operand. Aggregators start at least 18 hours after the Unix epoch, so
  that no window begins before it.
- An operand of a merge is *sealed* when its overflow is stored together with the estimators that
  serialization looks at. Operands of events are sealed, and merging and serializing keep that.
- The ID and the number of events of a batch are added to its write step when cached counts are followed.

## Where the code differs from its description

- The limits documented per service (aggregators/models.go:37-61) are enforced per service instance, since
  a fresh counter is made for each instance (aggregators/merger.go:148-151). `ServiceLimits` gives a run
  that exceeds the documented limit and says exactly under which limits no run does.
- The order check on intervals lets equal neighbours through (aggregators/config.go:211). Such a
  configuration hands contributions over twice: `AggregatorSafety.EqualNeighboursRepeat`.
- A lowest interval of zero beside a larger one makes validation divide by zero (aggregators/config.go:220)
  before the check that would reject it: `ConfigValidation.ValidateIntervals`.
- Delivery once does not need the ascending order of the loop in Close, only distinct multiples of the
  first interval: `ValidConfig` asks for no order. That event counts are loaded with the harvest of their
  batch is stated for the ascending order that validation asks for: `CachedRuns.LoadedWithHarvest`.
- Reading a key from 12 to 27 bytes passes the length check (aggregators/codec.go:64) and then slices past
  the end of the data: `KeyCodec.UnmarshalBinary`.
- An operand that stores overflow without the service instance estimator can lose it when it is merged and
  encoded. Events make no such operand; `HarmlessOperands.PreservedIff` says exactly which operands keep
  their totals in every merge with sealed ones.
- A zero count for bucket 0 that is recorded first leaves no bar, because the inline form of that bar is
  the empty record (aggregators/internal/hdrhistogram/hdrhistogram.go:304).
- After an empty inline record, Get reports bucket 0 as found with count 0
  (aggregators/internal/hdrhistogram/hdrhistogram.go:349); `HdrCounts.HybridCountsRep.Get` says so.
- An int64 time before the Unix epoch sorts after later ones: `KeyCodec.OrderPreservedIff` says exactly when
  byte order is key order.

## Model

| member | source | states |
|---|---|---|
| `Histograms.MergeBuckets` | aggregators/merger.go:388-455 | the merged buckets are exactly the union of the two bucket sets |
| `Histograms.MergeSorted` | aggregators/merger.go:388-455 | two strictly sorted histograms merge into a strictly sorted one |
| `Histograms.MergeCounts` | aggregators/merger.go:388-455 | in every bucket the merged count is the sum of the two counts |
| `Histograms.Canonical` | aggregators/merger.go:388-455 | a sorted histogram is determined by its buckets and counts, so the three facts above fix the result |
| `Histograms.MergeCommutes` | aggregators/merger.go:388-455 | the order of two histograms does not matter |
| `Histograms.MergeAssociates` | aggregators/merger.go:388-455 | the bracketing of three histograms does not matter |
| `HistogramMerge.MergedSize` | aggregators/merger.go:410-424 | the counting pass is exact: the union has &#124;to&#124; + &#124;from&#124; minus the number of shared buckets |
| `HistogramMerge.SharedIsIntersection` | aggregators/merger.go:410-424 | what the counting pass counts is the size of the intersection |
| `HistogramMerge.Find` | aggregators/merger.go:399-401 | `sort.Find` with the int32 difference as comparison returns the insertion point and whether the key is there |
| `HistogramMerge.RequiredLength` | aggregators/merger.go:410-424 | the counting pass returns the length of the merged slices, starting at the insertion point |
| `HistogramMerge.PlaceNext` | aggregators/merger.go:438-453 | one turn of the backward pass writes the next largest bar and overwrites no entry of `to` that is still to be read |
| `HistogramMerge.FillBackward` | aggregators/merger.go:426-455 | the backward pass with its early bulk copy leaves exactly the merged bars in the two slices |
| `HistogramMerge.MergeHistogram` | aggregators/merger.go:388-455 | in place, `to` becomes the merge of both histograms and stays sorted, and `from` keeps its contents |
| `Groups.MergeGroupsConserves` | aggregators/merger.go:184-284 | for each kind of group, kept groups plus the overflow bucket gain exactly what the merged groups weigh, whatever the limits |
| `Groups.DivertAllConserves` | aggregators/merger.go:286-306 | diverting a whole instance adds its weight to the overflow bucket |
| `Groups.MergeGroupsKeeps` | aggregators/merger.go:184-284 | per-instance and global limits, the exact counter difference, embedded keys and paired overflow buckets are kept |
| `Groups.NamedSpansBounded` | aggregators/merger.go:254-283 | at most half of the span limit of an instance is ever taken by groups with a span name |
| `Merger.MergeTransactionGroups` | aggregators/merger.go:184-214 | the loop over transaction groups computes the specified groups, overflow bucket and global counter |
| `Merger.MergeServiceTransactionGroups` | aggregators/merger.go:216-245 | the same for service transaction groups |
| `Merger.MergeSpanGroups` | aggregators/merger.go:247-284 | the same for span groups, with the span name dropped once half of the limit is taken |
| `Merger.MergeToOverflow` | aggregators/merger.go:286-306 | all groups of an instance go to the overflow buckets with their hashes |
| `Merger.CombinedMetricsMerger.constructor` | aggregators/merger.go:501-513 | an empty merger has empty metrics and zero counters |
| `Merger.CombinedMetricsMerger.MergeInstanceGroups` | aggregators/merger.go:145-177 | the three kinds of an instance are merged with fresh per-instance and shared global constraints |
| `Merger.CombinedMetricsMerger.MergeServiceInstanceGroups` | aggregators/merger.go:118-180 | instances are merged into their service, or diverted to its overflow with the estimator updated |
| `Merger.CombinedMetricsMerger.DivertService` | aggregators/merger.go:93-102 | the instances of a service without room go to the overflow services bucket |
| `Merger.CombinedMetricsMerger.MergeOneService` | aggregators/merger.go:87-115 | a service is merged when known or when there is room, and diverted otherwise |
| `Merger.CombinedMetricsMerger.MergeTotals` | aggregators/merger.go:53-69 | events total, youngest timestamp, and overflow services when the operand has an estimator |
| `Merger.CombinedMetricsMerger.MergeServiceList` | aggregators/merger.go:71-115 | all services of an operand, in order |
| `Merger.CombinedMetricsMerger.MergeOperand` | aggregators/merger.go:26-116 | feeding one operand takes the merger to the specified next state |
| `MergerCodec.EncodeGroups` | aggregators/codec.go:168-187 | the groups of one kind are listed, each once, in any map order |
| `MergerCodec.EncodeInstances` | aggregators/codec.go:139-187 | the instances of a service are listed, each once, with all their groups |
| `MergerCodec.EncodeServices` | aggregators/codec.go:97-154 | the services are listed, each once, with their instances and overflow |
| `MergerCodec.ToProto` | aggregators/codec.go:97-117 | serialization emits one of the encodings of the state; overflow services only with an estimator |
| `MergerTotals.MergeOverflowConserves` | aggregators/merger.go:308-320 | merging overflow adds up every total and keeps metrics and estimators paired |
| `MergerTotals.MergeServiceConserves` | aggregators/merger.go:87-115 | merging a service adds its totals, kept or diverted, and keeps the state sealed |
| `MergerTotals.MergeMessageConserves` | aggregators/merger.go:53-116 | one operand adds its totals, takes the later timestamp and keeps the state sealed: overflow implies its estimators |
| `MergerTotals.EncodingConserves` | aggregators/codec.go:97-116 | every encoding of a sealed state carries the same totals and is sealed again, so serialization loses no overflow |
| `MergerTotals.TreeConserves` | aggregators/merger.go:26-116 | for every merge tree, with a serialization at each inner node, every total of the result is the sum over the operands, the timestamp is their maximum, and the result is sealed |
| `MergerTotals.YoungestIsMax` | aggregators/merger.go:58-60 | the youngest timestamp is the maximum over the operands |
| `MergerTotals.TreesAgree` | aggregators/merger.go:26-116 | two merge trees over the same operands agree on every total and on the timestamp, whatever their order, bracketing and limits |
| `MergerLimits.MergeMessageWithin` | aggregators/merger.go:53-116 | one operand keeps every limit and the exactness of the three global counters |
| `MergerLimits.MergeAllWithin` | aggregators/merger.go:118-284 | every reachable state has services, instances per service, groups per instance and global totals within their limits, with each counter equal to the number of stored groups |
| `MergerLimits.EncodedKeysDistinct` | aggregators/codec.go:168-187 | listing only the stored values never lists a key twice, and lists every key |
| `MergerExact.CombinedLaws` | aggregators/merger.go:53-116 | keyed pointwise sums are commutative and associative, with the empty state as zero |
| `MergerExact.GroupsExact` | aggregators/merger.go:184-284 | groups whose keys fit the limits are merged into the keyed pointwise sum, with no overflow |
| `MergerExact.InstanceExact` | aggregators/merger.go:145-177 | the same for an instance, span groups fitting half of their limit |
| `MergerExact.MessageExact` | aggregators/merger.go:53-116 | an operand whose keys fit together with the state is added pointwise |
| `MergerExact.MergeAllExact` | aggregators/merger.go:26-116 | operands that fit together merge into their keyed pointwise sum |
| `MergerExact.EncodingExact` | aggregators/codec.go:97-187 | reading back an encoding gives the state |
| `MergerExact.TreeExact` | aggregators/merger.go:26-116 | for every merge tree whose operands fit the limits together, the result is the keyed pointwise sum of the operands |
| `MergerExact.FittingTreesAgree` | aggregators/merger.go:26-116 | fitting merges do not depend on order and bracketing, group by group |
| `MergerExact.PlainSumClean` | aggregators/merger.go:87-284 | operands without overflow sum to a state without overflow |
| `EventOperands.PartsAreSingle` | aggregators/converter.go:332-386 | what an event becomes has one service, one instance and no overflow, and is sealed |
| `EventOperands.FittingEventsDoNotOverflow` | aggregators/merger.go:87-284 | within the limits, merging the operands of events creates no overflow in any order and bracketing |
| `EventOperands.EventsCountedOnce` | aggregators/aggregator.go:319-337 | however the parts of the events are spread over keys and merged, the events totals add up to the number of events that yield metrics |
| `Regrouping.MergeMessageFlows` | aggregators/merger.go:53-116 | every group and overflow bucket of a merged operand goes, as a whole, to one place that it may move to, and no other place changes |
| `Regrouping.EncodingLists` | aggregators/codec.go:91-180 | every encoding of a sealed state lists what the state holds, each place once |
| `Regrouping.TreeRegroups` | aggregators/merger.go:53-180 | for every merge tree and all limits, each group and overflow bucket of an operand ends up whole in one item of the root (its own place, without span name, its service's overflow, the overflow services), and every item of the root is exactly the sum of those that did |
| `Regrouping.KeptGroupsAreOwn` | aggregators/merger.go:118-284 | so a kept group is the sum of operand groups with the same service, instance and group keys, but for a dropped span name, and of nothing else |
| `Places.RegroupedTwice` | aggregators/merger.go:388-455 | regrouping composes: adding up sums is adding up the items |
| `GroupPlacement.GroupsPlaced` | aggregators/merger.go:184-284 | whatever the limits, each kept group is the sum of all groups that its key stands for, the overflow bucket is the sum of all others and has seen exactly their hashes, and there are others only when a limit is reached |
| `GroupPlacement.InstanceGroupsPlaced` | aggregators/merger.go:145-177 | the same for the three kinds of an instance, spans with their names dropped past half of the limit |
| `GroupPlacement.DivertAllPlaced` | aggregators/merger.go:286-306 | diverting adds up all metrics and inserts exactly the hashes of all keys |
| `OverflowEstimators.GroupWithoutRoom` | aggregators/merger.go:198-206 | a group past its limit leaves the kept groups and the counter unchanged; the bucket gains its weight and its hash |
| `OverflowEstimators.InstanceWithoutRoom` | aggregators/merger.go:130-143 | an instance past the limit leaves all instances and counters unchanged; the overflow of its service gains exactly its weight, the estimator its hash |
| `OverflowEstimators.ServiceWithoutRoom` | aggregators/merger.go:93-102 | a service past the limit leaves all services and counters unchanged; the overflow services gain exactly its weight |
| `OverflowEstimators.KeptInstanceSees` | aggregators/merger.go:145-177 | sketches of the overflow buckets see exactly the keys past a limit, hashed after the service |
| `OverflowEstimators.InstanceWithoutRoomSees` | aggregators/merger.go:130-143 | for an instance without room they see all its keys, hashed after the service and the instance |
| `OverflowEstimators.MergeAllEstimates` | aggregators/merger.go:61-143 | the service instance estimator has seen the sketches of the operands and exactly those of their instances that are not kept, and these found no room |
| `OverflowEstimators.TreeEstimates` | aggregators/merger.go:61-143 | over every merge tree and all limits: the operands' sketches and every instance diverted anywhere, and nothing else |
| `OverflowEstimators.InstanceKeptOrSeen` | aggregators/merger.go:61-143 | no instance of an operand is forgotten: the root has it, or its estimator has seen it |
| `OperandLoss.EncodingLoss` | aggregators/codec.go:109-112 | the exact loss of a serialization: the overflow services bucket, and only when there is no service instance estimator |
| `OperandLoss.ExactLoss` | aggregators/merger.go:53-116 | for every merger state, every operand, both with paired overflow, and all limits, exactly what every encoding lacks after the operand was merged |
| `HarmlessOperands.HarmlessTree` | aggregators/merger.go:53-116 | for every merge tree over harmless operands and all limits, every total of the root is the sum over the operands, and the root is harmless |
| `HarmlessOperands.PreservedIff` | aggregators/merger.go:61-115 | an operand with paired overflow loses no total in any merge tree with sealed operands, under all limits, if and only if it is harmless: without an estimator, its overflow services and the overflow of every key without instances weigh nothing |
| `HarmlessOperands.SealedIsHarmless` | aggregators/merger.go:61-115 | sealed operands, such as those of events, are harmless |
| `HarmlessOperands.OverflowOnlyIsLost` | aggregators/merger.go:87-102 | a service with overflow and no instance, without estimator, is lost in some merge, also when a later service of the operand has an instance |
| `ServiceLimits.ServiceExceedsLimit` | aggregators/merger.go:148-151 | a run that stores one group more in a service than the limit documented per service |
| `ServiceLimits.BoundedPerServiceIff` | aggregators/models.go:37-61 | for each kind, every run keeps the documented limit per service if and only if there is no service, at most one instance per service, a limit of zero, or a global limit that is not larger |
| `ConfigValidation.IsSorted` | aggregators/config.go:211-215 | the order check passes exactly the non-descending intervals |
| `ConfigValidation.ValidateIntervals` | aggregators/config.go:208-233 | the checks accept exactly sorted multiples of the lowest interval, from one second to 18 hours, and panic exactly on two or more sorted intervals of which the first is zero |
| `ConfigValidation.ZeroLowestDivides` | aggregators/config.go:216-222 | zero and a minute make the check divide by zero; zero and a negative interval are rejected |
| `ConfigValidation.AcceptedExactly` | aggregators/config.go:198-235 | on nanoseconds the checks accept exactly the configurations of the protocol model |
| `ConfigValidation.AcceptedInNumbers` | aggregators/config.go:209-232 | in numbers: non-descending multiples of the first, each from 1,000,000,000 to 64,800,000,000,000 nanoseconds, and nothing else |
| `AggregatorSafety.StepKeeps` | aggregators/aggregator.go:122-317 | every step of writers, harvester and Close keeps the placement of pending entries and the books of what was handed over |
| `AggregatorSafety.RunKeeps` | aggregators/aggregator.go:122-317 | the invariant holds in every state of every interleaving |
| `AggregatorSafety.AtMostOnce` | aggregators/aggregator.go:122-317 | in every state of every interleaving no contribution was handed to the Processor twice for an interval, and nothing that was not aggregated was handed over |
| `AggregatorSafety.ExactlyOnceAfterClose` | aggregators/aggregator.go:252-317 | once Close has finished, every contribution was handed over exactly once per interval and nothing is pending; it needs distinct intervals, in any order |
| `AggregatorSafety.PendingTimes` | aggregators/aggregator.go:143-145 | a pending entry has the truncated processing time of its interval, except in the window that a running harvest owns |
| `AggregatorSafety.DeleteRemovesWhatWasHanded` | aggregators/aggregator.go:452-527 | the range delete removes exactly the entries that its snapshot contained and handed over |
| `AggregatorSafety.HarvestCollects` | aggregators/aggregator.go:407-440 | one harvest hands over and deletes exactly the entries that are due at its end time |
| `AggregatorSafety.OnlyCloseMoves` | aggregators/aggregator.go:252-317 | while Close harvests no other step is enabled |
| `AggregatorSafety.EqualNeighboursRepeat` | aggregators/config.go:211-215 | for every accepted configuration with equal neighbours, a run after the Unix epoch that writes operands for every interval and hands one over twice |
| `AggregatorSafety.AtMostOnceIffStrict` | aggregators/config.go:211-215 | among accepted configurations, at most once holds exactly for those without equal neighbours |
| `AggregatorSafety.WindowsAfterEpoch` | aggregators/aggregator.go:217-244 | in every run all processing and harvest times stay after the Unix epoch |
| `Aggregator.Aggregator.constructor` | aggregators/aggregator.go:109-116 | a new aggregator is an initial state, its processing time truncated to the lowest interval |
| `Aggregator.Aggregator.Aggregate` | aggregators/aggregator.go:339-372 | one operand joins the batch, which may be committed for its size |
| `Aggregator.Aggregator.AggregateInterval` | aggregators/aggregator.go:143-153 | all operands of an interval are written under the truncated processing time |
| `Aggregator.Aggregator.AggregateBatch` | aggregators/aggregator.go:122-164 | a batch is one write step for all intervals, and a closed aggregator refuses it unchanged |
| `Aggregator.Aggregator.HandWindow` | aggregators/aggregator.go:476-518 | the iterator loop hands over every entry of the window once |
| `Aggregator.Aggregator.RunTick` | aggregators/aggregator.go:232-237 | the locked section of a tick takes the batch and advances the processing time |
| `Aggregator.Aggregator.RunCommit` | aggregators/aggregator.go:374-393 | the batch that was taken is committed outside the lock |
| `Aggregator.Aggregator.RunSnapshot` | aggregators/aggregator.go:407-413 | the snapshot is the database at that moment |
| `Aggregator.Aggregator.RunHand` | aggregators/aggregator.go:416-424 | an interval whose window ends now is handed over from the snapshot |
| `Aggregator.Aggregator.RunDelete` | aggregators/aggregator.go:519-519 | the range is deleted from the database as it is by then |
| `Aggregator.Aggregator.HarvestForInterval` | aggregators/aggregator.go:445-527 | the window is handed over and then deleted |
| `Aggregator.Aggregator.Harvest` | aggregators/aggregator.go:407-440 | one snapshot, then every interval whose window ends at the given time |
| `Aggregator.Aggregator.CloseIntervals` | aggregators/aggregator.go:286-310 | the final harvest of every interval's current window |
| `Aggregator.Aggregator.FinishClose` | aggregators/aggregator.go:273-311 | from any reachable state, Close leaves an empty database with everything accepted handed over exactly once |
| `Delivery.DeliveredTotals` | aggregators/aggregator.go:252-317 | end to end: after Close, for each interval, the totals over all Processor calls, each the root of a merge tree over the operands of its key, are those of the operands accepted for the interval |
| `Delivery.EventsDelivered` | aggregators/aggregator.go:122-164 | every total handed over for an interval is the sum of what the fields of the aggregated events say; events totals add up to the number of events that yield metrics |
| `AcceptedEntries.TruncateIsFloor` | aggregators/aggregator.go:144 | truncation gives the multiple of the interval at or just below the time, and a time is aligned exactly when it is a multiple |
| `AcceptedEntries.WrittenExactly` | aggregators/aggregator.go:141-154 | a batch writes, for each interval and operand, the one entry whose window holds the processing time, and nothing else |
| `AcceptedEntries.AcceptedExactly` | aggregators/aggregator.go:141-154 | in every run the accepted entries are exactly those that some batch wrote |
| `CachedEvents.CachedEventsMap.Add` | aggregators/cachedeventsmap.go:51-72 | the scaled count joins the additions of its key since the last load |
| `CachedEvents.CachedEventsMap.LoadAndDelete` | aggregators/cachedeventsmap.go:29-49 | exactly the intervals that divide the end time are returned and cleared, with the additions since their last load |
| `CachedEvents.LoadedClose` | aggregators/cachedeventsmap.go:29-72 | a loaded value is at most the sum S of its k additions and more than S - 1 - k/65535 |
| `CachedEvents.LoadedExact` | aggregators/cachedeventsmap.go:29-72 | whole additions are loaded exactly |
| `CachedRuns.LoadedOnce` | aggregators/cachedeventsmap.go:29-72 | every addition to a key is either still cached or was loaded exactly once |
| `CachedRuns.CountsLoadedOnce` | aggregators/aggregator.go:122-164 | in every run each count that a batch adds for an interval is loaded at most once, and exactly once when Close has finished |
| `CachedRuns.EventsLoaded` | aggregators/aggregator.go:252-317 | when Close has finished, the values loaded for an interval and an ID add up to the events of all batches of that ID |
| `CachedRuns.CachedIsSince` | aggregators/aggregator.go:138-154 | the count of a batch is cached exactly until the first tick or turn of Close that loads its interval |
| `CachedRuns.LoadedWithHarvest` | aggregators/aggregator.go:232-237 | over ascending intervals, a count is loaded with the harvest in whose window all entries of its batch for that interval lie |
| `HdrIndex.MagnitudeDerived` | aggregators/internal/hdrhistogram/hdrhistogram.go:232-267 | the sub-bucket counts and the number of counts follow from two significant figures |
| `HdrIndex.GetBucketCount` | aggregators/internal/hdrhistogram/hdrhistogram.go:269-283 | the loop finds the smallest number of buckets that covers any int64 range, 25 for one hour in microseconds |
| `HdrIndex.IndexOf` | aggregators/internal/hdrhistogram/hdrhistogram.go:143-162 | below 256 a value is its own index; above, the bucket is the place of the top bit and the sub-bucket the eight leading bits |
| `HdrIndex.RecordableIff` | aggregators/internal/hdrhistogram/hdrhistogram.go:97-104 | over all int64 values the index lies in range exactly for 0 <= v < 2^32 |
| `HdrIndex.IndexMonotone` | aggregators/internal/hdrhistogram/hdrhistogram.go:143-162 | a larger value never has a smaller index |
| `HdrIndex.IndexOnto` | aggregators/internal/hdrhistogram/hdrhistogram.go:143-166 | every index is the index of a value, below 2^32 for the indexes in range |
| `HdrIndex.BarOf` | aggregators/internal/hdrhistogram/hdrhistogram.go:143-166 | the values of a bar are exactly an interval of a power of two |
| `HdrIndex.HighestIsLargest` | aggregators/internal/hdrhistogram/hdrhistogram.go:168-189 | the highest equivalent value is the largest with the same index; v <= h <= v + v/128, and h = v below 256 |
| `HdrHistogram.Iterator.NextCountAtIdx` | aggregators/internal/hdrhistogram/hdrhistogram.go:216-230 | one step moves to the next flat index and fails exactly past the last |
| `HdrHistogram.Iterator.Advance` | aggregators/internal/hdrhistogram/hdrhistogram.go:206-214 | a successful advance stands that many bars further on and knows the largest value of the bar |
| `HdrHistogram.PositionOf` | aggregators/internal/hdrhistogram/hdrhistogram.go:149-152 | the iterator's pair of indexes inverts the index arithmetic |
| `HdrHistogram.LargestInBar` | aggregators/internal/hdrhistogram/hdrhistogram.go:164-189 | the value computed from a bar's indexes is the largest value of the bar |
| `HdrHistogram.RoundIs` | aggregators/internal/hdrhistogram/hdrhistogram.go:90 | for every real, the rounded number is the only whole number at most half away that at a tie has the larger magnitude |
| `HdrHistogram.DescaledClose` | aggregators/internal/hdrhistogram/hdrhistogram.go:133 | a reported count is off by at most half a unit, half units go away from zero |
| `HdrHistogram.TotalClose` | aggregators/internal/hdrhistogram/hdrhistogram.go:120-141 | the reported total times 1000 differs from the recorded one by at most 500 per bar |
| `HdrHistogram.HistogramRepresentation.constructor` | aggregators/internal/hdrhistogram/hdrhistogram.go:78-84 | a new histogram is empty, with the fixed bounds |
| `HdrHistogram.HistogramRepresentation.RecordValues` | aggregators/internal/hdrhistogram/hdrhistogram.go:97-104 | accepted values add their count under their index, all others change nothing |
| `HdrHistogram.HistogramRepresentation.RecordDuration` | aggregators/internal/hdrhistogram/hdrhistogram.go:89-94 | durations from zero to just under 2^32 microseconds are recorded with the count in thousandths, rounded half away from zero |
| `HdrHistogram.HistogramRepresentation.Merge` | aggregators/internal/hdrhistogram/hdrhistogram.go:109-116 | the other histogram is added pointwise |
| `HdrHistogram.HistogramRepresentation.Buckets` | aggregators/internal/hdrhistogram/hdrhistogram.go:120-141 | every positive bar in range is reported with the largest value that it stands for, across skipped bars, and its count rounded half away from zero; the total is within half a value per bar |
| `HdrCounts.Search` | aggregators/internal/hdrhistogram/hdrhistogram.go:386-394 | binary search by bucket returns the insertion point and whether the bucket is there |
| `HdrCounts.HybridCountsRep.Add` | aggregators/internal/hdrhistogram/hdrhistogram.go:303-321 | promotion, insertion and update all merge one bar into the recorded map |
| `HdrCounts.HybridCountsRep.ForEach` | aggregators/internal/hdrhistogram/hdrhistogram.go:324-332 | the callback gets the recorded bars in order |
| `HdrCounts.HybridCountsRep.Len` | aggregators/internal/hdrhistogram/hdrhistogram.go:335-343 | the number of recorded buckets |
| `HdrCounts.HybridCountsRep.Get` | aggregators/internal/hdrhistogram/hdrhistogram.go:347-359 | the count of every bucket, and exactly when one is reported as found |
| `HdrCounts.HybridCountsRep.Reset` | aggregators/internal/hdrhistogram/hdrhistogram.go:362-366 | nothing is recorded, and a slice stays a slice |
| `HdrCounts.Replay` | aggregators/internal/hdrhistogram/hdrhistogram.go:296-366 | any sequence of additions and resets records the sparse map of what was added since the last reset |
| `HdrCounts.HybridCountsRep.Equal` | aggregators/internal/hdrhistogram/hdrhistogram.go:369-384 | two records are equal exactly when they hold the same bars, zero counts included |
| `HdrCounts.SameIsEqual` | aggregators/codec.go:434-474 | sorted bars record the same counts exactly when they are equal up to zero counts |
| `HdrHistogram.AddAll` | aggregators/internal/hdrhistogram/hdrhistogram.go:109-116 | bars added one by one are recorded pointwise, and merged exactly when sorted, but for a leading zero bar |
| `HdrHistogram.HistogramFromProto` | aggregators/codec.go:434-446 | the record becomes the message's, whatever it held |
| `HdrHistogram.SetHistogramProto` | aggregators/codec.go:457-474 | the message lists the recorded bars in order |
| `HdrHistogram.MergeThenConvert` | aggregators/codec.go:457-474 | merging records and converting gives the pointwise sum |
| `HdrHistogram.ConvertThenMerge` | aggregators/merger.go:388-455 | converting and merging messages in place gives the merged bars |
| `HdrHistogram.MergeBothWays` | aggregators/codec.go:434-474 | both ways give the same message up to zero counts |
| `Varint.SignExtends` | aggregationpb/aggregation_vtproto.pb.go:1675-1676 | sign extension to 64 bits and truncation to the field's width give every int64 and int32 back |
| `Varint.SovIsLength` | aggregationpb/aggregation_vtproto.pb.go:2633-2635 | sov is the number of bytes that are written, for every number |
| `WireLayout.VarintGroups` | aggregationpb/aggregation_vtproto.pb.go:1728-1738 | byte i of a varint has bits 7i to 7i+6, its high bit says that more follow, and no byte is superfluous |
| `Varint.WriteVarint` | aggregationpb/aggregation_vtproto.pb.go:1676-1683 | the writing loop puts exactly the varint at its place and touches nothing else |
| `Varint.EncodeVarint` | aggregationpb/aggregation_vtproto.pb.go:1728-1738 | the bytes that end at the offset are the varint, and all others are unchanged |
| `Varint.ReadsWritten` | aggregationpb/aggregation_vtproto.pb.go:5815-5828 | the reading loop undoes the writing loop, in a 32-bit or 64-bit accumulator |
| `Varint.VarintRoundTrip` | aggregationpb/aggregation_vtproto.pb.go:5815-5828 | every uint64 is read back, whatever follows it |
| `Varint.DecodeVarint` | aggregationpb/aggregation_vtproto.pb.go:5815-5828 | the loop reads the first varint or fails with overflow or end of data |
| `Wire.ReadsPacked` | aggregationpb/aggregation_vtproto.pb.go:5950-5967 | packed elements are read back, negative ones included |
| `WireFields.VarintOutcome` | aggregationpb/aggregation_vtproto.pb.go:5815-5828 | over all bytes: ten with the high bit set overflow, fewer without an end are cut short, anything else is read, modulo the width |
| `WireFields.SkipsField` | aggregationpb/aggregation_vtproto.pb.go:6070-6153 | every well-formed field, groups in groups included, is skipped exactly to its end |
| `Wire.SkipLocal` | aggregationpb/aggregation_vtproto.pb.go:6070-6153 | what is skipped does not depend on the bytes behind it |
| `Wire.UnknownsAppend` | aggregationpb/aggregation_vtproto.pb.go:6047-6060 | unknown records that are kept one after the other stay whole records |
| `WireLoops.SkipRecord` | aggregationpb/aggregation_vtproto.pb.go:6070-6153 | the skipping loop finds the extent of the first record, with nested groups |
| `HdrWire.RoundTrip` | aggregationpb/aggregation_vtproto.pb.go:5809-6068 | decoding the encoding of any message into a reset one returns it, negative elements and unknown fields included |
| `HdrWire.DecodedStable` | aggregationpb/aggregation_vtproto.pb.go:5809-6068 | whatever bytes were decoded, encoding and decoding the result again changes nothing |
| `HdrWire.FieldExtent` | aggregationpb/aggregation_vtproto.pb.go:5809-6068 | every field takes at least one byte and no more than there are |
| `HdrMarshal.SizeVT` | aggregationpb/aggregation_vtproto.pb.go:2600-2631 | the size is the length of the encoding |
| `HdrMarshal.PutPacked` | aggregationpb/aggregation_vtproto.pb.go:1668-1688 | a packed field is written in front of what the buffer holds |
| `HdrMarshal.MarshalToSizedBufferVT` | aggregationpb/aggregation_vtproto.pb.go:1656-1726 | the backward marshaller fills exactly the last SizeVT bytes with the encoding |
| `HdrMarshal.MarshalVT` | aggregationpb/aggregation_vtproto.pb.go:1638-1649 | a buffer of SizeVT bytes holds exactly the encoding |
| `HdrMarshal.DecodePacked` | aggregationpb/aggregation_vtproto.pb.go:5950-5967 | the packed loop reads elements while the index is below the end of the field |
| `HdrMarshal.UnmarshalField` | aggregationpb/aggregation_vtproto.pb.go:5812-6062 | one turn of the decoding loop, with all its error cases |
| `HdrMarshal.UnmarshalVT` | aggregationpb/aggregation_vtproto.pb.go:5809-6068 | the decoding loop computes the specified message or error |
| `HdrMarshal.MarshalUnmarshal` | aggregationpb/aggregation_vtproto.pb.go:5809-6068 | marshalling and unmarshalling returns the message |
| `WireLayout.HistogramLayout` | proto/aggregation.proto:142-148 | the encoded histogram is the records of its fields under their numbers, zeros and empty lists left out |
| `WireLayout.UnpackedRead` | aggregationpb/aggregation_vtproto.pb.go:5895-5912 | elements of the repeated fields that are not packed are accepted one by one |
| `WireLayout.PackedLayout` | proto/aggregation.proto:146-147 | packed integers are varints, one after the other, negative ones as 2^64 more |
| `KeyCodec.MarshalBinaryToSizedBuffer` | aggregators/codec.go:42-60 | a buffer of 28 bytes gets the encoding, any other is refused unchanged |
| `KeyCodec.UnmarshalBinary` | aggregators/codec.go:63-79 | every valid key is read back from its encoding, whatever follows; fewer than 12 bytes are refused, and exactly 12 to 27 bytes panic |
| `KeyCodec.EncodeInjective` | aggregators/codec.go:42-79 | different keys have different encodings |
| `WireLayout.KeyLayout` | aggregators/codec.go:34-60 | byte by byte: two bytes of interval, eight of time, the ID, two of partition, highest first |
| `KeyCodec.WithoutPartition` | aggregators/codec.go:90-94 | clearing the partition bytes gives the encoding of the key in partition 0 |
| `KeyCodec.OrderPreservedIff` | aggregators/codec.go:34-41 | for all keys, byte order is the order on interval, time, ID and partition if and only if the intervals differ or both times lie on the same side of the Unix epoch |
| `KeyCodec.NegativeTimesSortLast` | aggregators/codec.go:52-52 | a time before the epoch sorts after every later one of the same interval |
| `KeyCodec.RangeIsWindow` | aggregators/aggregator.go:452-463 | the range between two bounds with zero ID and partition holds exactly the keys of that interval and those times |
| `KeyWindows.NanoRoundTripIff` | aggregators/codec.go:42-79 | a key is read back from its encoding if and only if its interval and time are whole seconds |
| `KeyWindows.SecondsStrict` | aggregators/codec.go:42-52 | multiples of an interval of at least one second keep their order when they are rounded down to seconds |
| `KeyWindows.WindowIsKeyRange` | aggregators/aggregator.go:452-463 | the windows of the protocol model, in nanoseconds, are exactly these key ranges |
| `KeyWindows.HarvestIsKeyRange` | aggregators/aggregator.go:452-463 | in every run, fractions of seconds included, the window of a harvest among the pending entries is exactly its key range |
| `ByteOrder.AscendingUnique` | aggregators/codec.go:361-363 | a list in strictly ascending byte order is determined by its elements |
| `ByteOrder.LessIs` | aggregators/codec.go:34-41 | after a common prefix the smaller one ends or has the smaller byte |
| `LabelWire.LabelRoundTrip` | aggregationpb/labels_vtproto.pb.go:545-690 | a label is read back from its encoding |
| `LabelWire.NumericRoundTrip` | aggregationpb/labels_vtproto.pb.go:692-839 | a numeric label is read back bit by bit, a scalar negative zero as zero |
| `LabelWire.RoundTrip` | aggregationpb/labels_vtproto.pb.go:412-544 | all labels are read back in order, up to the sign of a scalar zero |
| `LabelWire.EncodedNormal` | aggregationpb/labels_vtproto.pb.go:260-265 | the encoding does not see the sign of a scalar zero |
| `Labels.Canonical` | aggregators/codec.go:347-384 | whatever the iteration order, two label sets have equal bytes if and only if they agree on keys, Value and Values |
| `Labels.DecodeReturns` | aggregators/codec.go:386-427 | decoding the canonical bytes returns the label set, marked global |
| `LabelMarshal.SortByKey` | aggregators/codec.go:361-363 | sorting by key gives the same entries in strictly ascending order |
| `LabelMarshal.CollectLabels` | aggregators/converter.go:1010-1037 | the chosen entries of the map, sorted, from any iteration order |
| `LabelMarshal.CollectNumerics` | aggregators/converter.go:1039-1066 | the same for numeric labels |
| `LabelMarshal.ToProto` | aggregators/codec.go:347-384 | the message lists both maps, sorted by key |
| `LabelMarshal.FromProto` | aggregators/codec.go:386-395 | the message's entries become maps, a later entry replacing an earlier one |
| `LabelMarshal.MarshalBinary` | aggregators/codec.go:398-405 | the canonical bytes of the label set |
| `LabelMarshal.MarshalEventGlobalLabels` | aggregators/converter.go:1001-1072 | the canonical bytes of the labels that are marked global |
| `LabelMarshal.OnlyGlobalsReturn` | aggregators/converter.go:1001-1072 | what is read back from the labels of an event are exactly those marked global |
| `LabelMarshal.UnmarshalBinary` | aggregators/codec.go:414-427 | the decoded label set or the decoder's error |
| `LabelBuffers.LabelSizeVT` | aggregationpb/labels_vtproto.pb.go:368-390 | the size of a label is the length of its encoding |
| `LabelBuffers.NumericSizeVT` | aggregationpb/labels_vtproto.pb.go:392-410 | the size of a numeric label is the length of its encoding |
| `LabelBuffers.LabelsSizeVT` | aggregationpb/labels_vtproto.pb.go:346-366 | the size of all labels is the length of their encoding |
| `LabelBuffers.PutLabel` | aggregationpb/labels_vtproto.pb.go:182-218 | a label is written backward in front of what the buffer holds |
| `LabelBuffers.PutNumeric` | aggregationpb/labels_vtproto.pb.go:238-274 | a numeric label is written backward in front of what the buffer holds, the bytes of its doubles lowest first after tags 0x11 and 0x1a |
| `WireLayout.LittleEndianBytes` | aggregationpb/labels_vtproto.pb.go:262 | byte i of a double on the wire has bits 8i to 8i+7 |
| `WireLayout.ReadLittleEndian` | aggregationpb/labels_vtproto.pb.go:745-830 | reading gives the number with these bits |
| `WireLayout.NumericBytes` | aggregationpb/labels_vtproto.pb.go:238-274 | where each byte of each double of a numeric label is |
| `WireLayout.LabelLayout` | proto/labels.proto:13-17 | an encoded label is the records of its fields under their numbers |
| `WireLayout.NumericLayout` | proto/labels.proto:19-23 | the same for a numeric label, with packed values |
| `WireLayout.LabelsLayout` | proto/labels.proto:8-11 | the same for all labels |
| `LabelBuffers.MarshalVT` | aggregationpb/labels_vtproto.pb.go:107-162 | the buffer is filled exactly, with the encoding |
| `LabelBuffers.UnmarshalLabel` | aggregationpb/labels_vtproto.pb.go:545-690 | the decoding loop of a label |
| `LabelBuffers.UnmarshalNumeric` | aggregationpb/labels_vtproto.pb.go:692-839 | the decoding loop of a numeric label |
| `LabelBuffers.UnmarshalVT` | aggregationpb/labels_vtproto.pb.go:412-544 | the decoding loop of all labels |
| `Converter.PartitionsExact` | aggregators/converter.go:225-235 | the partitions in use are distinct, below the number of partitions, and exactly those of the metrics |
| `Converter.InPartExact` | aggregators/converter.go:225-235 | a part holds exactly the metrics that hash to it, with their multiplicity |
| `Converter.NoSpanDiscarded` | aggregators/converter.go:188-202 | with at most 128 dropped span statistics no span is discarded |
| `Converter.SharesSumToOne` | aggregators/converter.go:361-369 | the shares of an event sum to 1, and nothing is emitted exactly when it yields no metric |
| `Converter.HistogramsAgree` | aggregators/converter.go:138-181 | transaction and service transaction metrics have the same histogram, in one part or in two |
| `EventTotals.PartsCarry` | aggregators/converter.go:108-223 | however an event is partitioned, its parts together hold each of its metrics once, under its own key, but for span entries that find 128 in their part; for any weight of the groups |
| `EventTotals.PartsTotals` | aggregators/converter.go:108-223 | every total of the parts from the event's fields alone: successes, failures, histogram counts, span counts and sums |
| `EventTotals.EventsAddUp` | aggregators/converter.go:334-386 | however the parts of events are spread over keys and merged, every total is the sum of what the events' fields say |
| `EventTotals.PartCarriesEvent` | aggregators/converter.go:354-383 | a part has the event's service and instance keys, its received time and at most 128 spans |
| `EventTotals.YoungestReceived` | aggregators/converter.go:366 | the youngest timestamp over operands is the latest received time of an event that yields metrics |
| `EventTotals.GroupsHashToPart` | aggregators/converter.go:225-235 | every group of a part hashes to its partition, its key being hashed after those of the service and the instance |
| `EventTotals.SameGroupSamePartition` | aggregators/converter.go:225-235 | metrics with the same group key, service and instance go to the same partition |
| `ConverterBuilders.RecordOne` | aggregators/converter.go:146-148 | the histogram of one duration |
| `ConverterBuilders.PartitionedMetricsBuilder.Get` | aggregators/converter.go:225-235 | the builder of the metric's partition, made or reused on first need, holds the part so far |
| `ConverterBuilders.PartitionedMetricsBuilder.AddTransactionMetrics` | aggregators/converter.go:138-151 | the transaction metric joins its part |
| `ConverterBuilders.PartitionedMetricsBuilder.AddServiceTransactionMetrics` | aggregators/converter.go:153-181 | the service transaction metric joins its part, sharing the histogram when the transaction is there |
| `ConverterBuilders.PartitionedMetricsBuilder.AddSpanMetrics` | aggregators/converter.go:183-216 | a span joins its part unless 128 are there |
| `ConverterBuilders.PartitionedMetricsBuilder.AddServiceSummaryMetrics` | aggregators/converter.go:218-223 | an empty part for the service instance |
| `ConverterBuilders.PartitionedMetricsBuilder.ProcessEvent` | aggregators/converter.go:108-136 | the builders end up with all metrics of the event |
| `ConverterBuilders.PartitionedMetricsBuilder.EventToCombinedMetrics` | aggregators/converter.go:334-386 | what is emitted depends on the event alone, whatever the pooled builders held |

## Left out

- Pebble, HyperLogLog and xxhash internals: an ordered set of entries with merge, snapshot and range delete, a set of inputs, and an arbitrary function stand for them. Nothing is claimed about estimator accuracy.
- Telemetry, tracing, logging, contexts and timers: a timer is an enabled tick, and giving up a wait in Close is a step of its own.
- Liveness: it is not claimed that Close or Run finish. Close waits for Run while it holds the lock that Run needs after a tick.
- Failing pebble or Processor calls, crash recovery and data left in an existing directory: the protocol model starts empty and its calls succeed.
- AggregateCombinedMetrics: a caller may choose a processing time outside every later harvest window, so delivery once does not cover it.
- Overflow of int64 and uint64 counts, event totals and scaled counters: counts are unbounded. Rounding of float64 sums is not modelled either.
- Memory aliasing through sync.Pool and shared slices: messages, group maps and pooled builders are values, so the loops over groups return the new map instead of changing it through a pointer. For builders the claim is that output does not depend on what a reused one held.
- The decoders for the label and HDRHistogram messages read immutable byte sequences and return the message; a message that is partly filled when an error is returned is not modelled.
- Nil `Metrics` in keyed inputs, negative histogram buckets and unsorted histograms: the merge assumes that they do not occur, as its comments say for the order.
- The marshalling of the other messages, per-key copies, CombinedMetricsToBatch, the protohash generator and descriptors: field by field copies and repetitions of the patterns shown.
- The event's own key fields (`setTransactionKey` and its like) and composite span durations: they enter as fields of the event.
- HistogramMerge.MergeHistogram: requires sorted, non-negative int32 buckets, because the int32 difference that it compares by would wrap around otherwise.
- HdrHistogram.HistogramRepresentation.Buckets: requires non-negative buckets, which recording guarantees; a bar past the counts range is not reported, as in the code.
- HdrHistogram.HistogramRepresentation.Merge: ForEach is modelled by the list of its calls, so a histogram merged into itself is read before it is changed.
- HdrWire.RoundTrip: requires fields within their Go types, an encoding below 2^63 bytes, and unknown fields as a decoder keeps them; `HdrWire.DecodedStable` shows that every message decoded from fewer than 2^57 bytes is of this kind.
- Labels.Canonical: requires 64-bit patterns and an encoding below 2^63 bytes, as in memory.
