/** The HDR histogram: recording, merging, the bar iterator and the conversions to and from the message. */
module HdrHistogram {
  import opened Histograms
  import opened HistogramMerge
  import opened Bits
  import opened HdrIndex
  import opened HdrCounts

  const HISTOGRAM_COUNT_SCALE := 1000

  /** `math.Round`: half away from zero. */
  function Round(x: real): int {
    if x >= 0.0 then (x + 0.5).Floor else -(0.5 - x).Floor
  }

  function Magnitude(x: real): real {
    if x >= 0.0 then x else -x
  }

  /** What `math.Round` promises: a nearest whole number, and of two of them the one away from zero. */
  predicate Rounded(x: real, r: int) {
    && 2.0 * Magnitude(r as real - x) <= 1.0
    && (2.0 * Magnitude(r as real - x) == 1.0 ==> Magnitude(r as real) > Magnitude(x))
  }

  /** There is exactly one such number for every real. */
  lemma {:induction false} RoundIs(x: real, r: int)
    ensures Rounded(x, r) <==> r == Round(x)
  {
    var f := Round(x);
    if x >= 0.0 {
      assert f as real <= x + 0.5 < f as real + 1.0;
    } else {
      assert (-f) as real <= 0.5 - x < (-f) as real + 1.0;
    }
  }

  /** `Duration.Microseconds`: the division truncates toward zero. */
  function Microseconds(d: int): int {
    if d >= 0 then d / 1000 else -((-d) / 1000)
  }

  /** Thousandths are recorded. */
  predicate ScaledCount(n: real, count: int) {
    Rounded(1000.0 * n, count)
  }

  lemma RoundScales(n: real)
    ensures ScaledCount(n, Round(1000.0 * n))
  {
    RoundIs(1000.0 * n, Round(1000.0 * n));
  }

  /** The count reported for a scaled count. */
  function Descaled(count: int): int {
    Round(count as real / HISTOGRAM_COUNT_SCALE as real)
  }

  /** Rounding is off by at most half a unit, half units are reported away from zero, and a positive scaled
      count is never reported as negative. */
  lemma {:induction false} DescaledClose(count: int, reported: int)
    requires Rounded(count as real / 1000.0, reported)
    ensures -500 <= 1000 * reported - count <= 500
    ensures count >= 0 ==> reported >= 0 && 1000 * reported - count != -500
    ensures count <= 0 ==> reported <= 0 && 1000 * reported - count != 500
  {
    var x := count as real / 1000.0;
    assert x * 1000.0 == count as real;
  }

  class Iterator {
    var bucketIdx: int
    var subBucketIdx: int
    var valueFromIdx: int
    var highestEquivalentValue: int

    constructor ()
      ensures Valid() && Position() == -1
    {
      bucketIdx, subBucketIdx, valueFromIdx, highestEquivalentValue := 0, -1, 0, 0;
    }

    /** The flat index of the bar that the iterator stands on; -1 before the first step. */
    ghost function Position(): int
      reads this
    {
      CountsIndex(bucketIdx, subBucketIdx)
    }

    ghost predicate Valid()
      reads this
    {
      && bucketIdx >= 0
      && (if bucketIdx == 0 then -1 <= subBucketIdx < 256 else 128 <= subBucketIdx < 256)
      && (0 <= Position() < COUNTS_LEN ==> valueFromIdx == ValueFromIndex(bucketIdx, subBucketIdx))
    }

    /** One step moves to the next flat index, until the counts range is left. */
    method NextCountAtIdx() returns (ok: bool)
      requires Valid()
      modifies this
      ensures Valid() && Position() == old(Position()) + 1
      ensures ok <==> Position() < COUNTS_LEN
    {
      subBucketIdx := subBucketIdx + 1;
      if subBucketIdx >= SUB_BUCKET_COUNT {
        subBucketIdx := SUB_BUCKET_HALF_COUNT;
        bucketIdx := bucketIdx + 1;
      }
      if bucketIdx >= BUCKET_COUNT {
        return false;
      }
      valueFromIdx := ValueFromIndex(bucketIdx, subBucketIdx);
      return true;
    }

    /** A successful advance stands `count` bars further on and knows the largest value of that bar. */
    method Advance(count: int) returns (ok: bool)
      requires Valid() && 0 <= Position()
      requires count > 0 || Position() < COUNTS_LEN
      modifies this
      ensures Valid() && Position() >= 0
      ensures ok <==> old(Position()) + NonNegative(count) < COUNTS_LEN
      ensures ok ==> Position() == old(Position()) + NonNegative(count)
      ensures ok ==> LargestOf(Position(), highestEquivalentValue)
      ensures !ok ==> Position() >= COUNTS_LEN
    {
      var c := 0;
      while c < count
        invariant 0 <= c <= NonNegative(count)
        invariant Valid() && Position() == old(Position()) + c
        invariant c > 0 ==> Position() < COUNTS_LEN
      {
        var more := NextCountAtIdx();
        if !more {
          return false;
        }
        c := c + 1;
      }
      highestEquivalentValue := HighestEquivalentValue(valueFromIdx);
      PositionOf(bucketIdx, subBucketIdx);
      LargestInBar(Position());
      return true;
    }
  }

  function NonNegative(n: int): int {
    if n > 0 then n else 0
  }

  /** `v` is the largest value recorded in bar `n`. */
  ghost predicate LargestOf(n: int, v: int) {
    v >= 0 && CountsIndexFor(v) == n && forall u: nat :: CountsIndexFor(u) == n ==> u <= v
  }

  /** The iterator's pair inverts the index arithmetic. */
  lemma {:induction false} PositionOf(bucketIdx: nat, subBucketIdx: nat)
    requires if bucketIdx == 0 then subBucketIdx < 256 else 128 <= subBucketIdx < 256
    ensures var n := CountsIndex(bucketIdx, subBucketIdx);
            n >= 0 && BucketAt(n) == bucketIdx && SubBucketAt(n) == subBucketIdx
  {
  }

  lemma {:induction false} LargestInBar(n: nat)
    ensures LargestOf(n, HighestEquivalentValue(ValueFromIndex(BucketAt(n), SubBucketAt(n))))
  {
    hide CountsIndexFor, HighestEquivalentValue, ValueFromIndex;
    IndexOnto(n);
    HighestIsLargest(ValueFromIndex(BucketAt(n), SubBucketAt(n)));
  }

  // ----- what Buckets reports

  ghost predicate Reports(bar: Bar) {
    bar.count > 0 && bar.bucket < COUNTS_LEN
  }

  /** The bars that `Buckets` reports, in order. */
  ghost function Reported(s: seq<Bar>): seq<Bar> {
    if s == [] then []
    else
      var last := s[|s| - 1];
      if Reports(last) then Reported(s[..|s| - 1]) + [last] else Reported(s[..|s| - 1])
  }

  ghost function TotalCount(s: seq<Bar>): int {
    if s == [] then 0 else TotalCount(s[..|s| - 1]) + s[|s| - 1].count
  }

  ghost function Sum(s: seq<int>): int {
    if s == [] then 0 else Sum(s[..|s| - 1]) + s[|s| - 1]
  }

  ghost predicate Describes(bars: seq<Bar>, counts: seq<int>, values: seq<int>) {
    && |counts| == |values| == |bars|
    && (forall i :: 0 <= i < |bars| ==> Rounded(bars[i].count as real / 1000.0, counts[i]))
    && (forall i :: 0 <= i < |bars| ==> LargestOf(bars[i].bucket, values[i]))
  }

  lemma NothingDescribed()
    ensures Sum([]) == 0 && Describes([], [], [])
  {
  }

  lemma DescribesSnoc(bars: seq<Bar>, counts: seq<int>, values: seq<int>, bar: Bar, value: int)
    requires Describes(bars, counts, values) && LargestOf(bar.bucket, value)
    ensures Describes(bars + [bar], counts + [Descaled(bar.count)], values + [value])
    ensures Sum(counts + [Descaled(bar.count)]) == Sum(counts) + Descaled(bar.count)
  {
    RoundIs(bar.count as real / 1000.0, Descaled(bar.count));
    hide LargestOf, Descaled, Rounded;
    assert (counts + [Descaled(bar.count)])[..|counts|] == counts;
  }

  /** The reported total differs from the recorded one by at most half a value per bar. */
  lemma {:induction false} TotalClose(bars: seq<Bar>, counts: seq<int>)
    requires |counts| == |bars|
    requires forall i :: 0 <= i < |bars| ==> Rounded(bars[i].count as real / 1000.0, counts[i])
    ensures -500 * |bars| <= 1000 * Sum(counts) - TotalCount(bars) <= 500 * |bars|
  {
    hide Rounded;
    if bars != [] {
      var n := |bars| - 1;
      TotalClose(bars[..n], counts[..n]);
      DescaledClose(bars[n].count, counts[n]);
    }
  }

  lemma TotalDescribed(bars: seq<Bar>, counts: seq<int>, values: seq<int>)
    requires Describes(bars, counts, values)
    ensures -500 * |bars| <= 1000 * Sum(counts) - TotalCount(bars) <= 500 * |bars|
  {
    hide Rounded, LargestOf;
    TotalClose(bars, counts);
  }

  ghost predicate Ahead(bars: seq<Bar>, i: nat, prevBucket: int) {
    forall k :: i <= k < |bars| ==> bars[k].bucket > prevBucket || (prevBucket == 0 && bars[k].bucket == 0)
  }

  /** On the bar of the bucket, or past all bars. */
  ghost predicate StandsAt(position: int, bucket: int) {
    if bucket < COUNTS_LEN then position == bucket else position >= COUNTS_LEN
  }

  method SeekBar(iter: Iterator, prevBucket: nat, bucket: nat) returns (ok: bool)
    requires iter.Valid() && 0 <= iter.Position() && StandsAt(iter.Position(), prevBucket)
    requires bucket > prevBucket || (prevBucket == 0 && bucket == 0)
    modifies iter
    ensures iter.Valid() && 0 <= iter.Position() && StandsAt(iter.Position(), bucket)
    ensures ok <==> bucket < COUNTS_LEN
    ensures ok ==> LargestOf(bucket, iter.highestEquivalentValue)
  {
    hide LargestOf, CountsIndex, ValueFromIndex;
    ok := iter.Advance(bucket - prevBucket);
  }

  lemma ReportedNext(bars: seq<Bar>, i: nat)
    requires i < |bars|
    ensures Reported(bars[..i + 1]) == if Reports(bars[i]) then Reported(bars[..i]) + [bars[i]] else Reported(bars[..i])
  {
    assert bars[..i + 1][..i] == bars[..i];
  }

  lemma AheadAtStart(bars: seq<Bar>)
    requires forall i :: 0 <= i < |bars| ==> 0 <= bars[i].bucket
    ensures Ahead(bars, 0, 0) && Reported(bars[..0]) == []
  {
  }

  lemma AheadNext(bars: seq<Bar>, i: nat, prevBucket: nat)
    requires Sorted(bars) && i < |bars| && Ahead(bars, i, prevBucket)
    ensures Ahead(bars, i + 1, prevBucket) && Ahead(bars, i + 1, bars[i].bucket)
    ensures bars[i].bucket > prevBucket || (prevBucket == 0 && bars[i].bucket == 0)
  {
  }

  class HistogramRepresentation {
    var lowestTrackableValue: int
    var highestTrackableValue: int
    var significantFigures: int
    const countsRep: HybridCountsRep

    constructor ()
      ensures fresh(countsRep) && countsRep.Valid() && countsRep.Bars() == [] && countsRep.s.None?
      ensures lowestTrackableValue == 1 && highestTrackableValue == HIGHEST_TRACKABLE_VALUE && significantFigures == 2
    {
      countsRep := new HybridCountsRep();
      lowestTrackableValue, highestTrackableValue, significantFigures := 1, HIGHEST_TRACKABLE_VALUE, 2;
    }

    /** Over all int64 values, those from 0 up to 2^32 are recorded under their index and all others refused. */
    method RecordValues(v: int, n: int) returns (ok: bool)
      requires countsRep.Valid() && -MAX_INT64 - 1 <= v <= MAX_INT64
      modifies countsRep
      ensures countsRep.Valid()
      ensures ok <==> 0 <= v < 0x1_0000_0000
      ensures forall b :: CountAt(countsRep.Bars(), b)
                          == old(CountAt(countsRep.Bars(), b)) + if ok && b == CountsIndexFor(v) then n else 0
      ensures countsRep.Bars() == if ok then Added(old(countsRep.s.None?), old(countsRep.Bars()), CountsIndexFor(v), n)
                                  else old(countsRep.Bars())
    {
      hide CountAt, CountsIndexFor, Added;
      RecordableIff(v);
      var idx := CountsIndexFor(v);
      if idx < 0 || COUNTS_LEN <= idx {
        return false;
      }
      countsRep.Add(idx, n);
      return true;
    }

    /** Durations from zero to just under 2^32 microseconds are recorded, with the count scaled by 1000. */
    method RecordDuration(d: int, n: real) returns (ok: bool)
      requires countsRep.Valid() && -MAX_INT64 - 1 <= d <= MAX_INT64
      modifies countsRep
      ensures countsRep.Valid()
      ensures ok <==> -1000 < d < 1000 * 0x1_0000_0000
      ensures exists count :: ScaledCount(n, count) &&
                forall b :: CountAt(countsRep.Bars(), b)
                            == old(CountAt(countsRep.Bars(), b))
                               + if ok && b == CountsIndexFor(if d > 0 then d / 1000 else 0) then count else 0
      ensures countsRep.Bars() == if ok then Added(old(countsRep.s.None?), old(countsRep.Bars()),
                                                   CountsIndexFor(if d > 0 then d / 1000 else 0), Round(1000.0 * n))
                                  else old(countsRep.Bars())
    {
      hide CountAt, CountsIndexFor, Round, ScaledCount, Added;
      RoundScales(n);
      var count := Round(n * HISTOGRAM_COUNT_SCALE as real);
      var v := Microseconds(d);
      ok := RecordValues(v, count);
    }

    /** Merging adds the other record pointwise. */
    method Merge(from: HistogramRepresentation)
      requires countsRep.Valid() && from.countsRep.Valid()
      modifies countsRep
      ensures countsRep.Valid()
      ensures Same(countsRep.Bars(), MergeBars(old(countsRep.Bars()), old(from.countsRep.Bars())))
      ensures BucketSet(countsRep.Bars()) <= BucketSet(old(countsRep.Bars())) + BucketSet(old(from.countsRep.Bars()))
      ensures old(countsRep.s.Some? || countsRep.Bars() != []) ==>
                countsRep.Bars() == MergeBars(old(countsRep.Bars()), old(from.countsRep.Bars()))
    {
      hide MergeBars, CountAt;
      var calls := from.countsRep.ForEach();
      MergedCounts(countsRep.Bars(), calls);
      MergeBuckets(countsRep.Bars(), calls);
      MergeBuckets(countsRep.Bars(), Kept(true, calls));
      AddAll(countsRep, calls);
    }

    /** Every bar with a positive count is reported by the largest value that it stands for, whatever bars
        were skipped before it, and the reported total is within half a value per bar. */
    method Buckets() returns (totalCount: int, counts: seq<int>, values: seq<int>)
      requires countsRep.Valid()
      requires forall i :: 0 <= i < |countsRep.Bars()| ==> 0 <= countsRep.Bars()[i].bucket
      ensures Describes(Reported(countsRep.Bars()), counts, values)
      ensures totalCount == Sum(counts)
      ensures var bars := Reported(countsRep.Bars());
              -500 * |bars| <= 1000 * totalCount - TotalCount(bars) <= 500 * |bars|
    {
      hide LargestOf, Descaled, Sum, TotalCount, CountsIndex, Describes, Reported, Ahead, Rounded;
      NothingDescribed();
      totalCount, counts, values := 0, [], [];
      var prevBucket := 0;
      var iter := new Iterator();
      var _ := iter.NextCountAtIdx();
      var bars := countsRep.ForEach();
      AheadAtStart(bars);
      for i := 0 to |bars|
        invariant iter.Valid() && 0 <= iter.Position()
        invariant StandsAt(iter.Position(), prevBucket)
        invariant prevBucket >= 0 && Ahead(bars, i, prevBucket)
        invariant Describes(Reported(bars[..i]), counts, values)
        invariant totalCount == Sum(counts)
      {
        ReportedNext(bars, i);
        AheadNext(bars, i, prevBucket);
        var bucket, scaledCounts := bars[i].bucket, bars[i].count;
        if scaledCounts <= 0 {
          continue;
        }
        var ok := SeekBar(iter, prevBucket, bucket);
        if ok {
          var count := Descaled(scaledCounts);
          DescribesSnoc(Reported(bars[..i]), counts, values, bars[i], iter.highestEquivalentValue);
          counts := counts + [count];
          values := values + [iter.highestEquivalentValue];
          totalCount := totalCount + count;
        }
        prevBucket := bucket;
      }
      assert bars[..|bars|] == bars;
      TotalDescribed(Reported(bars), counts, values);
    }
  }

  /** The bars that adding one after the other keeps: a leading zero bar for bucket 0 vanishes in an empty
      inline record. */
  ghost function Kept(skip: bool, bars: seq<Bar>): seq<Bar> {
    if skip && bars != [] then bars[1..] else bars
  }

  lemma KeptStep(skip: bool, bars: seq<Bar>, i: nat)
    requires i < |bars|
    ensures Kept(skip, bars[..i + 1]) == if skip && i == 0 then [] else Kept(skip, bars[..i]) + [bars[i]]
  {
  }

  lemma MergeAppend(to: seq<Bar>, from: seq<Bar>, bar: Bar)
    requires Sorted(to) && Sorted(from + [bar])
    ensures MergeBars(to, from + [bar]) == MergeBars(MergeBars(to, from), [bar])
  {
    assert forall i :: 0 <= i < |from| ==> from[i] == (from + [bar])[i];
    assert (from + [bar])[|from|] == bar;
    MergeDisjoint(from, [bar]);
    MergeAssociates(to, from, [bar]);
  }

  lemma MergeAppendSlice(to: seq<Bar>, skip: bool, bars: seq<Bar>, i: nat)
    requires Sorted(to) && Sorted(bars) && i < |bars| && !(skip && i == 0)
    ensures MergeBars(to, Kept(skip, bars[..i + 1])) == MergeBars(MergeBars(to, Kept(skip, bars[..i])), [bars[i]])
  {
    hide MergeBars;
    KeptStep(skip, bars, i);
    MergeAppend(to, Kept(skip, bars[..i]), bars[i]);
  }

  lemma MergedCounts(to: seq<Bar>, from: seq<Bar>)
    ensures forall b :: CountAt(MergeBars(to, from), b) == CountAt(to, b) + CountAt(from, b)
  {
    forall b
      ensures CountAt(MergeBars(to, from), b) == CountAt(to, b) + CountAt(from, b)
    {
      MergeCounts(to, from, b);
    }
  }

  lemma {:induction false} CountsSnoc(bars: seq<Bar>, i: nat)
    requires i < |bars|
    ensures forall b :: CountAt(bars[..i + 1], b)
                        == CountAt(bars[..i], b) + if b == bars[i].bucket then bars[i].count else 0
  {
    assert bars[..i + 1][..i] == bars[..i];
  }

  ghost predicate Vanishes(inline: bool, was: seq<Bar>, bars: seq<Bar>) {
    inline && was == [] && bars != [] && bars[0] == Bar(0, 0)
  }

  /** Only the first bar can vanish; every other one is merged. */
  lemma AddedBar(inline: bool, was: seq<Bar>, bars: seq<Bar>, i: nat)
    requires Sorted(was) && Sorted(bars) && i < |bars|
    ensures var skip := Vanishes(inline, was, bars);
            var now := MergeBars(was, Kept(skip, bars[..i]));
            MergeBars(was, Kept(skip, bars[..i + 1]))
            == Added(inline, now, bars[i].bucket, bars[i].count)
            && (now != [] ==> forall x, y :: Added(x, now, bars[i].bucket, bars[i].count)
                                             == Added(y, now, bars[i].bucket, bars[i].count))
  {
    var skip := Vanishes(inline, was, bars);
    KeptStep(skip, bars, i);
    if !(skip && i == 0) {
      MergeAppendSlice(was, skip, bars, i);
    }
  }

  /** What adding bars one after the other to a record leaves. */
  ghost function AddedAll(inline: bool, was: seq<Bar>, bars: seq<Bar>): seq<Bar> {
    if bars == [] then was
    else
      var last := bars[|bars| - 1];
      Added(inline, AddedAll(inline, was, bars[..|bars| - 1]), last.bucket, last.count)
  }

  lemma {:induction false} AddedAllCounts(inline: bool, was: seq<Bar>, bars: seq<Bar>)
    ensures forall b :: CountAt(AddedAll(inline, was, bars), b) == CountAt(was, b) + CountAt(bars, b)
  {
    if bars != [] {
      var n := |bars| - 1;
      AddedAllCounts(inline, was, bars[..n]);
      AddedCounts(AddedAll(inline, was, bars[..n]), bars[n].bucket, bars[n].count);
      CountsSnoc(bars, n);
      assert bars[..n + 1] == bars;
      hide CountAt, MergeBars;
    }
  }

  lemma {:induction false} AddedAllMerges(inline: bool, was: seq<Bar>, bars: seq<Bar>, n: nat)
    requires Sorted(was) && Sorted(bars) && n <= |bars|
    ensures AddedAll(inline, was, bars[..n]) == MergeBars(was, Kept(Vanishes(inline, was, bars), bars[..n]))
  {
    if n > 0 {
      AddedAllMerges(inline, was, bars, n - 1);
      AddedBar(inline, was, bars, n - 1);
      hide Added, MergeBars, Kept, Vanishes;
      assert bars[..n][..n - 1] == bars[..n - 1];
    }
  }

  /** The representation matters only for an empty record. */
  lemma AddedEither(x: bool, y: bool, bars: seq<Bar>, bucket: int, count: int)
    requires bars == [] ==> x == y
    ensures Added(x, bars, bucket, count) == Added(y, bars, bucket, count)
  {
    hide MergeBars;
  }

  /** Bars added one after the other are recorded pointwise; in ascending order they are merged bar by bar. */
  method AddAll(c: HybridCountsRep, bars: seq<Bar>)
    requires c.Valid()
    modifies c
    ensures c.Valid() && (old(c.s.Some?) ==> c.s.Some?)
    ensures forall b :: CountAt(c.Bars(), b) == CountAt(old(c.Bars()), b) + CountAt(bars, b)
    ensures Sorted(bars) ==>
              c.Bars() == MergeBars(old(c.Bars()), Kept(Vanishes(old(c.s.None?), old(c.Bars()), bars), bars))
  {
    ghost var was, inline := c.Bars(), c.s.None?;
    AddInTurn(c, bars);
    hide MergeBars, CountAt, Added, Kept, Vanishes;
    AddedAllCounts(inline, was, bars);
    assert bars[..|bars|] == bars;
    if Sorted(bars) {
      AddedAllMerges(inline, was, bars, |bars|);
    }
  }

  method AddInTurn(c: HybridCountsRep, bars: seq<Bar>)
    requires c.Valid()
    modifies c
    ensures c.Valid() && (old(c.s.Some?) ==> c.s.Some?)
    ensures c.Bars() == AddedAll(old(c.s.None?), old(c.Bars()), bars)
  {
    ghost var was, inline := c.Bars(), c.s.None?;
    hide Sorted, Added;
    for i := 0 to |bars|
      invariant c.Valid() && (!inline ==> c.s.Some?) && (c.Bars() == [] ==> c.s.None? == inline)
      invariant c.Bars() == AddedAll(inline, was, bars[..i])
    {
      assert bars[..i + 1][..i] == bars[..i];
      AddedEither(c.s.None?, inline, c.Bars(), bars[i].bucket, bars[i].count);
      AddBar(c, bars[i]);
    }
    assert bars[..|bars|] == bars;
  }

  method AddBar(c: HybridCountsRep, bar: Bar)
    requires c.Valid()
    modifies c
    ensures c.Valid() && c.Bars() == Added(old(c.s.None?), old(c.Bars()), bar.bucket, bar.count)
    ensures old(c.s.Some?) ==> c.s.Some?
    ensures c.Bars() == [] ==> old(c.Bars()) == [] && c.s.Some? == old(c.s.Some?)
  {
    c.Add(bar.bucket, bar.count);
  }

  // ----- conversions

  /** Bucket numbers that the message's int32 field holds and the in-place merge expects. */
  ghost predicate InRange(bars: seq<Bar>) {
    forall i :: 0 <= i < |bars| ==> 0 <= bars[i].bucket < 0x8000_0000
  }

  lemma InRangeBuckets(bars: seq<Bar>)
    ensures InRange(bars) <==> forall b :: b in BucketSet(bars) ==> 0 <= b < 0x8000_0000
  {
    if forall b :: b in BucketSet(bars) ==> 0 <= b < 0x8000_0000 {
      forall i | 0 <= i < |bars|
        ensures 0 <= bars[i].bucket < 0x8000_0000
      {
        assert bars[i].bucket in BucketSet(bars);
      }
    }
  }

  /** `histogramFromProto`: the record becomes the message's, whatever it held before. */
  method HistogramFromProto(h: HistogramRepresentation, pb: HDRHistogram)
    requires h.countsRep.Valid() && pb.Valid()
    modifies h, h.countsRep
    ensures h.countsRep.Valid()
    ensures h.lowestTrackableValue == pb.lowestTrackableValue
    ensures h.highestTrackableValue == pb.highestTrackableValue
    ensures h.significantFigures == pb.significantFigures
    ensures Same(h.countsRep.Bars(), pb.Bars())
    ensures h.countsRep.Bars() == Kept(Vanishes(old(h.countsRep.s.None?), [], pb.Bars()), pb.Bars())
  {
    h.lowestTrackableValue := pb.lowestTrackableValue;
    h.highestTrackableValue := pb.highestTrackableValue;
    h.significantFigures := pb.significantFigures;
    h.countsRep.Reset();
    assert forall b :: CountAt([], b) == 0;
    ghost var kept := Kept(Vanishes(h.countsRep.s.None?, [], pb.Bars()), pb.Bars());
    assert MergeBars([], kept) == kept;
    hide MergeBars, CountAt;
    var bars := [];
    for i := 0 to pb.buckets.Length
      invariant bars == pb.Bars()[..i]
    {
      bars := bars + [Bar(pb.buckets[i], pb.counts[i])];
    }
    assert bars == pb.Bars();
    AddAll(h.countsRep, bars);
  }

  /** `setHistogramProto`: the message lists the recorded bars in bucket order. */
  method SetHistogramProto(h: HistogramRepresentation, pb: HDRHistogram)
    requires h.countsRep.Valid()
    requires InRange(h.countsRep.Bars())
    modifies pb
    ensures pb.Valid() && fresh(pb.buckets) && fresh(pb.counts)
    ensures pb.lowestTrackableValue == h.lowestTrackableValue
    ensures pb.highestTrackableValue == h.highestTrackableValue
    ensures pb.significantFigures == h.significantFigures
    ensures pb.Bars() == h.countsRep.Bars()
  {
    pb.lowestTrackableValue := h.lowestTrackableValue;
    pb.highestTrackableValue := h.highestTrackableValue;
    pb.significantFigures := h.significantFigures;
    pb.buckets, pb.counts := ListBars(h.countsRep);
  }

  method ListBars(c: HybridCountsRep) returns (buckets: array<int>, counts: array<int>)
    requires c.Valid()
    ensures fresh(buckets) && fresh(counts) && buckets != counts
    ensures buckets.Length == counts.Length && Zip(buckets[..], counts[..]) == c.Bars()
    ensures Ascending(buckets[..])
  {
    var countsLen := c.Len();
    buckets, counts := new int[countsLen], new int[countsLen];
    var bars := c.ForEach();
    for i := 0 to |bars|
      invariant forall k :: 0 <= k < i ==> buckets[k] == bars[k].bucket && counts[k] == bars[k].count
    {
      buckets[i], counts[i] := bars[i].bucket, bars[i].count;
    }
    assert forall i :: 0 <= i < |bars| ==> buckets[..][i] == bars[i].bucket && counts[..][i] == bars[i].count;
  }

  /** Converting both records and merging the messages in place. */
  method ConvertThenMerge(h: HistogramRepresentation, from: HistogramRepresentation) returns (pb: HDRHistogram)
    requires h.countsRep.Valid() && InRange(h.countsRep.Bars())
    requires from.countsRep.Valid() && InRange(from.countsRep.Bars())
    ensures fresh(pb) && pb.Valid()
    ensures pb.Bars() == MergeBars(h.countsRep.Bars(), from.countsRep.Bars())
  {
    hide MergeBars;
    var none := new int[0];
    pb := new HDRHistogram(none, none);
    var other := new HDRHistogram(none, none);
    SetHistogramProto(h, pb);
    SetHistogramProto(from, other);
    MergeHistogram(pb, other);
  }

  /** Merging the records and converting the result. */
  method MergeThenConvert(h: HistogramRepresentation, from: HistogramRepresentation) returns (pb: HDRHistogram)
    requires h.countsRep.Valid() && InRange(h.countsRep.Bars())
    requires from.countsRep.Valid() && InRange(from.countsRep.Bars())
    modifies h.countsRep
    ensures fresh(pb) && fresh(pb.buckets) && fresh(pb.counts) && pb.Valid()
    ensures Same(pb.Bars(), MergeBars(old(h.countsRep.Bars()), old(from.countsRep.Bars())))
  {
    hide MergeBars, Same;
    InRangeBuckets(h.countsRep.Bars());
    InRangeBuckets(from.countsRep.Bars());
    h.Merge(from);
    InRangeBuckets(h.countsRep.Bars());
    var none := new int[0];
    pb := new HDRHistogram(none, none);
    SetHistogramProto(h, pb);
  }

  /** Both ways give the same message, up to zero counts. */
  method MergeBothWays(h: HistogramRepresentation, from: HistogramRepresentation)
    returns (viaRecord: HDRHistogram, viaMessage: HDRHistogram)
    requires h.countsRep.Valid() && InRange(h.countsRep.Bars())
    requires from.countsRep.Valid() && InRange(from.countsRep.Bars())
    modifies h.countsRep
    ensures viaRecord.Valid() && viaMessage.Valid()
    ensures NonZero(viaRecord.Bars()) == NonZero(viaMessage.Bars())
  {
    hide MergeBars, NonZero, Same;
    viaMessage := ConvertThenMerge(h, from);
    viaRecord := MergeThenConvert(h, from);
    SameIsEqual(viaRecord.Bars(), viaMessage.Bars());
  }
}
