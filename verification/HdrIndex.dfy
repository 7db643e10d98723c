/** The index arithmetic of the HDR histogram: which values share a bar, and how precise a bar is. */
module HdrIndex {
  import opened Bits

  const HIGHEST_TRACKABLE_VALUE := 3600000000
  const UNIT_MAGNITUDE := 0
  const SUB_BUCKET_HALF_COUNT_MAGNITUDE := 7
  const SUB_BUCKET_COUNT := 256
  const SUB_BUCKET_HALF_COUNT := 128
  const BUCKET_COUNT := 25
  const COUNTS_LEN := 3328

  /** The magnitude is that of the first power of two not below 2 * 10^2. */
  lemma {:induction false} MagnitudeDerived()
    ensures Pow2(SUB_BUCKET_HALF_COUNT_MAGNITUDE) < 200 <= Pow2(SUB_BUCKET_HALF_COUNT_MAGNITUDE + 1)
    ensures Pow2(SUB_BUCKET_HALF_COUNT_MAGNITUDE + 1) == SUB_BUCKET_COUNT == 2 * SUB_BUCKET_HALF_COUNT
    ensures COUNTS_LEN == (BUCKET_COUNT + 1) * SUB_BUCKET_HALF_COUNT
  {
    SmallPowers();
  }

  /** `getBucketCount`, for any highest trackable int64: the number of buckets is the smallest that
      covers the range, also where the next doubling would overflow. */
  method GetBucketCount(highestTrackableValue: int) returns (bucketsNeeded: nat)
    requires highestTrackableValue <= MAX_INT64
    ensures bucketsNeeded >= 1 && highestTrackableValue <= Pow2(bucketsNeeded + 7)
    ensures bucketsNeeded > 1 ==> Pow2(bucketsNeeded + 6) < highestTrackableValue
    ensures highestTrackableValue == HIGHEST_TRACKABLE_VALUE ==> bucketsNeeded == BUCKET_COUNT
  {
    SmallPowers();
    LargePowers();
    hide Pow2;
    var smallestUntrackableValue := SUB_BUCKET_COUNT;
    bucketsNeeded := 1;
    while smallestUntrackableValue < highestTrackableValue
      invariant 1 <= bucketsNeeded <= 55
      invariant smallestUntrackableValue == Pow2(bucketsNeeded + 7)
      invariant bucketsNeeded > 1 ==> Pow2(bucketsNeeded + 6) < highestTrackableValue
      decreases highestTrackableValue - smallestUntrackableValue
    {
      Pow2Add(bucketsNeeded + 7, 1);
      if bucketsNeeded == 55 {
        assert smallestUntrackableValue == Pow2(62);
      } else {
        Pow2Monotone(bucketsNeeded + 8, 62);
      }
      if smallestUntrackableValue > MAX_INT64 / 2 {
        BucketCountUnique(highestTrackableValue, bucketsNeeded + 1);
        return bucketsNeeded + 1;
      }
      smallestUntrackableValue := 2 * smallestUntrackableValue;
      bucketsNeeded := bucketsNeeded + 1;
    }
    BucketCountUnique(highestTrackableValue, bucketsNeeded);
  }

  lemma BucketCountUnique(highest: int, b: nat)
    requires b >= 1 && highest <= Pow2(b + 7) && (b > 1 ==> Pow2(b + 6) < highest)
    ensures highest == HIGHEST_TRACKABLE_VALUE ==> b == BUCKET_COUNT
  {
    SmallPowers();
    LargePowers();
    hide Pow2;
    if b < BUCKET_COUNT {
      Pow2Monotone(b + 7, 31);
    } else if b > BUCKET_COUNT {
      Pow2Monotone(32, b + 6);
    }
  }

  // ----- from values to indexes

  /** int64 `v | 255`: for a negative value the sign bit stays set. */
  function GetBucketIndex(v: int): int {
    var pow2Ceiling := if v < 0 then 64 else BitLen((v / 256) * 256 + 255);
    pow2Ceiling - UNIT_MAGNITUDE - (SUB_BUCKET_HALF_COUNT_MAGNITUDE + 1)
  }

  /** Arithmetic shift right by the bucket index. */
  function GetSubBucketIdx(v: int, idx: int): int
    requires idx + UNIT_MAGNITUDE >= 0
  {
    v / Pow2(idx + UNIT_MAGNITUDE)
  }

  function CountsIndex(bucketIdx: int, subBucketIdx: int): int {
    (bucketIdx + 1) * 128 + subBucketIdx - SUB_BUCKET_HALF_COUNT
  }

  lemma BucketIndexNonNegative(v: int)
    ensures GetBucketIndex(v) >= 0
  {
    if v >= 0 {
      var m := (v / 256) * 256 + 255;
      BitLenBounds(m);
      SmallPowers();
      if BitLen(m) < 8 {
        Pow2Monotone(BitLen(m), 7);
      }
    }
  }

  function CountsIndexFor(v: int): int {
    BucketIndexNonNegative(v);
    CountsIndex(GetBucketIndex(v), GetSubBucketIdx(v, GetBucketIndex(v)))
  }

  lemma IndexOfSmall(v: nat)
    requires v < 256
    ensures GetBucketIndex(v) == 0 && GetSubBucketIdx(v, 0) == v && CountsIndexFor(v) == v
  {
    SmallPowers();
    hide Pow2;
    BitLenUnique(255, 7);
    hide BitLen;
    assert (v / 256) * 256 + 255 == 255;
  }

  /** From 256 on, the bucket is given by the position of the top bit. */
  lemma TopBit(v: nat)
    requires v >= 256
    ensures GetBucketIndex(v) >= 1
    ensures Pow2(GetBucketIndex(v) + 7) <= v < Pow2(GetBucketIndex(v) + 8)
  {
    SmallPowers();
    var m := (v / 256) * 256 + 255;
    BitLenBounds(m);
    hide BitLen;
    var b := BitLen(m) - 8;
    if BitLen(m) < 9 {
      Pow2Monotone(BitLen(m), 8);
    }
    Pow2Add(8, b - 1);
    Pow2Add(8, b);
    hide Pow2;
    TopByte(v, m, Pow2(b - 1));
    TopByte(v, m, Pow2(b));
  }

  /** Below 256 every value has a bar of its own; above, the bucket is the position of the top bit
      and the sub-bucket the eight leading bits. */
  lemma {:induction false} IndexOf(v: nat)
    ensures v < 256 ==> GetBucketIndex(v) == 0 && GetSubBucketIdx(v, 0) == v && CountsIndexFor(v) == v
    ensures v >= 256 ==> var b := GetBucketIndex(v);
            b >= 1 && Pow2(b + 7) <= v < Pow2(b + 8) && 128 <= GetSubBucketIdx(v, b) < 256
            && CountsIndexFor(v) == 128 * b + GetSubBucketIdx(v, b)
  {
    if v < 256 {
      IndexOfSmall(v);
    } else {
      TopBit(v);
      var b := GetBucketIndex(v);
      SmallPowers();
      Pow2Add(7, b);
      Pow2Add(8, b);
      hide Pow2, GetBucketIndex;
      SubBucketRange(v, Pow2(b));
    }
  }

  /** Setting the low eight bits does not cross a multiple of 256. */
  lemma TopByte(v: nat, m: nat, p: nat)
    requires m == (v / 256) * 256 + 255
    ensures v >= 256 * p <==> m >= 256 * p
  {
    if m >= 256 * p {
      assert v / 256 >= p;
    }
  }

  lemma SubBucketRange(v: nat, p: nat)
    requires p >= 1 && 128 * p <= v < 256 * p
    ensures 128 <= v / p < 256
  {
    var q := v / p;
    assert q * p <= v < (q + 1) * p;
    if q < 128 {
      MulLe(q + 1, 128, p);
    } else if q > 255 {
      MulLe(256, q, p);
    }
  }

  /** `RecordValues` accepts a value exactly when its index lies in the counts range. */
  predicate Recordable(v: int) {
    0 <= CountsIndexFor(v) < COUNTS_LEN
  }

  /** Over all int64 values, exactly those from 0 up to 2^32 are accepted. */
  lemma {:induction false} RecordableIff(v: int)
    requires -MAX_INT64 - 1 <= v <= MAX_INT64
    ensures Recordable(v) <==> 0 <= v < 0x1_0000_0000
  {
    SmallPowers();
    LargePowers();
    hide Pow2;
    if v < 0 {
      var p := Pow2(56);
      Pow2Add(56, 7);
      var q := v / p;
      assert q >= -128 by {
        if q < -128 {
          MulLe(q + 1, -128, p);
        }
      }
      assert CountsIndexFor(v) >= 57 * 128 - 128 - 128;
    } else if v >= 256 {
      IndexOf(v);
      var b := GetBucketIndex(v);
      if v < 0x1_0000_0000 {
        if b > 24 { Pow2Monotone(32, b + 7); }
      } else {
        if b < 25 { Pow2Monotone(b + 8, 32); }
      }
    } else {
      IndexOf(v);
    }
  }

  /** A larger value never gets a smaller index. */
  lemma {:induction false} IndexMonotone(v: nat, w: nat)
    requires v <= w
    ensures CountsIndexFor(v) <= CountsIndexFor(w)
  {
    IndexOf(v);
    IndexOf(w);
    if v >= 256 {
      var a, b := GetBucketIndex(v), GetBucketIndex(w);
      if a > b {
        Pow2Monotone(b + 8, a + 7);
      } else if a == b {
        DivMonotone(v, w, Pow2(a));
      }
    }
  }

  // ----- from indexes to values

  /** The (bucket, sub-bucket) pair that the iterator reaches after `n + 1` steps. */
  function BucketAt(n: nat): nat {
    if n < 256 then 0 else (n - 128) / 128
  }

  function SubBucketAt(n: nat): nat {
    if n < 256 then n else 128 + (n - 128) % 128
  }

  function ValueFromIndex(bucketIdx: nat, subBucketIdx: nat): nat {
    subBucketIdx * Pow2(bucketIdx + UNIT_MAGNITUDE)
  }

  function SizeOfEquivalentValueRange(v: nat, bucketIdx: int): nat
    requires bucketIdx >= 0
  {
    var adjusted := if GetSubBucketIdx(v, bucketIdx) >= SUB_BUCKET_COUNT then bucketIdx + 1 else bucketIdx;
    Pow2(UNIT_MAGNITUDE + adjusted)
  }

  function NextNonEquivalentValue(v: nat): int {
    BucketIndexNonNegative(v);
    var b := GetBucketIndex(v);
    GetSubBucketIdx(v, b) * Pow2(b + UNIT_MAGNITUDE) + SizeOfEquivalentValueRange(v, b)
  }

  function HighestEquivalentValue(v: nat): int {
    NextNonEquivalentValue(v) - 1
  }

  /** The values that share the bar of `n` are exactly [lowest, lowest + 2^bucket). */
  lemma {:induction false} BarOf(n: nat, v: nat)
    ensures var b, low := BucketAt(n), ValueFromIndex(BucketAt(n), SubBucketAt(n));
            CountsIndexFor(v) == n <==> low <= v < low + Pow2(b)
  {
    SmallPowers();
    hide Pow2, GetBucketIndex, CountsIndexFor;
    if CountsIndexFor(v) == n {
      BarHolds(v);
    }
    var b, s := BucketAt(n), SubBucketAt(n);
    if s * Pow2(b) <= v < s * Pow2(b) + Pow2(b) {
      if n >= 256 {
        InBar(b, s, v);
      } else {
        IndexOf(v);
      }
    }
  }

  lemma BarHolds(v: nat)
    ensures CountsIndexFor(v) >= 0
    ensures var n := CountsIndexFor(v);
            var low := ValueFromIndex(BucketAt(n), SubBucketAt(n));
            low <= v < low + Pow2(BucketAt(n))
    ensures BucketAt(CountsIndexFor(v)) == GetBucketIndex(v)
    ensures GetBucketIndex(v) >= 0 && SubBucketAt(CountsIndexFor(v)) == GetSubBucketIdx(v, GetBucketIndex(v)) < 256
  {
    IndexOf(v);
    SmallPowers();
    hide Pow2, GetBucketIndex, CountsIndexFor;
    if v >= 256 {
      DivBounds(v, Pow2(GetBucketIndex(v)));
    }
  }

  lemma InBar(b: nat, s: nat, v: nat)
    requires b >= 1 && 128 <= s < 256 && s * Pow2(b) <= v < s * Pow2(b) + Pow2(b)
    ensures v >= 256 && CountsIndexFor(v) == 128 * b + s
  {
    hide Pow2, GetBucketIndex, CountsIndexFor;
    BarWithin(b, s, v);
    BucketUnique(b, v);
    IndexOf(v);
    DivUnique(v, Pow2(b), s);
  }

  lemma BarWithin(b: nat, s: nat, v: nat)
    requires 128 <= s < 256 && s * Pow2(b) <= v < s * Pow2(b) + Pow2(b)
    ensures Pow2(b + 7) <= v < Pow2(b + 8)
  {
    hide Pow2;
    SmallPowers();
    Pow2Add(7, b);
    Pow2Add(8, b);
    MulLe(128, s, Pow2(b));
    MulLe(s + 1, 256, Pow2(b));
  }

  lemma BucketUnique(b: nat, v: nat)
    requires b >= 1 && Pow2(b + 7) <= v < Pow2(b + 8)
    ensures v >= 256 && GetBucketIndex(v) == b
  {
    hide Pow2, GetBucketIndex;
    SmallPowers();
    Pow2Monotone(8, b + 7);
    TopBit(v);
    var a := GetBucketIndex(v);
    if a < b {
      Pow2Monotone(a + 8, b + 7);
    } else if a > b {
      Pow2Monotone(b + 8, a + 7);
    }
  }

  /** Every index is the index of some value, so the map is onto. */
  lemma {:induction false} IndexOnto(n: nat)
    ensures CountsIndexFor(ValueFromIndex(BucketAt(n), SubBucketAt(n))) == n
    ensures n < COUNTS_LEN ==> ValueFromIndex(BucketAt(n), SubBucketAt(n)) < 0x1_0000_0000
  {
    var v := ValueFromIndex(BucketAt(n), SubBucketAt(n));
    BarOf(n, v);
    if n < COUNTS_LEN {
      LargePowers();
      var b, s := BucketAt(n), SubBucketAt(n);
      Pow2Monotone(b, 24);
      Pow2Add(24, 8);
      MulLe(s, 255, Pow2(b));
    }
  }

  lemma HighestOf(v: nat)
    ensures CountsIndexFor(v) >= 0
    ensures var n := CountsIndexFor(v);
            HighestEquivalentValue(v) == ValueFromIndex(BucketAt(n), SubBucketAt(n)) + Pow2(BucketAt(n)) - 1
  {
    hide Pow2, GetBucketIndex, CountsIndexFor;
    BarHolds(v);
  }

  /** A bar is one value wide below 256, and otherwise at most one part in 128 of any of its values. */
  lemma BarWidth(v: nat)
    ensures CountsIndexFor(v) >= 0
    ensures Pow2(BucketAt(CountsIndexFor(v))) - 1 <= v / 128
    ensures v < 256 ==> Pow2(BucketAt(CountsIndexFor(v))) == 1
  {
    hide Pow2, GetBucketIndex, CountsIndexFor;
    BarHolds(v);
    SmallPowers();
    IndexOf(v);
    if v >= 256 {
      Pow2Add(7, GetBucketIndex(v));
    }
  }

  /** The highest equivalent value is the largest value with the same index; it is exact below 256 and
      otherwise off by at most one part in 128. */
  lemma {:induction false} HighestIsLargest(v: nat)
    ensures var h := HighestEquivalentValue(v);
            && v <= h <= v + v / 128
            && (v < 256 ==> h == v)
            && CountsIndexFor(h) == CountsIndexFor(v)
            && forall u: nat :: CountsIndexFor(u) == CountsIndexFor(v) ==> u <= h
  {
    hide Pow2, GetBucketIndex, CountsIndexFor, ValueFromIndex, BucketAt, SubBucketAt, HighestEquivalentValue;
    HighestOf(v);
    BarHolds(v);
    BarWidth(v);
    var n := CountsIndexFor(v);
    var h := HighestEquivalentValue(v);
    BarOf(n, h);
    forall u: nat | CountsIndexFor(u) == n
      ensures u <= h
    {
      BarOf(n, u);
    }
  }
}
