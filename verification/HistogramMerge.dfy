/** The in-place merge of two histogram messages (`mergeHistogram`), proved against `MergeBars`. */
module HistogramMerge {
  import opened Histograms

  /** int32 subtraction with wrap-around; `mergeHistogram` compares buckets by its sign. */
  function Sub32(a: int, b: int): int {
    (a - b + 0x8000_0000) % 0x1_0000_0000 - 0x8000_0000
  }

  ghost predicate NonNegative32(s: seq<int>) {
    forall i :: 0 <= i < |s| ==> 0 <= s[i] < 0x8000_0000
  }

  ghost predicate Ascending(s: seq<int>) {
    forall i, j :: 0 <= i < j < |s| ==> s[i] < s[j]
  }

  /** Two parallel slices read as bars. */
  ghost function Zip(buckets: seq<int>, counts: seq<int>): (r: seq<Bar>)
    requires |buckets| == |counts|
    ensures |r| == |buckets|
    ensures forall i :: 0 <= i < |r| ==> r[i] == Bar(buckets[i], counts[i])
  {
    seq(|buckets|, i requires 0 <= i < |buckets| => Bar(buckets[i], counts[i]))
  }

  /** How many buckets two ascending slices share, counted from the front. */
  ghost function Shared(to: seq<int>, from: seq<int>): nat
    decreases |to| + |from|
  {
    if to == [] || from == [] then 0
    else if to[0] == from[0] then 1 + Shared(to[1..], from[1..])
    else if to[0] < from[0] then Shared(to[1..], from)
    else Shared(to, from[1..])
  }

  ghost function Elements(s: seq<int>): set<int> {
    set i | 0 <= i < |s| :: s[i]
  }

  lemma ElementsHead(s: seq<int>)
    requires Ascending(s) && s != []
    ensures Elements(s) == {s[0]} + Elements(s[1..])
    ensures forall x :: x in Elements(s[1..]) ==> s[0] < x
    ensures Ascending(s[1..])
  {
    forall x | x in Elements(s)
      ensures x in {s[0]} + Elements(s[1..])
    {
      var i :| 0 <= i < |s| && s[i] == x;
      if i > 0 {
        assert s[1..][i - 1] == x;
      }
    }
  }

  lemma IntersectHeads(x: int, a: set<int>, y: int, b: set<int>)
    requires forall z :: z in a ==> x < z
    requires forall z :: z in b ==> y < z
    ensures x == y ==> ({x} + a) * ({y} + b) == {x} + a * b && x !in a * b
    ensures x < y ==> ({x} + a) * ({y} + b) == a * ({y} + b)
    ensures x > y ==> ({x} + a) * ({y} + b) == ({x} + a) * b
  {
  }

  lemma {:induction false} SharedIsIntersection(to: seq<int>, from: seq<int>)
    requires Ascending(to) && Ascending(from)
    ensures Shared(to, from) == |Elements(to) * Elements(from)|
    decreases |to| + |from|
  {
    if to == [] || from == [] {
      assert Elements(to) * Elements(from) == {};
    } else {
      ElementsHead(to);
      ElementsHead(from);
      IntersectHeads(to[0], Elements(to[1..]), from[0], Elements(from[1..]));
      if to[0] == from[0] {
        SharedIsIntersection(to[1..], from[1..]);
      } else if to[0] < from[0] {
        SharedIsIntersection(to[1..], from);
      } else {
        SharedIsIntersection(to, from[1..]);
      }
    }
  }

  lemma {:induction false} SizeOfElements(s: seq<int>)
    requires Ascending(s)
    ensures |Elements(s)| == |s|
  {
    if s != [] {
      ElementsHead(s);
      SizeOfElements(s[1..]);
    }
  }

  lemma {:induction false} SizeOfUnion(a: set<int>, b: set<int>)
    ensures |a + b| + |a * b| == |a| + |b|
  {
    assert a + b == a + (b - a);
    assert b == (b - a) + a * b;
  }

  ghost function Buckets(s: seq<Bar>): seq<int> {
    seq(|s|, i requires 0 <= i < |s| => s[i].bucket)
  }

  lemma BucketsOf(s: seq<Bar>)
    requires Sorted(s)
    ensures Ascending(Buckets(s)) && Elements(Buckets(s)) == BucketSet(s)
  {
    assert forall i :: 0 <= i < |s| ==> Buckets(s)[i] == s[i].bucket;
  }

  /** The counting pass is exact: the merge has one bar per bucket of the union. */
  lemma {:induction false} MergedSize(to: seq<Bar>, from: seq<Bar>)
    requires Sorted(to) && Sorted(from)
    ensures |MergeBars(to, from)| == |to| + |from| - Shared(Buckets(to), Buckets(from))
  {
    var m := MergeBars(to, from);
    MergeSorted(to, from);
    MergeBuckets(to, from);
    BucketsOf(to);
    BucketsOf(from);
    BucketsOf(m);
    SizeOfElements(Buckets(to));
    SizeOfElements(Buckets(from));
    SizeOfElements(Buckets(m));
    SharedIsIntersection(Buckets(to), Buckets(from));
    SizeOfUnion(BucketSet(to), BucketSet(from));
  }

  /** Skipping the buckets of `to` below the first bucket of `from` misses no shared bucket. */
  lemma {:induction false} SharedSkip(to: seq<int>, from: seq<int>, k: nat)
    requires k <= |to| && from != []
    requires forall i :: 0 <= i < k ==> to[i] < from[0]
    ensures Shared(to, from) == Shared(to[k..], from)
  {
    if k > 0 {
      SharedSkip(to[1..], from, k - 1);
      assert to[1..][k - 1..] == to[k..];
    } else {
      assert to[0..] == to;
    }
  }

  /** Below the insertion point nothing interleaves, so one bulk copy finishes the merge. */
  lemma {:induction false} MergeDisjoint(to: seq<Bar>, from: seq<Bar>)
    requires forall i, j :: 0 <= i < |to| && 0 <= j < |from| ==> to[i].bucket < from[j].bucket
    ensures MergeBars(to, from) == to + from
    decreases |from|
  {
    if from == [] {
      assert to + from == to;
    } else if to == [] {
      assert to + from == from;
    } else {
      var n := |from| - 1;
      MergeDisjoint(to, from[..n]);
      assert to + from == (to + from[..n]) + [from[n]];
    }
  }

  /** One bar of `from` merged into a bucket that `to` already has. */
  lemma {:induction false} MergeSingle(to: seq<Bar>, from: Bar, k: nat)
    requires Sorted(to) && k < |to| && to[k].bucket == from.bucket
    ensures MergeBars(to, [from]) == to[k := Bar(from.bucket, to[k].count + from.count)]
    decreases |to|
  {
    var n := |to| - 1;
    var merged := to[k := Bar(from.bucket, to[k].count + from.count)];
    if k == n {
      assert MergeBars(to[..n], []) == to[..n];
      assert [from][..0] == [];
      assert merged == to[..n] + [Bar(from.bucket, to[n].count + from.count)];
    } else {
      assert to[n].bucket > from.bucket;
      MergeSingle(to[..n], from, k);
      assert merged == to[..n][k := Bar(from.bucket, to[k].count + from.count)] + [to[n]];
    }
  }

  /** The message `aggregationpb.HDRHistogram`. Merging touches only its two slices. */
  class HDRHistogram {
    var lowestTrackableValue: int
    var highestTrackableValue: int
    var significantFigures: int
    var buckets: array<int>
    var counts: array<int>

    constructor (buckets: array<int>, counts: array<int>)
      ensures this.buckets == buckets && this.counts == counts
    {
      this.buckets, this.counts := buckets, counts;
    }

    ghost predicate Valid()
      reads this, buckets, counts
    {
      && buckets != counts
      && buckets.Length == counts.Length
      && Ascending(buckets[..])
      && NonNegative32(buckets[..])
    }

    ghost function Bars(): (r: seq<Bar>)
      reads this, buckets, counts
      requires Valid()
      ensures Sorted(r)
    {
      Zip(buckets[..], counts[..])
    }
  }

  /** `sort.Find` over an ascending slice: the least index whose element is not below `key`. */
  method Find(s: array<int>, key: int) returns (at: nat, found: bool)
    requires Ascending(s[..]) && NonNegative32(s[..]) && 0 <= key < 0x8000_0000
    ensures at <= s.Length
    ensures forall i :: 0 <= i < at ==> s[i] < key
    ensures forall i :: at <= i < s.Length ==> key <= s[i]
    ensures found <==> key in s[..]
    ensures found ==> at < s.Length && s[at] == key
  {
    var i, j := 0, s.Length;
    while i < j
      invariant 0 <= i <= j <= s.Length
      invariant forall k :: 0 <= k < i ==> s[k] < key
      invariant forall k :: j <= k < s.Length ==> key <= s[k]
    {
      var h := (i + j) / 2;
      assert s[h] == s[..][h];
      assert Sub32(key, s[h]) == key - s[h];
      assert forall a, b :: 0 <= a < b < s.Length ==> s[..][a] < s[..][b];
      if Sub32(key, s[h]) > 0 {
        i := h + 1;
      } else {
        j := h;
      }
    }
    at := i;
    found := at < s.Length && Sub32(key, s[at]) == 0;
    if at < s.Length {
      assert s[at] == s[..][at];
      assert Sub32(key, s[at]) == key - s[at];
    }
    if key in s[..] {
      var k :| 0 <= k < s.Length && s[..][k] == key;
      assert Ascending(s[..]);
    }
  }

  /** The counting pass: the length of the merged slices. */
  method RequiredLength(to: array<int>, from: array<int>, start: nat) returns (n: int)
    requires Ascending(to[..]) && NonNegative32(to[..])
    requires Ascending(from[..]) && NonNegative32(from[..]) && from.Length > 0
    requires start <= to.Length
    requires forall i :: 0 <= i < start ==> to[i] < from[0]
    ensures n == to.Length + from.Length - Shared(to[..], from[..])
  {
    n := to.Length + from.Length;
    var toIdx, fromIdx := start, 0;
    ghost var t, f := to[..], from[..];
    SharedSkip(t, f, start);
    assert f[0..] == f;
    hide Shared;
    while toIdx < to.Length && fromIdx < from.Length
      invariant 0 <= toIdx <= |t| && 0 <= fromIdx <= |f|
      invariant to.Length + from.Length - n + Shared(t[toIdx..], f[fromIdx..]) == Shared(t, f)
      decreases (to.Length - toIdx) + (from.Length - fromIdx)
    {
      SharedStep(t, f, toIdx, fromIdx);
      var v := Sub32(to[toIdx], from[fromIdx]);
      SubtractsExactly(t, f, toIdx, fromIdx);
      if v == 0 {
        n := n - 1;
        toIdx, fromIdx := toIdx + 1, fromIdx + 1;
      } else if v < 0 {
        toIdx := toIdx + 1;
      } else {
        fromIdx := fromIdx + 1;
      }
    }
    SharedWithEmpty(t[toIdx..], f[fromIdx..]);
  }

  /** Non-negative int32 numbers subtract without wrap-around. */
  lemma SubtractsExactly(to: seq<int>, from: seq<int>, i: nat, j: nat)
    requires NonNegative32(to) && NonNegative32(from) && i < |to| && j < |from|
    ensures Sub32(to[i], from[j]) == to[i] - from[j]
  {
  }

  lemma SharedWithEmpty(to: seq<int>, from: seq<int>)
    ensures to == [] || from == [] ==> Shared(to, from) == 0
  {
  }

  /** One turn of the counting pass. */
  lemma SharedStep(to: seq<int>, from: seq<int>, i: nat, j: nat)
    requires i < |to| && j < |from|
    ensures Shared(to[i..], from[j..])
            == if to[i] == from[j] then 1 + Shared(to[i + 1..], from[j + 1..])
               else if to[i] < from[j] then Shared(to[i + 1..], from[j..])
               else Shared(to[i..], from[j + 1..])
  {
    assert to[i..][1..] == to[i + 1..] && from[j..][1..] == from[j + 1..];
  }

  /** `slices.Grow(s, n - len(s))[:n]`: a longer slice with the old elements in front. */
  method Grow(s: array<int>, n: nat) returns (r: array<int>)
    requires s.Length <= n
    ensures fresh(r) && r.Length == n
    ensures r[..s.Length] == s[..]
  {
    r := new int[n];
    var i := 0;
    while i < s.Length
      invariant 0 <= i <= s.Length
      invariant r[..i] == s[..i]
    {
      r[i] := s[i];
      i := i + 1;
    }
  }

  /** `s` with `t` copied over its elements from `at` on. */
  ghost function Spliced(s: seq<int>, at: nat, t: seq<int>): (r: seq<int>)
    requires at + |t| <= |s|
    ensures |r| == |s|
    ensures forall i :: 0 <= i < |s| ==> r[i] == if at <= i < at + |t| then t[i - at] else s[i]
  {
    seq(|s|, i requires 0 <= i < |s| => if at <= i < at + |t| then t[i - at] else s[i])
  }

  /** Go's `copy(dst[at:at+n], src[0:n])` for slices that do not overlap. */
  method CopyInto(dst: array<int>, at: nat, src: array<int>, n: nat)
    requires dst != src && at + n <= dst.Length && n <= src.Length
    modifies dst
    ensures dst[..] == Spliced(old(dst[..]), at, src[..n])
  {
    var i := 0;
    while i < n
      invariant 0 <= i <= n
      invariant forall k :: 0 <= k < dst.Length ==> dst[k] == if at <= k < at + i then src[k - at] else old(dst[k])
    {
      dst[at + i] := src[i];
      i := i + 1;
    }
  }

  /** One bar written at the same place of both slices. */
  method Put(buckets: array<int>, counts: array<int>, at: nat, bucket: int, count: int)
    requires buckets != counts && at < buckets.Length && at < counts.Length
    modifies buckets, counts
    ensures buckets[..] == old(buckets[..])[at := bucket]
    ensures counts[..] == old(counts[..])[at := count]
  {
    counts[at] := count;
    buckets[at] := bucket;
  }

  /** What the bars not yet read merge to. */
  ghost function Rest(to: seq<Bar>, from: seq<Bar>, toIdx: int, fromIdx: int): seq<Bar>
    requires -1 <= toIdx < |to| && -1 <= fromIdx < |from|
  {
    MergeBars(to[..toIdx + 1], from[..fromIdx + 1])
  }

  /** The state of the backward pass towards `all`: the bars not yet read merge to the first
      `idx + 1` bars of `all`, the others are in place, and the unread bars of `to` are untouched. */
  ghost predicate Placed(buckets: seq<int>, counts: seq<int>, to: seq<Bar>, from: seq<Bar>, all: seq<Bar>,
                         idx: int, toIdx: int, fromIdx: int)
  {
    && |buckets| == |counts| == |all|
    && -1 <= toIdx < |to| && -1 <= fromIdx < |from| && toIdx <= idx < |all|
    && Rest(to, from, toIdx, fromIdx) == all[..idx + 1]
    && (forall k :: idx < k < |all| ==> Bar(buckets[k], counts[k]) == all[k])
    && (forall k :: 0 <= k <= toIdx ==> Bar(buckets[k], counts[k]) == to[k])
  }

  /** The bar that the backward pass writes next. */
  ghost function NextBar(t: Bar, f: Bar): Bar {
    if t.bucket == f.bucket then Bar(t.bucket, t.count + f.count) else if t.bucket > f.bucket then t else f
  }

  lemma RestStep(to: seq<Bar>, from: seq<Bar>, toIdx: nat, fromIdx: nat)
    requires toIdx < |to| && fromIdx < |from|
    ensures var t, f := to[toIdx], from[fromIdx];
            && Rest(to, from, toIdx, fromIdx)
               == Rest(to, from, if t.bucket >= f.bucket then toIdx - 1 else toIdx,
                                 if t.bucket <= f.bucket then fromIdx - 1 else fromIdx) + [NextBar(t, f)]
  {
    assert to[..toIdx + 1][..toIdx] == to[..toIdx] && from[..fromIdx + 1][..fromIdx] == from[..fromIdx];
  }

  /** One step of the backward pass keeps `Placed`, whichever side the next bar comes from. */
  lemma PlacedStep(buckets: seq<int>, counts: seq<int>, to: seq<Bar>, from: seq<Bar>, all: seq<Bar>,
                   idx: int, toIdx: nat, fromIdx: nat)
    requires Placed(buckets, counts, to, from, all, idx, toIdx, fromIdx)
    ensures to[toIdx] == Bar(buckets[toIdx], counts[toIdx])
    ensures var t, f := to[toIdx], from[fromIdx];
            Placed(buckets[idx := NextBar(t, f).bucket], counts[idx := NextBar(t, f).count], to, from, all, idx - 1,
                   if t.bucket >= f.bucket then toIdx - 1 else toIdx,
                   if t.bucket <= f.bucket then fromIdx - 1 else fromIdx)
  {
    var t, f := to[toIdx], from[fromIdx];
    var to' := if t.bucket >= f.bucket then toIdx - 1 else toIdx;
    var from' := if t.bucket <= f.bucket then fromIdx - 1 else fromIdx;
    RestStep(to, from, toIdx, fromIdx);
    MergeLonger(to[..to' + 1], from[..from' + 1]);
    assert Rest(to, from, to', from') == all[..idx];
    assert all[idx] == NextBar(t, f);
  }

  lemma {:induction false} MergeLonger(to: seq<Bar>, from: seq<Bar>)
    ensures |MergeBars(to, from)| >= |to| && |MergeBars(to, from)| >= |from|
    decreases |to| + |from|
  {
    if from != [] && to != [] {
      var t, f := to[|to| - 1], from[|from| - 1];
      if t.bucket == f.bucket {
        MergeLonger(to[..|to| - 1], from[..|from| - 1]);
      } else if t.bucket > f.bucket {
        MergeLonger(to[..|to| - 1], from);
      } else {
        MergeLonger(to, from[..|from| - 1]);
      }
    }
  }

  lemma AddToSharedBucket(tb: seq<int>, tc: seq<int>, bucket: int, count: int, k: nat)
    requires |tb| == |tc| && Ascending(tb) && k < |tb| && tb[k] == bucket
    ensures Zip(tb, tc[k := tc[k] + count]) == MergeBars(Zip(tb, tc), [Bar(bucket, count)])
  {
    MergeSingle(Zip(tb, tc), Bar(bucket, count), k);
  }

  /** Appending to an empty histogram: a copy of `from`. */
  method Adopt(to: HDRHistogram, from: HDRHistogram)
    requires from.Valid() && to != from
    modifies to`buckets, to`counts
    ensures to.Valid() && from.Valid()
    ensures to.Bars() == from.Bars() == old(from.Bars())
    ensures {to.buckets, to.counts} !! {from.buckets, from.counts}
  {
    var buckets := Grow(from.buckets, from.buckets.Length);
    var counts := Grow(from.counts, from.counts.Length);
    assert buckets[..] == from.buckets[..] && counts[..] == from.counts[..];
    to.buckets, to.counts := buckets, counts;
  }

  /** `mergeHistogram`: `to` becomes the merged histogram and `from` keeps its contents. */
  method MergeHistogram(to: HDRHistogram, from: HDRHistogram)
    requires to.Valid() && from.Valid()
    requires {to.buckets, to.counts} !! {from.buckets, from.counts} && to != from
    modifies to`buckets, to`counts, to.buckets, to.counts
    ensures to.Valid() && from.Valid()
    ensures to.Bars() == MergeBars(old(to.Bars()), old(from.Bars()))
    ensures from.Bars() == old(from.Bars())
    ensures {to.buckets, to.counts} !! {from.buckets, from.counts}
  {
    if from.buckets.Length == 0 {
      return;
    }
    if to.buckets.Length == 0 {
      Adopt(to, from);
      return;
    }
    assert from.buckets[0] == from.buckets[..][0];
    var start, found := Find(to.buckets, from.buckets[0]);
    if found && from.buckets.Length == 1 {
      AddToSharedBucket(to.buckets[..], to.counts[..], from.buckets[0], from.counts[0], start);
      assert from.Bars() == [Bar(from.buckets[0], from.counts[0])];
      to.counts[start] := to.counts[start] + from.counts[0];
      assert to.counts[..] == old(to.counts[..])[start := old(to.counts[..])[start] + from.counts[0]];
      return;
    }
    BackwardMerge(to, from, start);
  }

  lemma MergedBuckets(tb: seq<int>, tc: seq<int>, fb: seq<int>, fc: seq<int>, buckets: seq<int>, counts: seq<int>)
    requires |tb| == |tc| && |fb| == |fc| && |buckets| == |counts|
    requires Ascending(tb) && NonNegative32(tb) && Ascending(fb) && NonNegative32(fb)
    requires Zip(buckets, counts) == MergeBars(Zip(tb, tc), Zip(fb, fc))
    ensures Ascending(buckets) && NonNegative32(buckets)
  {
    var t, f, m := Zip(tb, tc), Zip(fb, fc), Zip(buckets, counts);
    MergeSorted(t, f);
    MergeBuckets(t, f);
    forall i | 0 <= i < |buckets|
      ensures 0 <= buckets[i] < 0x8000_0000
    {
      assert m[i].bucket in BucketSet(m);
    }
    forall i, j | 0 <= i < j < |buckets|
      ensures buckets[i] < buckets[j]
    {
      assert m[i].bucket < m[j].bucket;
    }
  }

  /** The general case: count the merged length, grow the slices, fill them from the back. */
  method BackwardMerge(to: HDRHistogram, from: HDRHistogram, start: nat)
    requires to.Valid() && from.Valid()
    requires {to.buckets, to.counts} !! {from.buckets, from.counts} && to != from
    requires from.buckets.Length > 0 && start <= to.buckets.Length
    requires forall i :: 0 <= i < start ==> to.buckets[i] < from.buckets[0]
    modifies to`buckets, to`counts
    ensures to.Valid() && from.Valid()
    ensures to.Bars() == MergeBars(old(to.Bars()), old(from.Bars()))
    ensures from.Bars() == old(from.Bars())
    ensures {to.buckets, to.counts} !! {from.buckets, from.counts}
  {
    ghost var tb, tc, fb, fc := to.buckets[..], to.counts[..], from.buckets[..], from.counts[..];
    ghost var toBars, all := Zip(tb, tc), MergeBars(Zip(tb, tc), Zip(fb, fc));
    var n := RequiredLength(to.buckets, from.buckets, start);
    RequiredIsMerged(tb, tc, fb, fc);
    var toIdx, fromIdx := to.buckets.Length - 1, from.buckets.Length - 1;
    var buckets := Grow(to.buckets, n);
    var counts := Grow(to.counts, n);
    StartPlaced(buckets[..], counts[..], tb, tc, Zip(fb, fc));
    FillBackward(buckets, counts, from.buckets, from.counts, toBars, all, start, toIdx, fromIdx);
    MergedBuckets(tb, tc, fb, fc, buckets[..], counts[..]);
    to.buckets, to.counts := buckets, counts;
  }

  lemma RequiredIsMerged(tb: seq<int>, tc: seq<int>, fb: seq<int>, fc: seq<int>)
    requires |tb| == |tc| && |fb| == |fc| && Ascending(tb) && Ascending(fb)
    ensures var n := |MergeBars(Zip(tb, tc), Zip(fb, fc))|;
            n == |tb| + |fb| - Shared(tb, fb) && n >= |tb|
  {
    var to, from := Zip(tb, tc), Zip(fb, fc);
    assert Buckets(to) == tb && Buckets(from) == fb;
    MergedSize(to, from);
    MergeLonger(to, from);
  }

  lemma StartPlaced(buckets: seq<int>, counts: seq<int>, tb: seq<int>, tc: seq<int>, from: seq<Bar>)
    requires |tb| == |tc| && |buckets| == |counts| == |MergeBars(Zip(tb, tc), from)| && |tb| <= |buckets|
    requires buckets[..|tb|] == tb && counts[..|tb|] == tc
    ensures Placed(buckets, counts, Zip(tb, tc), from, MergeBars(Zip(tb, tc), from), |buckets| - 1, |tb| - 1, |from| - 1)
  {
    var to := Zip(tb, tc);
    assert to[..|to|] == to && from[..|from|] == from;
    forall k | 0 <= k < |to|
      ensures Bar(buckets[k], counts[k]) == to[k]
    {
      assert tb[k] == buckets[..|tb|][k] && tc[k] == counts[..|tb|][k];
    }
  }

  /** Once `from` is used up, what is left of `to` is already where it belongs. */
  lemma FinishPlaced(buckets: seq<int>, counts: seq<int>, to: seq<Bar>, from: seq<Bar>, all: seq<Bar>,
                     idx: int, toIdx: int, fromIdx: int)
    requires Placed(buckets, counts, to, from, all, idx, toIdx, fromIdx)
    requires fromIdx < 0 || idx < 0
    ensures Zip(buckets, counts) == all
  {
    if fromIdx < 0 {
      assert to[..toIdx + 1] == all[..idx + 1];
    }
    forall k | 0 <= k < |all|
      ensures Zip(buckets, counts)[k] == all[k]
    {
      if k <= idx {
        assert to[..toIdx + 1][k] == all[..idx + 1][k];
      }
    }
  }

  lemma RestBelow(to: seq<Bar>, from: seq<Bar>, start: nat, fromIdx: nat)
    requires start <= |to| && fromIdx < |from| && Sorted(from)
    requires forall i :: 0 <= i < start ==> to[i].bucket < from[0].bucket
    ensures Rest(to, from, start - 1, fromIdx) == to[..start] + from[..fromIdx + 1]
  {
    MergeDisjoint(to[..start], from[..fromIdx + 1]);
  }

  /** The early exit: the rest of `from` goes in with one copy per slice, of matching length. */
  lemma BulkPlaced(buckets: seq<int>, counts: seq<int>, to: seq<Bar>, fromBuckets: seq<int>, fromCounts: seq<int>,
                   all: seq<Bar>, start: nat, idx: int, fromIdx: int)
    requires |fromBuckets| == |fromCounts| && 0 <= fromIdx && start <= |to|
    requires Placed(buckets, counts, to, Zip(fromBuckets, fromCounts), all, idx, start - 1, fromIdx)
    requires Ascending(fromBuckets)
    requires forall i :: 0 <= i < start ==> to[i].bucket < fromBuckets[0]
    ensures idx + 1 == start + fromIdx + 1
    ensures Zip(Spliced(buckets, start, fromBuckets[..fromIdx + 1]), Spliced(counts, start, fromCounts[..fromIdx + 1]))
         == all
  {
    var from := Zip(fromBuckets, fromCounts);
    RestBelow(to, from, start, fromIdx);
    var rest := to[..start] + from[..fromIdx + 1];
    var b, c := Spliced(buckets, start, fromBuckets[..fromIdx + 1]), Spliced(counts, start, fromCounts[..fromIdx + 1]);
    forall k | 0 <= k < |all|
      ensures Bar(b[k], c[k]) == all[k]
    {
      if k <= idx {
        assert rest[k] == all[..idx + 1][k];
      }
    }
  }

  /** One turn of the backward pass. */
  method PlaceNext(buckets: array<int>, counts: array<int>, fromBuckets: array<int>, fromCounts: array<int>,
                   ghost toBars: seq<Bar>, ghost all: seq<Bar>, idx: int, toIdx: nat, fromIdx: nat)
    returns (toIdx': int, fromIdx': int)
    requires buckets != counts && {buckets, counts} !! {fromBuckets, fromCounts}
    requires fromBuckets.Length == fromCounts.Length && buckets.Length == counts.Length
    requires NonNegative32(fromBuckets[..])
    requires forall i :: 0 <= i < |toBars| ==> 0 <= toBars[i].bucket < 0x8000_0000
    requires Placed(buckets[..], counts[..], toBars, Zip(fromBuckets[..], fromCounts[..]), all, idx, toIdx, fromIdx)
    modifies buckets, counts
    ensures Placed(buckets[..], counts[..], toBars, Zip(fromBuckets[..], fromCounts[..]), all, idx - 1, toIdx', fromIdx')
    ensures toIdx - 1 <= toIdx'
  {
    ghost var fromBars := Zip(fromBuckets[..], fromCounts[..]);
    PlacedStep(buckets[..], counts[..], toBars, fromBars, all, idx, toIdx, fromIdx);
    var v := Sub32(buckets[toIdx], fromBuckets[fromIdx]);
    assert v == toBars[toIdx].bucket - fromBars[fromIdx].bucket by {
      assert fromBuckets[fromIdx] == fromBuckets[..][fromIdx];
    }
    var bucket, count;
    if v == 0 {
      bucket, count := buckets[toIdx], counts[toIdx] + fromCounts[fromIdx];
      toIdx', fromIdx' := toIdx - 1, fromIdx - 1;
    } else if v > 0 {
      bucket, count := buckets[toIdx], counts[toIdx];
      toIdx', fromIdx' := toIdx - 1, fromIdx;
    } else {
      bucket, count := fromBuckets[fromIdx], fromCounts[fromIdx];
      toIdx', fromIdx' := toIdx, fromIdx - 1;
    }
    assert Bar(bucket, count) == NextBar(toBars[toIdx], fromBars[fromIdx]);
    Put(buckets, counts, idx, bucket, count);
  }

  /** The backward pass over the grown slices. */
  method FillBackward(buckets: array<int>, counts: array<int>, fromBuckets: array<int>, fromCounts: array<int>,
                      ghost toBars: seq<Bar>, ghost all: seq<Bar>, start: nat, lastTo: int, lastFrom: int)
    requires buckets != counts && {buckets, counts} !! {fromBuckets, fromCounts}
    requires fromBuckets.Length == fromCounts.Length > 0 && buckets.Length == counts.Length
    requires Ascending(fromBuckets[..]) && NonNegative32(fromBuckets[..])
    requires Placed(buckets[..], counts[..], toBars, Zip(fromBuckets[..], fromCounts[..]), all,
                    buckets.Length - 1, lastTo, lastFrom)
    requires start <= |toBars| && start - 1 <= lastTo
    requires forall i :: 0 <= i < start ==> toBars[i].bucket < fromBuckets[0]
    requires forall i :: 0 <= i < |toBars| ==> 0 <= toBars[i].bucket < 0x8000_0000
    modifies buckets, counts
    ensures Zip(buckets[..], counts[..]) == all
  {
    var toIdx, fromIdx := lastTo, lastFrom;
    var idx := buckets.Length - 1;
    ghost var fb, fc := fromBuckets[..], fromCounts[..];
    while idx >= 0
      invariant Placed(buckets[..], counts[..], toBars, Zip(fb, fc), all, idx, toIdx, fromIdx)
      invariant start - 1 <= toIdx
      decreases idx
    {
      if fromIdx < 0 {
        break;
      }
      if toIdx < start {
        BulkPlaced(buckets[..], counts[..], toBars, fb, fc, all, start, idx, fromIdx);
        CopyInto(counts, start, fromCounts, fromIdx + 1);
        CopyInto(buckets, start, fromBuckets, fromIdx + 1);
        return;
      }
      toIdx, fromIdx := PlaceNext(buckets, counts, fromBuckets, fromCounts, toBars, all, idx, toIdx, fromIdx);
      idx := idx - 1;
    }
    FinishPlaced(buckets[..], counts[..], toBars, Zip(fb, fc), all, idx, toIdx, fromIdx);
  }
}
