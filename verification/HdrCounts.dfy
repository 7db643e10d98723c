/** The sparse counts behind an HDR histogram: one inline bar that is promoted to a sorted slice. */
module HdrCounts {
  import opened Histograms
  import opened HistogramMerge

  /** Two lists of bars record the same counts; a bar with count zero records nothing. */
  ghost predicate Same(x: seq<Bar>, y: seq<Bar>) {
    forall b :: CountAt(x, b) == CountAt(y, b)
  }

  ghost function NonZero(s: seq<Bar>): (r: seq<Bar>) {
    if s == [] then []
    else
      var last := s[|s| - 1];
      if last.count != 0 then NonZero(s[..|s| - 1]) + [last] else NonZero(s[..|s| - 1])
  }

  lemma {:induction false} NonZeroKeeps(s: seq<Bar>)
    requires Sorted(s)
    ensures Sorted(NonZero(s)) && BucketSet(NonZero(s)) <= BucketSet(s)
    ensures Same(NonZero(s), s)
    ensures forall i :: 0 <= i < |NonZero(s)| ==> NonZero(s)[i].count != 0
  {
    if s != [] {
      var init, last := s[..|s| - 1], s[|s| - 1];
      NonZeroKeeps(init);
      BucketSetLast(s);
      LastIsLargest(s);
      if last.count != 0 {
        var r := NonZero(init);
        SortedSnoc(r, last);
        BucketSetSnoc(r, last);
        forall b
          ensures CountAt(r + [last], b) == CountAt(s, b)
        {
          CountAtSnoc(r, last, b);
          assert CountAt(r, b) == CountAt(init, b);
        }
      } else {
        assert forall b :: CountAt(s, b) == CountAt(init, b);
      }
    }
  }

  /** In a sorted list a bar is the count of its bucket. */
  lemma {:induction false} CountOfBar(s: seq<Bar>, i: nat)
    requires Sorted(s) && i < |s|
    ensures CountAt(s, s[i].bucket) == s[i].count
  {
    var n := |s| - 1;
    if i == n {
      LastIsLargest(s);
      CountAtAbsent(s[..n], s[n].bucket);
    } else {
      CountOfBar(s[..n], i);
    }
  }

  lemma NonZeroBuckets(s: seq<Bar>, b: int)
    requires Sorted(s) && (forall i :: 0 <= i < |s| ==> s[i].count != 0)
    ensures b in BucketSet(s) <==> CountAt(s, b) != 0
  {
    if b in BucketSet(s) {
      var i :| 0 <= i < |s| && s[i].bucket == b;
      CountOfBar(s, i);
    } else {
      CountAtAbsent(s, b);
    }
  }

  /** Up to zero counts, sorted bars are determined by what they record. */
  lemma {:induction false} SameIsEqual(x: seq<Bar>, y: seq<Bar>)
    requires Sorted(x) && Sorted(y)
    ensures Same(x, y) <==> NonZero(x) == NonZero(y)
  {
    NonZeroKeeps(x);
    NonZeroKeeps(y);
    var p, q := NonZero(x), NonZero(y);
    if Same(x, y) {
      assert Same(p, q) by {
        forall b ensures CountAt(p, b) == CountAt(q, b) {
          assert CountAt(x, b) == CountAt(y, b);
        }
      }
      forall b
        ensures b in BucketSet(p) <==> b in BucketSet(q)
      {
        NonZeroBuckets(p, b);
        NonZeroBuckets(q, b);
      }
      assert BucketSet(p) == BucketSet(q);
      Canonical(p, q);
    }
    if p == q {
      forall b
        ensures CountAt(x, b) == CountAt(y, b)
      {
        assert CountAt(p, b) == CountAt(x, b) && CountAt(q, b) == CountAt(y, b);
      }
    }
  }

  /** A bar for a new bucket is inserted where the search stopped. */
  lemma {:induction false} MergeInsert(to: seq<Bar>, bar: Bar, at: nat)
    requires at <= |to|
    requires forall i :: 0 <= i < at ==> to[i].bucket < bar.bucket
    requires forall i :: at <= i < |to| ==> bar.bucket < to[i].bucket
    ensures MergeBars(to, [bar]) == to[..at] + [bar] + to[at..]
    decreases |to|
  {
    if at == |to| {
      MergeDisjoint(to, [bar]);
      assert to[..at] + [bar] + to[at..] == to + [bar];
    } else {
      var n := |to| - 1;
      MergeInsert(to[..n], bar, at);
      InsertBeforeLast(to, bar, at);
    }
  }

  lemma InsertBeforeLast(to: seq<Bar>, bar: Bar, at: nat)
    requires at < |to|
    ensures to[..at] + [bar] + to[at..]
            == to[..|to| - 1][..at] + [bar] + to[..|to| - 1][at..] + [to[|to| - 1]]
  {
  }

  /** `slices.BinarySearchFunc` with `compareBar`. */
  method Search(s: seq<Bar>, bucket: int) returns (at: nat, found: bool)
    requires Sorted(s)
    ensures at <= |s|
    ensures forall i :: 0 <= i < at ==> s[i].bucket < bucket
    ensures forall i :: at <= i < |s| ==> bucket <= s[i].bucket
    ensures found <==> at < |s| && s[at].bucket == bucket
    ensures found <==> bucket in BucketSet(s)
  {
    var i, j := 0, |s|;
    while i < j
      invariant 0 <= i <= j <= |s|
      invariant forall k :: 0 <= k < i ==> s[k].bucket < bucket
      invariant forall k :: j <= k < |s| ==> bucket <= s[k].bucket
    {
      var h := (i + j) / 2;
      if s[h].bucket < bucket {
        i := h + 1;
      } else {
        j := h;
      }
    }
    at := i;
    found := at < |s| && s[at].bucket == bucket;
  }

  /** One bar merged into a record, which is inline or a slice. */
  ghost function Added(inline: bool, bars: seq<Bar>, bucket: int, value: int): seq<Bar> {
    if inline && bars == [] && bucket == 0 && value == 0 then [] else MergeBars(bars, [Bar(bucket, value)])
  }

  /** Every bar of `x` has its bucket in `y`, with the same count. */
  ghost predicate Found(x: seq<Bar>, y: seq<Bar>) {
    forall i :: 0 <= i < |x| ==> x[i].bucket in BucketSet(y) && x[i].count == CountAt(y, x[i].bucket)
  }

  lemma FoundLast(x: seq<Bar>, y: seq<Bar>)
    requires x != []
    ensures var last := x[|x| - 1];
            Found(x, y) <==> Found(x[..|x| - 1], y) && last.bucket in BucketSet(y) && last.count == CountAt(y, last.bucket)
  {
    hide CountAt, BucketSet;
    var init := x[..|x| - 1];
    assert forall i :: 0 <= i < |init| ==> init[i] == x[i];
    if Found(init, y) && x[|x| - 1].bucket in BucketSet(y) && x[|x| - 1].count == CountAt(y, x[|x| - 1].bucket) {
      forall i | 0 <= i < |x|
        ensures x[i].bucket in BucketSet(y) && x[i].count == CountAt(y, x[i].bucket)
      {
        assert i < |init| ==> x[i] == init[i];
      }
    }
  }

  /** Of two sorted lists of the same length, one found in the other is the other. */
  lemma FoundIsEqual(x: seq<Bar>, y: seq<Bar>)
    requires Sorted(x) && Sorted(y) && |x| == |y|
    ensures Found(x, y) <==> x == y
  {
    if x == y {
      forall i | 0 <= i < |x|
        ensures x[i].bucket in BucketSet(y) && x[i].count == CountAt(y, x[i].bucket)
      {
        CountOfBar(x, i);
        assert y[i].bucket in BucketSet(y);
      }
    }
    if Found(x, y) {
      hide CountAt;
      BucketsOf(x);
      BucketsOf(y);
      SizeOfElements(Buckets(x));
      SizeOfElements(Buckets(y));
      assert BucketSet(x) <= BucketSet(y);
      SameSize(BucketSet(x), BucketSet(y));
      forall b
        ensures CountAt(x, b) == CountAt(y, b)
      {
        if b in BucketSet(x) {
          var i :| 0 <= i < |x| && x[i].bucket == b;
          CountOfBar(x, i);
        } else {
          CountAtAbsent(x, b);
          CountAtAbsent(y, b);
        }
      }
      Canonical(x, y);
    }
  }

  lemma SameSize(a: set<int>, b: set<int>)
    requires a <= b && |a| == |b|
    ensures a == b
  {
    assert b == a + (b - a);
  }

  class HybridCountsRep {
    var bucket: int
    var value: int
    /** None is the nil slice. */
    var s: Option<seq<Bar>>

    constructor ()
      ensures Valid() && Bars() == [] && s.None?
    {
      bucket, value, s := 0, 0, None;
    }

    ghost predicate Valid()
      reads this
    {
      s.Some? ==> Sorted(s.value) && bucket == 0 && value == 0
    }

    /** The recorded bars, in both representations. */
    ghost function Bars(): (r: seq<Bar>)
      reads this
      requires Valid()
      ensures Sorted(r)
    {
      if s.Some? then s.value
      else if bucket != 0 || value != 0 then [Bar(bucket, value)]
      else []
    }

    /** An Add merges one bar into the record. A zero count for bucket 0 leaves no bar when it comes
        first, since the inline form of that bar is the empty record. */
    method Add(bucket: int, value: int)
      requires Valid()
      modifies this
      ensures Valid()
      ensures Bars() == Added(old(s.None?), old(Bars()), bucket, value)
      ensures forall b :: CountAt(Bars(), b) == CountAt(old(Bars()), b) + if b == bucket then value else 0
      ensures old(s.Some?) ==> s.Some?
      ensures Bars() == [] ==> old(Bars()) == [] && s.Some? == old(s.Some?)
    {
      hide CountAt, MergeBars;
      MergeSorted(Bars(), [Bar(bucket, value)]);
      AddedCounts(Bars(), bucket, value);
      if s.None? && this.bucket == 0 && this.value == 0 {
        this.bucket, this.value := bucket, value;
        return;
      }
      if s.None? {
        s := Some([Bar(this.bucket, this.value)]);
        this.bucket, this.value := 0, 0;
      }
      var at, found := Search(s.value, bucket);
      if found {
        MergeSingle(s.value, Bar(bucket, value), at);
        s := Some(s.value[at := Bar(bucket, s.value[at].count + value)]);
        return;
      }
      MergeInsert(s.value, Bar(bucket, value), at);
      s := Some(s.value[..at] + [Bar(bucket, value)] + s.value[at..]);
    }

    /** The calls that `ForEach` makes, in order. */
    method ForEach() returns (calls: seq<Bar>)
      requires Valid()
      ensures calls == Bars()
    {
      if s.None? && (bucket != 0 || value != 0) {
        return [Bar(bucket, value)];
      }
      calls := [];
      if s.Some? {
        for i := 0 to |s.value|
          invariant calls == s.value[..i]
        {
          calls := calls + [s.value[i]];
        }
      }
    }

    method Len() returns (n: nat)
      requires Valid()
      ensures n == |BucketSet(Bars())| == |Bars()|
    {
      BucketsOf(Bars());
      SizeOfElements(Buckets(Bars()));
      if s.Some? {
        return |s.value|;
      }
      if bucket != 0 || value != 0 {
        return 1;
      }
      return 0;
    }

    /** The count is right for every bucket, and 0 for one that has no bar. */
    method Get(bucket: int) returns (count: int, ok: bool)
      requires Valid()
      ensures count == CountAt(Bars(), bucket)
      ensures ok <==> bucket in BucketSet(Bars()) || (s.None? && Bars() == [] && bucket == 0)
    {
      if s.None? {
        if this.bucket == bucket {
          CountAtSingle(this.bucket, value, bucket);
          assert (value != 0 || this.bucket != 0) ==> Bars()[0].bucket == bucket;
          return value, true;
        }
        CountAtSingle(this.bucket, value, bucket);
        return 0, false;
      }
      var at, found := Search(s.value, bucket);
      if found {
        CountOfBar(s.value, at);
        return s.value[at].count, true;
      }
      CountAtAbsent(s.value, bucket);
      return 0, false;
    }

    /** Two records are equal exactly when they hold the same bars, zero counts included. */
    method Equal(h: HybridCountsRep) returns (equal: bool)
      requires Valid() && h.Valid()
      ensures equal <==> Bars() == h.Bars()
    {
      var n := Len();
      var m := h.Len();
      if n != m {
        return false;
      }
      if n == 0 {
        return true;
      }
      var calls := ForEach();
      equal := FoundIn(calls, h);
      FoundIsEqual(calls, h.Bars());
    }

    /** The loop over this record's bars. */
    method FoundIn(calls: seq<Bar>, h: HybridCountsRep) returns (equal: bool)
      requires h.Valid() && h.Bars() != []
      ensures equal <==> Found(calls, h.Bars())
    {
      ghost var y := h.Bars();
      equal := true;
      assert Found([], y);
      hide CountAt, BucketSet, Found, Sorted;
      for i := 0 to |calls|
        invariant equal <==> Found(calls[..i], y)
      {
        FoundLast(calls[..i + 1], y);
        assert calls[..i + 1][..i] == calls[..i];
        var value2, ok := h.Get(calls[i].bucket);
        if !ok || calls[i].count != value2 {
          equal := false;
        }
      }
      assert calls[..|calls|] == calls;
    }

    method Reset()
      requires Valid()
      modifies this
      ensures Valid() && Bars() == [] && s.Some? == old(s.Some?)
    {
      bucket, value := 0, 0;
      s := if s.None? then None else Some([]);
    }
  }

  lemma CountAtSingle(bucket: int, count: int, b: int)
    ensures CountAt([Bar(bucket, count)], b) == if b == bucket then count else 0
  {
    assert [Bar(bucket, count)] == [] + [Bar(bucket, count)];
    CountAtSnoc([], Bar(bucket, count), b);
  }

  lemma AddedCounts(s: seq<Bar>, bucket: int, value: int)
    ensures forall b :: CountAt(MergeBars(s, [Bar(bucket, value)]), b)
                        == CountAt(s, b) + if b == bucket then value else 0
    ensures s == [] ==> MergeBars(s, [Bar(bucket, value)]) == [Bar(bucket, value)]
  {
    forall b
      ensures CountAt(MergeBars(s, [Bar(bucket, value)]), b) == CountAt(s, b) + if b == bucket then value else 0
    {
      MergeCounts(s, [Bar(bucket, value)], b);
      CountAtSingle(bucket, value, b);
    }
  }

  // ----- runs

  datatype Call = AddCall(bucket: int, value: int) | ResetCall

  /** What a run of calls has recorded for bucket `b`: the values added since the last reset. */
  ghost function Recorded(before: int, calls: seq<Call>, b: int): int {
    if calls == [] then before
    else
      var r := Recorded(before, calls[..|calls| - 1], b);
      match calls[|calls| - 1]
      case AddCall(bucket, value) => r + if bucket == b then value else 0
      case ResetCall => 0
  }

  /** Every run of Adds and Resets, from any state, records exactly the sparse map of its additions. */
  method Replay(c: HybridCountsRep, calls: seq<Call>)
    requires c.Valid()
    modifies c
    ensures c.Valid()
    ensures forall b :: CountAt(c.Bars(), b) == Recorded(old(CountAt(c.Bars(), b)), calls, b)
  {
    assert forall b :: CountAt([], b) == 0;
    hide CountAt, Added;
    for i := 0 to |calls|
      invariant c.Valid()
      invariant forall b :: CountAt(c.Bars(), b) == Recorded(old(CountAt(c.Bars(), b)), calls[..i], b)
    {
      assert calls[..i + 1][..i] == calls[..i];
      match calls[i]
      case AddCall(bucket, value) => c.Add(bucket, value);
      case ResetCall => c.Reset();
    }
    assert calls[..|calls|] == calls;
  }
}
