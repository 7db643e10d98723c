/** The sparse histogram that a metrics message carries (`HDRHistogram.Buckets` and
    `HDRHistogram.Counts`) and the value that merging two of them must have. */
module Histograms {

  datatype Option<+T> = None | Some(value: T)

  /** One bar: a bucket index and the (scaled) number of values recorded in it. */
  datatype Bar = Bar(bucket: int, count: int)

  ghost predicate Sorted(s: seq<Bar>) {
    forall i, j :: 0 <= i < j < |s| ==> s[i].bucket < s[j].bucket
  }

  /** Bars in strictly ascending bucket order, as every encoder in the repository emits them. */
  type Histogram = s: seq<Bar> | Sorted(s) witness []

  ghost function BucketSet(s: seq<Bar>): set<int> {
    set i | 0 <= i < |s| :: s[i].bucket
  }

  /** The number of values recorded in bucket `b`. */
  ghost function CountAt(s: seq<Bar>, b: int): int {
    if s == [] then 0
    else
      var last := s[|s| - 1];
      CountAt(s[..|s| - 1], b) + if last.bucket == b then last.count else 0
  }

  /** The merged bars, computed from the largest bucket down. */
  function MergeBars(to: seq<Bar>, from: seq<Bar>): (r: seq<Bar>)
    decreases |to| + |from|
  {
    if from == [] then to
    else if to == [] then from
    else
      var t, f := to[|to| - 1], from[|from| - 1];
      if t.bucket == f.bucket then
        MergeBars(to[..|to| - 1], from[..|from| - 1]) + [Bar(t.bucket, t.count + f.count)]
      else if t.bucket > f.bucket then
        MergeBars(to[..|to| - 1], from) + [t]
      else
        MergeBars(to, from[..|from| - 1]) + [f]
  }

  lemma {:induction false} BucketSetSnoc(s: seq<Bar>, x: Bar)
    ensures BucketSet(s + [x]) == BucketSet(s) + {x.bucket}
  {
    var r := s + [x];
    forall b | b in BucketSet(s) + {x.bucket}
      ensures b in BucketSet(r)
    {
      if b in BucketSet(s) {
        var i :| 0 <= i < |s| && s[i].bucket == b;
        assert r[i].bucket == b;
      } else {
        assert r[|s|].bucket == b;
      }
    }
  }

  lemma BucketSetLast(s: seq<Bar>)
    requires s != []
    ensures BucketSet(s) == BucketSet(s[..|s| - 1]) + {s[|s| - 1].bucket}
  {
    assert s == s[..|s| - 1] + [s[|s| - 1]];
    BucketSetSnoc(s[..|s| - 1], s[|s| - 1]);
  }

  /** The merged buckets are exactly the union of the two bucket sets. */
  lemma {:induction false} MergeBuckets(to: seq<Bar>, from: seq<Bar>)
    ensures BucketSet(MergeBars(to, from)) == BucketSet(to) + BucketSet(from)
    decreases |to| + |from|
  {
    if from == [] {
    } else if to == [] {
    } else {
      var t, f := to[|to| - 1], from[|from| - 1];
      var to', from' := to[..|to| - 1], from[..|from| - 1];
      BucketSetLast(to);
      BucketSetLast(from);
      if t.bucket == f.bucket {
        MergeBuckets(to', from');
        BucketSetSnoc(MergeBars(to', from'), Bar(t.bucket, t.count + f.count));
      } else if t.bucket > f.bucket {
        MergeBuckets(to', from);
        BucketSetSnoc(MergeBars(to', from), t);
      } else {
        MergeBuckets(to, from');
        BucketSetSnoc(MergeBars(to, from'), f);
      }
    }
  }

  ghost predicate Below(s: seq<Bar>, bound: int) {
    forall b :: b in BucketSet(s) ==> b < bound
  }

  lemma SortedSnoc(s: seq<Bar>, x: Bar)
    requires Sorted(s)
    requires Below(s, x.bucket)
    ensures Sorted(s + [x])
  {
    forall i | 0 <= i < |s|
      ensures s[i].bucket < x.bucket
    {
      assert s[i].bucket in BucketSet(s);
    }
  }

  lemma LastIsLargest(s: seq<Bar>)
    requires Sorted(s) && s != []
    ensures forall b :: b in BucketSet(s) ==> b <= s[|s| - 1].bucket
    ensures Below(s[..|s| - 1], s[|s| - 1].bucket)
  {
  }

  /** Merging two strictly sorted histograms gives a strictly sorted histogram. */
  lemma {:induction false} MergeSorted(to: seq<Bar>, from: seq<Bar>)
    requires Sorted(to) && Sorted(from)
    ensures Sorted(MergeBars(to, from))
    decreases |to| + |from|
  {
    if from == [] {
    } else if to == [] {
    } else {
      var t, f := to[|to| - 1], from[|from| - 1];
      var to', from' := to[..|to| - 1], from[..|from| - 1];
      LastIsLargest(to);
      LastIsLargest(from);
      if t.bucket == f.bucket {
        MergeSorted(to', from');
        MergeBuckets(to', from');
        SortedSnoc(MergeBars(to', from'), Bar(t.bucket, t.count + f.count));
      } else if t.bucket > f.bucket {
        MergeSorted(to', from);
        MergeBuckets(to', from);
        SortedSnoc(MergeBars(to', from), t);
      } else {
        MergeSorted(to, from');
        MergeBuckets(to, from');
        SortedSnoc(MergeBars(to, from'), f);
      }
    }
  }

  lemma CountAtSnoc(s: seq<Bar>, x: Bar, b: int)
    ensures CountAt(s + [x], b) == CountAt(s, b) + if x.bucket == b then x.count else 0
  {
    assert (s + [x])[..|s|] == s;
  }

  /** Merging adds the counts pointwise, in every bucket. */
  lemma {:induction false} MergeCounts(to: seq<Bar>, from: seq<Bar>, b: int)
    ensures CountAt(MergeBars(to, from), b) == CountAt(to, b) + CountAt(from, b)
    decreases |to| + |from|
  {
    if from == [] {
    } else if to == [] {
    } else {
      var t, f := to[|to| - 1], from[|from| - 1];
      var to', from' := to[..|to| - 1], from[..|from| - 1];
      if t.bucket == f.bucket {
        MergeCounts(to', from', b);
        CountAtSnoc(MergeBars(to', from'), Bar(t.bucket, t.count + f.count), b);
      } else if t.bucket > f.bucket {
        MergeCounts(to', from, b);
        CountAtSnoc(MergeBars(to', from), t, b);
      } else {
        MergeCounts(to, from', b);
        CountAtSnoc(MergeBars(to, from'), f, b);
      }
    }
  }

  lemma {:induction false} CountAtAbsent(s: seq<Bar>, b: int)
    requires b !in BucketSet(s)
    ensures CountAt(s, b) == 0
  {
    if s != [] {
      BucketSetLast(s);
      CountAtAbsent(s[..|s| - 1], b);
    }
  }

  /** A strictly sorted histogram is determined by its buckets and their counts. */
  lemma {:induction false} Canonical(x: seq<Bar>, y: seq<Bar>)
    requires Sorted(x) && Sorted(y)
    requires BucketSet(x) == BucketSet(y)
    requires forall b :: CountAt(x, b) == CountAt(y, b)
    ensures x == y
  {
    if x == [] {
      if y != [] {
        BucketSetLast(y);
      }
    } else {
      BucketSetLast(x);
      if y != [] {
        BucketSetLast(y);
        LastIsLargest(x);
        LastIsLargest(y);
        var a, b := x[|x| - 1], y[|y| - 1];
        var x', y' := x[..|x| - 1], y[..|y| - 1];
        assert a.bucket in BucketSet(y) && b.bucket in BucketSet(x);
        assert a.bucket == b.bucket;
        assert a.bucket !in BucketSet(x') && a.bucket !in BucketSet(y');
        CountAtAbsent(x', a.bucket);
        CountAtAbsent(y', a.bucket);
        assert CountAt(x, a.bucket) == a.count && CountAt(y, b.bucket) == b.count;
        assert a == b;
        forall c
          ensures CountAt(x', c) == CountAt(y', c)
        {
          assert CountAt(x, c) == CountAt(y, c);
        }
        assert BucketSet(x') == BucketSet(x) - {a.bucket};
        assert BucketSet(y') == BucketSet(y) - {a.bucket};
        Canonical(x', y');
        assert x == x' + [a] && y == y' + [b];
      }
    }
  }

  /** Merging histograms is commutative. */
  lemma {:induction false} MergeCommutes(x: seq<Bar>, y: seq<Bar>)
    requires Sorted(x) && Sorted(y)
    ensures MergeBars(x, y) == MergeBars(y, x)
  {
    var p, q := MergeBars(x, y), MergeBars(y, x);
    MergeSorted(x, y);
    MergeSorted(y, x);
    MergeBuckets(x, y);
    MergeBuckets(y, x);
    forall b
      ensures CountAt(p, b) == CountAt(q, b)
    {
      MergeCounts(x, y, b);
      MergeCounts(y, x, b);
    }
    Canonical(p, q);
  }

  /** Merging histograms is associative, so pebble may bracket it as it likes. */
  lemma {:induction false} MergeAssociates(x: seq<Bar>, y: seq<Bar>, z: seq<Bar>)
    requires Sorted(x) && Sorted(y) && Sorted(z)
    ensures MergeBars(MergeBars(x, y), z) == MergeBars(x, MergeBars(y, z))
  {
    var xy, yz := MergeBars(x, y), MergeBars(y, z);
    MergeSorted(x, y);
    MergeSorted(y, z);
    var p, q := MergeBars(xy, z), MergeBars(x, yz);
    MergeSorted(xy, z);
    MergeSorted(x, yz);
    MergeBuckets(x, y);
    MergeBuckets(y, z);
    MergeBuckets(xy, z);
    MergeBuckets(x, yz);
    forall b
      ensures CountAt(p, b) == CountAt(q, b)
    {
      MergeCounts(x, y, b);
      MergeCounts(y, z, b);
      MergeCounts(xy, z, b);
      MergeCounts(x, yz, b);
    }
    Canonical(p, q);
  }

  /** The typed form: on histograms the merge is total. */
  function Merge(to: Histogram, from: Histogram): (r: Histogram)
    ensures BucketSet(r) == BucketSet(to) + BucketSet(from)
    ensures forall b :: CountAt(r, b) == CountAt(to, b) + CountAt(from, b)
  {
    MergeSorted(to, from);
    MergeBuckets(to, from);
    assert forall b :: CountAt(MergeBars(to, from), b) == CountAt(to, b) + CountAt(from, b) by {
      forall b ensures CountAt(MergeBars(to, from), b) == CountAt(to, b) + CountAt(from, b) {
        MergeCounts(to, from, b);
      }
    }
    MergeBars(to, from)
  }
}
