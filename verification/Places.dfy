/** What messages hold, item by item, and where merging may put it. Items are regrouped: each goes to one place,
    as a whole, and what arrives at a place is added up. */
module Places {
  import opened Models
  import opened MergerLimits
  import opened MergerExact

  datatype GroupKey =
    | TransactionGroup(transaction: TransactionKey)
    | ServiceTransactionGroup(serviceTransaction: ServiceTransactionKey)
    | SpanGroup(span: SpanKey)

  /** A kept group, an overflow bucket of a service, or a bucket of the overflow services. */
  datatype Place =
    | Kept(service: ServiceKey, instance: InstanceKey, group: GroupKey)
    | ServiceOverflow(service: ServiceKey, kind: Kind)
    | OverflowServices(kind: Kind)

  function KindOf(p: Place): Kind {
    match p
    case Kept(_, _, TransactionGroup(_)) => Transactions
    case Kept(_, _, ServiceTransactionGroup(_)) => ServiceTransactions
    case Kept(_, _, SpanGroup(_)) => Spans
    case ServiceOverflow(_, kind) => kind
    case OverflowServices(kind) => kind
  }

  /** Where a merge may put what it finds at a place: there, in the same group without its span name, in the
      overflow of the same service, or in the overflow services; always with its own kind. */
  predicate Moves(from: Place, to: Place) {
    || from == to
    || (&& from.Kept? && to.Kept? && from.group.SpanGroup?
        && to == from.(group := SpanGroup(from.group.span.(spanName := ""))))
    || (!from.OverflowServices? && to == ServiceOverflow(from.service, KindOf(from)))
    || to == OverflowServices(KindOf(from))
  }

  // ----- values of any kind

  datatype Value = Value(transaction: TransactionMetrics, serviceTransaction: ServiceTransactionMetrics, span: SpanMetrics)

  const Zero := Value(TransactionOps.zero, ServiceTransactionOps.zero, SpanOps.zero)

  function Plus(a: Value, b: Value): Value {
    Value(MergeTransactionMetrics(a.transaction, b.transaction),
          MergeServiceTransactionMetrics(a.serviceTransaction, b.serviceTransaction),
          MergeSpanMetrics(a.span, b.span))
  }

  function OfTransaction(): TransactionMetrics -> Value { m => Zero.(transaction := m) }
  function OfServiceTransaction(): ServiceTransactionMetrics -> Value { m => Zero.(serviceTransaction := m) }
  function OfSpan(): SpanMetrics -> Value { m => Zero.(span := m) }

  lemma PlusLaws(a: Value, b: Value, c: Value)
    ensures Plus(a, b) == Plus(b, a) && Plus(Plus(a, b), c) == Plus(a, Plus(b, c))
    ensures Plus(Zero, a) == a && Plus(a, Zero) == a
  {
    hide MergeOptional;
    PlusCommutes(a, b);
    PlusCommutes(a, Zero);
    OptionalAssociates(a.transaction.histogram, b.transaction.histogram, c.transaction.histogram);
    OptionalAssociates(a.serviceTransaction.histogram, b.serviceTransaction.histogram, c.serviceTransaction.histogram);
  }

  lemma PlusCommutes(a: Value, b: Value)
    ensures Plus(a, b) == Plus(b, a) && Plus(Zero, a) == a
  {
    hide MergeOptional;
    OptionalCommutes(a.transaction.histogram, b.transaction.histogram);
    OptionalCommutes(a.transaction.histogram, a.transaction.histogram);
    OptionalCommutes(a.serviceTransaction.histogram, b.serviceTransaction.histogram);
    OptionalCommutes(a.serviceTransaction.histogram, a.serviceTransaction.histogram);
  }

  // ----- items that are regrouped

  datatype Item = Item(place: Place, value: Value)

  /** The sum of the items that go to `t`. */
  ghost function SumTo<T>(items: seq<Item>, to: seq<T>, t: T): Value
    requires |to| == |items|
  {
    if items == [] then Zero
    else
      var n := |items| - 1;
      var before := SumTo(items[..n], to[..n], t);
      if to[n] == t then Plus(before, items[n].value) else before
  }

  /** Item `i` goes to item `to[i]` of `r`, and every item of `r` is the sum of those that go there. */
  ghost predicate Regroups(s: seq<Item>, r: seq<Item>, to: seq<int>) {
    && |to| == |s|
    && (forall i :: 0 <= i < |s| ==> 0 <= to[i] < |r| && Moves(s[i].place, r[to[i]].place))
    && forall j :: 0 <= j < |r| ==> r[j].value == SumTo(s, to, j)
  }

  ghost predicate Regrouped(s: seq<Item>, r: seq<Item>) {
    exists to: seq<int> :: Regroups(s, r, to)
  }

  // Nothing moved

  ghost function Indexes(n: nat): (r: seq<int>)
    ensures |r| == n && forall i :: 0 <= i < n ==> r[i] == i
  {
    seq(n, i => i)
  }

  lemma {:induction false} SumOfOne(s: seq<Item>, j: int)
    ensures SumTo(s, Indexes(|s|), j) == if 0 <= j < |s| then s[j].value else Zero
  {
    hide Plus;
    if s != [] {
      var n := |s| - 1;
      assert Indexes(|s|)[..n] == Indexes(n);
      SumOfOne(s[..n], j);
      PlusLaws(s[n].value, Zero, Zero);
    }
  }

  lemma RegroupedSelf(s: seq<Item>)
    ensures Regrouped(s, s)
  {
    hide Plus;
    forall j | 0 <= j < |s|
      ensures s[j].value == SumTo(s, Indexes(|s|), j)
    {
      SumOfOne(s, j);
    }
    assert Regroups(s, s, Indexes(|s|));
  }

  // Side by side

  lemma {:induction false} SumToAppend<T>(s: seq<Item>, a: seq<T>, u: seq<Item>, b: seq<T>, t: T)
    requires |a| == |s| && |b| == |u|
    ensures SumTo(s + u, a + b, t) == Plus(SumTo(s, a, t), SumTo(u, b, t))
    decreases |u|
  {
    hide Plus;
    if u == [] {
      assert s + u == s && a + b == a;
      PlusLaws(SumTo(s, a, t), Zero, Zero);
    } else {
      var n := |u| - 1;
      assert (s + u)[..|s| + n] == s + u[..n] && (a + b)[..|a| + n] == a + b[..n];
      SumToAppend(s, a, u[..n], b[..n], t);
      PlusLaws(SumTo(s, a, t), SumTo(u[..n], b[..n], t), u[n].value);
    }
  }

  lemma {:induction false} SumNowhere<T>(s: seq<Item>, a: seq<T>, t: T)
    requires |a| == |s| && t !in a
    ensures SumTo(s, a, t) == Zero
  {
    if s != [] {
      var n := |s| - 1;
      assert a[n] in a && forall x :: x in a[..n] ==> x in a;
      SumNowhere(s[..n], a[..n], t);
    }
  }

  ghost function Shifted(to: seq<int>, n: nat): (r: seq<int>)
    ensures |r| == |to| && forall i :: 0 <= i < |to| ==> r[i] == to[i] + n
  {
    seq(|to|, i requires 0 <= i < |to| => to[i] + n)
  }

  lemma {:induction false} SumShifted(s: seq<Item>, to: seq<int>, n: nat, j: int)
    requires |to| == |s|
    ensures SumTo(s, Shifted(to, n), j) == SumTo(s, to, j - n)
  {
    if s != [] {
      var m := |s| - 1;
      assert Shifted(to, n)[..m] == Shifted(to[..m], n);
      SumShifted(s[..m], to[..m], n, j);
    }
  }

  lemma RegroupedBoth(s: seq<Item>, r: seq<Item>, u: seq<Item>, v: seq<Item>)
    requires Regrouped(s, r) && Regrouped(u, v)
    ensures Regrouped(s + u, r + v)
  {
    hide Moves, Plus;
    var a :| Regroups(s, r, a);
    var b :| Regroups(u, v, b);
    var c := Shifted(b, |r|);
    forall j | 0 <= j < |r + v|
      ensures (r + v)[j].value == SumTo(s + u, a + c, j)
    {
      SumToAppend(s, a, u, c, j);
      PlusLaws(SumTo(s, a, j), Zero, Zero);
      PlusLaws(SumTo(u, c, j), Zero, Zero);
      if j < |r| {
        SumNowhere(u, c, j);
      } else {
        SumNowhere(s, a, j);
        SumShifted(u, b, |r|, j);
      }
    }
    assert Regroups(s + u, r + v, a + c);
  }

  // One after the other

  lemma {:induction false} SumBumped<T>(s: seq<Item>, to: seq<T>, t: T, j: nat, v: Value)
    requires |to| == |s| && j < |s|
    ensures SumTo(s[j := s[j].(value := Plus(s[j].value, v))], to, t) == if to[j] == t then Plus(SumTo(s, to, t), v) else SumTo(s, to, t)
  {
    hide Plus;
    var n := |s| - 1;
    var s' := s[j := s[j].(value := Plus(s[j].value, v))];
    var before := SumTo(s[..n], to[..n], t);
    PlusLaws(before, s[n].value, v);
    if j < n {
      assert s'[..n] == s[..n][j := s[j].(value := Plus(s[j].value, v))];
      SumBumped(s[..n], to[..n], t, j, v);
      PlusLaws(before, v, s[n].value);
      PlusLaws(v, s[n].value, v);
    } else {
      assert s'[..n] == s[..n];
    }
  }

  ghost function Composed<T>(f: seq<int>, g: seq<T>): (r: seq<T>)
    requires forall i :: 0 <= i < |f| ==> 0 <= f[i] < |g|
    ensures |r| == |f| && forall i :: 0 <= i < |f| ==> r[i] == g[f[i]]
  {
    seq(|f|, i requires 0 <= i < |f| => g[f[i]])
  }

  lemma {:induction false} SumOfZeros<T>(r: seq<Item>, g: seq<T>, t: T)
    requires |g| == |r| && forall j :: 0 <= j < |r| ==> r[j].value == Zero
    ensures SumTo(r, g, t) == Zero
  {
    hide Plus;
    if r != [] {
      SumOfZeros(r[..|r| - 1], g[..|r| - 1], t);
      PlusLaws(Zero, Zero, Zero);
    }
  }

  /** Adding up sums is adding up the items. */
  lemma {:induction false} SumOfSums<T>(s: seq<Item>, f: seq<int>, r: seq<Item>, g: seq<T>, t: T)
    requires |f| == |s| && |g| == |r| && forall i :: 0 <= i < |f| ==> 0 <= f[i] < |r|
    requires forall j :: 0 <= j < |r| ==> r[j].value == SumTo(s, f, j)
    ensures SumTo(r, g, t) == SumTo(s, Composed(f, g), t)
    decreases |s|
  {
    hide Plus;
    if s == [] {
      SumOfZeros(r, g, t);
    } else {
      var n := |s| - 1;
      var j := f[n];
      var p := seq(|r|, k requires 0 <= k < |r| => Item(r[k].place, SumTo(s[..n], f[..n], k)));
      assert forall k :: 0 <= k < |r| && k != j ==> r[k] == p[k];
      assert r == p[j := p[j].(value := Plus(p[j].value, s[n].value))];
      SumBumped(p, g, t, j, s[n].value);
      SumOfSums(s[..n], f[..n], p, g, t);
      assert Composed(f, g)[..n] == Composed(f[..n], g);
    }
  }

  lemma MovesOn(a: Place, b: Place, c: Place)
    requires Moves(a, b) && Moves(b, c)
    ensures Moves(a, c)
  {
  }

  lemma RegroupedTwice(s: seq<Item>, r: seq<Item>, u: seq<Item>)
    requires Regrouped(s, r) && Regrouped(r, u)
    ensures Regrouped(s, u)
  {
    hide Moves, Plus;
    var f :| Regroups(s, r, f);
    var g :| Regroups(r, u, g);
    var h := Composed(f, g);
    forall i | 0 <= i < |s|
      ensures 0 <= h[i] < |u| && Moves(s[i].place, u[h[i]].place)
    {
      MovesOn(s[i].place, r[f[i]].place, u[h[i]].place);
    }
    forall j | 0 <= j < |u|
      ensures u[j].value == SumTo(s, h, j)
    {
      SumOfSums(s, f, r, g, j);
    }
    hide SumTo;
    assert Regroups(s, u, h);
  }
}
