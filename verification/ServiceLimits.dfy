/** The group limits are documented per service and enforced per service instance: exactly when the two
    agree. */
module ServiceLimits {
  import opened Histograms
  import opened Models
  import opened Sums
  import opened Groups
  import opened MergerSpec
  import opened MergerLimits

  function InstanceLimit(kind: Kind, limits: Limits): nat {
    match kind
    case Transactions => limits.maxTransactionsPerInstance
    case ServiceTransactions => limits.maxServiceTransactionsPerInstance
    case Spans => limits.maxSpansPerInstance
  }

  /** In every state of every merger no service holds more groups of the kind than the limit says. */
  ghost predicate BoundedPerService(kind: Kind, limits: Limits) {
    forall from: seq<PbCombined>, k: ServiceKey ::
      k in MergeAll(limits, from).metrics.services ==>
        ServiceSize(kind)(MergeAll(limits, from).metrics.services[k]) <= InstanceLimit(kind, limits)
  }

  /** Keys of all kinds. */
  datatype GroupKey =
    | OfTransaction(transaction: TransactionKey)
    | OfServiceTransaction(serviceTransaction: ServiceTransactionKey)
    | OfSpan(span: SpanKey)

  ghost function KeysIn(kind: Kind, i: InstanceMetrics): set<GroupKey> {
    match kind
    case Transactions => set k | k in i.transactions :: OfTransaction(k)
    case ServiceTransactions => set k | k in i.serviceTransactions :: OfServiceTransaction(k)
    case Spans => set k | k in i.spans :: OfSpan(k)
  }

  /** The unique keys of a kind within a service. */
  ghost function UniqueKeys(kind: Kind, m: map<InstanceKey, InstanceMetrics>): set<GroupKey> {
    set i, k | i in m && k in KeysIn(kind, m[i]) :: k
  }

  /** The same, with groups of a service counted by their unique keys, as the documentation words it. */
  ghost predicate UniquePerService(kind: Kind, limits: Limits) {
    forall from: seq<PbCombined>, k: ServiceKey ::
      k in MergeAll(limits, from).metrics.services ==>
        |UniqueKeys(kind, MergeAll(limits, from).metrics.services[k].instances)| <= InstanceLimit(kind, limits)
  }

  /** Limits under which a second instance cannot take a service past the limit. */
  predicate OneInstanceSuffices(kind: Kind, limits: Limits) {
    || limits.maxServices == 0
    || limits.maxInstancesPerService <= 1
    || InstanceLimit(kind, limits) == 0
    || GlobalLimit(kind, limits) <= InstanceLimit(kind, limits)
  }

  // ----- the limits suffice

  lemma {:induction false} CountBounded<K, V>(m: map<K, V>, f: V -> int, bound: nat)
    requires forall k :: k in m ==> f(m[k]) <= bound
    ensures MapCount(m, f) <= |m| * bound
    decreases |m|
  {
    if m == map[] {
      assert MapCount(m, f) == 0;
    } else {
      hide MapCount;
      var k :| k in m;
      MapCountRemove(m, f, k);
      var rest := m - {k};
      assert m.Keys - {k} == rest.Keys && |m.Keys - {k}| == |m.Keys| - 1;
      CountBounded(rest, f, bound);
      OneMoreTimes(|rest|, bound);
    }
  }

  lemma OneMoreTimes(n: nat, bound: nat)
    ensures (n + 1) * bound == n * bound + bound
  {
  }

  lemma SizesNonNegative(kind: Kind, s: ServiceMetrics)
    ensures ServiceSize(kind)(s) >= 0
  {
    CountNonNegative(s.instances, InstanceSize(kind));
  }

  lemma ServiceWithinTotal(kind: Kind, cm: CombinedMetrics, k: ServiceKey)
    requires k in cm.services
    ensures ServiceSize(kind)(cm.services[k]) <= Stored(kind, cm)
  {
    hide MapCount;
    var rest := cm.services - {k};
    MapCountRemove(cm.services, ServiceSize(kind), k);
    forall x | x in rest
      ensures ServiceSize(kind)(rest[x]) >= 0
    {
      SizesNonNegative(kind, rest[x]);
    }
    CountNonNegative(rest, ServiceSize(kind));
  }

  lemma GlobalSuffices(kind: Kind, limits: Limits, st: MergerState, k: ServiceKey)
    requires CountersExact(limits, st) && k in st.metrics.services
    ensures ServiceSize(kind)(st.metrics.services[k]) <= GlobalLimit(kind, limits)
  {
    hide Stored, ServiceSize, GlobalLimit, CounterOf;
    ServiceWithinTotal(kind, st.metrics, k);
    assert CounterOf(kind, st.counters) == Stored(kind, st.metrics) <= GlobalLimit(kind, limits);
  }

  lemma InstancesSuffice(kind: Kind, limits: Limits, s: ServiceMetrics)
    requires ServiceWithin(limits, s)
    requires limits.maxInstancesPerService <= 1 || InstanceLimit(kind, limits) == 0
    ensures ServiceSize(kind)(s) <= InstanceLimit(kind, limits)
  {
    hide MapCount, KeysEmbedded, Named;
    var bound := InstanceLimit(kind, limits);
    forall i | i in s.instances
      ensures InstanceSize(kind)(s.instances[i]) <= bound
    {
      assert InstanceWithin(limits, s.instances[i]);
    }
    CountBounded(s.instances, InstanceSize(kind), bound);
    if bound > 0 {
      AtMostOneTimes(|s.instances|, bound);
    }
  }

  lemma LimitsSuffice(kind: Kind, limits: Limits, st: MergerState, k: ServiceKey)
    requires ServicesWithin(limits, st.metrics) && CountersExact(limits, st)
    requires OneInstanceSuffices(kind, limits) && k in st.metrics.services
    ensures ServiceSize(kind)(st.metrics.services[k]) <= InstanceLimit(kind, limits)
  {
    hide ServiceSize, CountersExact, ServiceWithin, InstanceLimit, GlobalLimit;
    if GlobalLimit(kind, limits) <= InstanceLimit(kind, limits) {
      GlobalSuffices(kind, limits, st, k);
    } else if limits.maxServices > 0 {
      InstancesSuffice(kind, limits, st.metrics.services[k]);
    }
  }

  lemma AtMostOneTimes(n: nat, bound: nat)
    requires n <= 1
    ensures n * bound <= bound
  {
  }

  // ----- unique keys are at most the stored groups

  ghost function Image<A, B>(s: set<A>, f: A -> B): set<B> {
    set x | x in s :: f(x)
  }

  lemma {:induction false} ImageSize<A, B>(s: set<A>, f: A -> B)
    requires forall x, y :: x in s && y in s && f(x) == f(y) ==> x == y
    ensures |Image(s, f)| == |s|
  {
    if s == {} {
      assert Image(s, f) == {};
    } else {
      var a :| a in s;
      var rest := s - {a};
      ImageSize(rest, f);
      assert Image(s, f) == Image(rest, f) + {f(a)};
      assert f(a) !in Image(rest, f);
    }
  }

  lemma KeysCounted(kind: Kind, i: InstanceMetrics)
    ensures |KeysIn(kind, i)| == InstanceSize(kind)(i)
  {
    match kind
    case Transactions =>
      var f := (k: TransactionKey) => OfTransaction(k);
      ImageSize(i.transactions.Keys, f);
      assert KeysIn(kind, i) == Image(i.transactions.Keys, f);
    case ServiceTransactions =>
      var f := (k: ServiceTransactionKey) => OfServiceTransaction(k);
      ImageSize(i.serviceTransactions.Keys, f);
      assert KeysIn(kind, i) == Image(i.serviceTransactions.Keys, f);
    case Spans =>
      var f := (k: SpanKey) => OfSpan(k);
      ImageSize(i.spans.Keys, f);
      assert KeysIn(kind, i) == Image(i.spans.Keys, f);
  }

  lemma UnionSize<T>(a: set<T>, b: set<T>)
    ensures |a + b| <= |a| + |b|
    ensures a !! b ==> |a + b| == |a| + |b|
  {
    assert a + b == a + (b - a);
    assert b == (b - a) + (a * b);
  }

  lemma UniqueWith(kind: Kind, m: map<InstanceKey, InstanceMetrics>, k: InstanceKey)
    requires k in m
    ensures UniqueKeys(kind, m) == UniqueKeys(kind, m - {k}) + KeysIn(kind, m[k])
  {
    hide KeysIn;
    forall x | x in UniqueKeys(kind, m)
      ensures x in UniqueKeys(kind, m - {k}) + KeysIn(kind, m[k])
    {
      var i :| i in m && x in KeysIn(kind, m[i]);
      if i != k {
        assert i in m - {k} && (m - {k})[i] == m[i];
      }
    }
    forall x | x in UniqueKeys(kind, m - {k}) + KeysIn(kind, m[k])
      ensures x in UniqueKeys(kind, m)
    {
      if x !in KeysIn(kind, m[k]) {
        var i :| i in m - {k} && x in KeysIn(kind, (m - {k})[i]);
        assert i in m && m[i] == (m - {k})[i];
      }
    }
  }

  lemma {:induction false} UniqueAtMostStored(kind: Kind, m: map<InstanceKey, InstanceMetrics>)
    ensures |UniqueKeys(kind, m)| <= MapCount(m, InstanceSize(kind))
    decreases |m|
  {
    if m == map[] {
      assert UniqueKeys(kind, m) == {};
    } else {
      hide MapCount, KeysIn, UniqueKeys, InstanceSize;
      var k :| k in m;
      MapCountRemove(m, InstanceSize(kind), k);
      UniqueWith(kind, m, k);
      UniqueAtMostStored(kind, m - {k});
      KeysCounted(kind, m[k]);
      UnionSize(UniqueKeys(kind, m - {k}), KeysIn(kind, m[k]));
    }
  }

  // ----- otherwise one service exceeds the limit

  /** `n` groups with different keys, numbered from `start`. */
  function Numbered<K, M>(key: nat -> K, m: M, start: nat, n: nat): (r: seq<Keyed<K, M>>)
    ensures |r| == n && forall j :: 0 <= j < n ==> r[j] == Keyed(key(start + j), m)
  {
    seq(n, j requires 0 <= j < n => Keyed(key(start + j), m))
  }

  ghost predicate Injective<K(!new)>(key: nat -> K) {
    forall i: nat, j: nat :: key(i) == key(j) ==> i == j
  }

  /** `n` groups are stored under numbered keys and nothing overflowed. */
  ghost predicate StoredNumbers<K(!new), M>(r: GroupState<K, M>, key: nat -> K, start: nat, n: nat, total: nat, o: Bucket<M>) {
    r.total == total + n && r.overflow == o && |r.groups| == n && AllNumbered(key, r.groups.Keys, start, n)
  }

  lemma StoresOne<K(!new), M(!new)>(rule: Rule<K, M>, key: nat -> K, m: M, start: nat, n: nat, total: nat, o: Bucket<M>,
                                    p: GroupState<K, M>)
    requires Injective(key) && rule.slot(p.groups, key(start + n)) == key(start + n)
    requires n < rule.perInstance && total + n < rule.global && StoredNumbers(p, key, start, n, total, o)
    ensures StoredNumbers(MergeGroup(rule, p, Keyed(key(start + n), m)), key, start, n + 1, total, o)
  {
    hide Injective, MergeGroup, AllNumbered;
    NotYetNumbered(key, p.groups.Keys, start, n);
    StoreFresh(rule, p, Keyed(key(start + n), m));
    OneMoreNumbered(key, p.groups.Keys, start, n);
  }

  /** Groups that fit are all stored, each under its own key. */
  lemma {:induction false} StoresAll<K(!new), M(!new)>(rule: Rule<K, M>, key: nat -> K, m: M, start: nat, n: nat, total: nat, o: Bucket<M>)
    requires Injective(key) && forall g, j: nat :: rule.slot(g, key(j)) == key(j)
    requires n <= rule.perInstance && total + n <= rule.global
    ensures StoredNumbers(MergeGroups(rule, GroupState(map[], total, o), Numbered(key, m, start, n)), key, start, n, total, o)
  {
    hide Injective, MergeGroup, MergeGroups;
    var st := GroupState(map[], total, o);
    if n == 0 {
      AllNumberedNone(key, start);
      MergeNone(rule, st);
    } else {
      hide StoredNumbers;
      StoresAll(rule, key, m, start, n - 1, total, o);
      var all := Numbered(key, m, start, n);
      MergeLast(rule, st, all);
      assert all[..n - 1] == Numbered(key, m, start, n - 1);
      StoresOne(rule, key, m, start, n - 1, total, o, MergeGroups(rule, st, all[..n - 1]));
    }
  }

  lemma MergeLast<K, M>(rule: Rule<K, M>, st: GroupState<K, M>, from: seq<Keyed<K, M>>)
    requires from != []
    ensures MergeGroups(rule, st, from) == MergeGroup(rule, MergeGroups(rule, st, from[..|from| - 1]), from[|from| - 1])
  {
  }

  ghost predicate AllNumbered<K(!new)>(key: nat -> K, keys: set<K>, start: nat, n: nat) {
    forall k :: k in keys ==> exists j: nat :: start <= j < start + n && k == key(j)
  }

  lemma AllNumberedNone<K(!new)>(key: nat -> K, start: nat)
    ensures AllNumbered(key, {}, start, 0)
  {
  }

  lemma NotYetNumbered<K(!new)>(key: nat -> K, keys: set<K>, start: nat, n: nat)
    requires Injective(key) && AllNumbered(key, keys, start, n)
    ensures key(start + n) !in keys
  {
  }

  lemma OneMoreNumbered<K(!new)>(key: nat -> K, keys: set<K>, start: nat, n: nat)
    requires AllNumbered(key, keys, start, n)
    ensures AllNumbered(key, keys + {key(start + n)}, start, n + 1)
  {
    var more := keys + {key(start + n)};
    forall k | k in more
      ensures exists j: nat :: start <= j < start + (n + 1) && k == key(j)
    {
      if k in keys {
        var j: nat :| start <= j < start + n && k == key(j);
        assert start <= j < start + (n + 1);
      } else {
        var j := start + n;
        assert k == key(j);
      }
    }
  }

  lemma StoreFresh<K, M>(rule: Rule<K, M>, st: GroupState<K, M>, x: Keyed<K, M>)
    requires x.key !in st.groups && rule.slot(st.groups, x.key) == x.key
    requires |st.groups| < rule.perInstance && st.total < rule.global
    ensures var r := MergeGroup(rule, st, x);
            && r.total == st.total + 1 && r.overflow == st.overflow && |r.groups| == |st.groups| + 1
            && r.groups.Keys == st.groups.Keys + {x.key}
  {
    var r := MergeGroup(rule, st, x);
    assert r.groups.Keys == st.groups.Keys + {x.key};
    assert |r.groups| == |r.groups.Keys|;
  }

  lemma MergeNone<K, M>(rule: Rule<K, M>, st: GroupState<K, M>)
    ensures MergeGroups(rule, st, []) == st
  {
  }

  function Repeat(n: nat): string {
    seq(n, _ => 'a')
  }

  function TransactionNumber(n: nat): TransactionKey { TransactionKey([Repeat(n)]) }
  function ServiceTransactionNumber(n: nat): ServiceTransactionKey { ServiceTransactionKey(Repeat(n)) }
  function SpanNumber(n: nat): SpanKey { SpanKey("", Repeat(n), "", "", "") }

  lemma NumbersDiffer()
    ensures Injective(TransactionNumber) && Injective(ServiceTransactionNumber) && Injective(SpanNumber)
  {
    forall i: nat, j: nat | TransactionNumber(i) == TransactionNumber(j)
      ensures i == j
    {
      assert TransactionNumber(i).fields[0] == TransactionNumber(j).fields[0];
      assert |Repeat(i)| == |Repeat(j)|;
    }
    forall i: nat, j: nat | ServiceTransactionNumber(i) == ServiceTransactionNumber(j)
      ensures i == j
    {
      assert |Repeat(i)| == |Repeat(j)|;
    }
    forall i: nat, j: nat | SpanNumber(i) == SpanNumber(j)
      ensures i == j
    {
      assert |Repeat(i)| == |Repeat(j)|;
    }
  }

  /** An instance with `n` groups of one kind. */
  function Filled(kind: Kind, key: InstanceKey, start: nat, n: nat): PbInstance {
    match kind
    case Transactions => PbInstance(key, Numbered(TransactionNumber, TransactionMetrics(None), start, n), [], [])
    case ServiceTransactions =>
      PbInstance(key, [], Numbered(ServiceTransactionNumber, ServiceTransactionMetrics(None, 0.0, 1.0), start, n), [])
    case Spans => PbInstance(key, [], [], Numbered(SpanNumber, SpanMetrics(1.0, 1.0), start, n))
  }

  ghost predicate Stores(kind: Kind, st: InstanceState, r: InstanceState, n: nat) {
    InstanceSize(kind)(r.instance) == n && CounterOf(kind, r.counters) == CounterOf(kind, st.counters) + n
  }

  function Number(kind: Kind, n: nat): GroupKey {
    match kind
    case Transactions => OfTransaction(TransactionNumber(n))
    case ServiceTransactions => OfServiceTransaction(ServiceTransactionNumber(n))
    case Spans => OfSpan(SpanNumber(n))
  }

  /** All keys of the kind are numbered within the range. */
  ghost predicate NumberedWithin(kind: Kind, i: InstanceMetrics, start: nat, n: nat) {
    forall k :: k in KeysIn(kind, i) ==> exists j: nat :: start <= j < start + n && k == Number(kind, j)
  }

  lemma NumbersApart(kind: Kind, x: InstanceMetrics, y: InstanceMetrics, n: nat, m: nat)
    requires NumberedWithin(kind, x, 0, n) && NumberedWithin(kind, y, n, m)
    ensures KeysIn(kind, x) !! KeysIn(kind, y)
  {
    hide KeysIn, Number;
    forall k | k in KeysIn(kind, x)
      ensures k !in KeysIn(kind, y)
    {
      var i: nat :| 0 <= i < 0 + n && k == Number(kind, i);
      if k in KeysIn(kind, y) {
        var j: nat :| n <= j < n + m && k == Number(kind, j);
        NumberInjective(kind, i, j);
      }
    }
  }

  lemma NumberInjective(kind: Kind, i: nat, j: nat)
    requires Number(kind, i) == Number(kind, j)
    ensures i == j
  {
    NumbersDiffer();
  }

  lemma FilledTransactions(limits: Limits, d: Digest, st: InstanceState, key: InstanceKey, start: nat, n: nat)
    requires st.instance == EmptyInstance && n <= limits.maxTransactionsPerInstance
    requires 0 <= st.counters.transactions && st.counters.transactions + n <= limits.maxTransactions
    ensures Stores(Transactions, st, MergeInstance(limits, d, st, Filled(Transactions, key, start, n)), n)
    ensures NumberedWithin(Transactions, MergeInstance(limits, d, st, Filled(Transactions, key, start, n)).instance, start, n)
  {
    NumbersDiffer();
    hide Injective, MergeGroups, Numbered;
    StoresAll(TransactionRule(limits, d), TransactionNumber, TransactionMetrics(None), start, n, st.counters.transactions,
              st.overflow.transactions);
    MergeNone(ServiceTransactionRule(limits, d),
              GroupState(map[], st.counters.serviceTransactions, st.overflow.serviceTransactions));
    MergeNone(SpanRule(limits, d), GroupState(map[], st.counters.spans, st.overflow.spans));
    var r := MergeInstance(limits, d, st, Filled(Transactions, key, start, n));
    forall k | k in KeysIn(Transactions, r.instance)
      ensures exists j: nat :: start <= j < start + n && k == Number(Transactions, j)
    {
      var t :| t in r.instance.transactions && k == OfTransaction(t);
      assert t in r.instance.transactions.Keys;
      var j: nat :| start <= j < start + n && t == TransactionNumber(j);
      assert k == Number(Transactions, j);
    }
  }

  lemma FilledServiceTransactions(limits: Limits, d: Digest, st: InstanceState, key: InstanceKey, start: nat, n: nat)
    requires st.instance == EmptyInstance && n <= limits.maxServiceTransactionsPerInstance
    requires 0 <= st.counters.serviceTransactions && st.counters.serviceTransactions + n <= limits.maxServiceTransactions
    ensures Stores(ServiceTransactions, st, MergeInstance(limits, d, st, Filled(ServiceTransactions, key, start, n)), n)
    ensures NumberedWithin(ServiceTransactions, MergeInstance(limits, d, st, Filled(ServiceTransactions, key, start, n)).instance, start, n)
  {
    NumbersDiffer();
    hide Injective, MergeGroups, Numbered;
    StoresAll(ServiceTransactionRule(limits, d), ServiceTransactionNumber, ServiceTransactionMetrics(None, 0.0, 1.0), start, n,
              st.counters.serviceTransactions, st.overflow.serviceTransactions);
    var r := MergeInstance(limits, d, st, Filled(ServiceTransactions, key, start, n));
    forall k | k in KeysIn(ServiceTransactions, r.instance)
      ensures exists j: nat :: start <= j < start + n && k == Number(ServiceTransactions, j)
    {
      var t :| t in r.instance.serviceTransactions && k == OfServiceTransaction(t);
      assert t in r.instance.serviceTransactions.Keys;
      var j: nat :| start <= j < start + n && t == ServiceTransactionNumber(j);
      assert k == Number(ServiceTransactions, j);
    }
  }

  lemma FilledSpans(limits: Limits, d: Digest, st: InstanceState, key: InstanceKey, start: nat, n: nat)
    requires st.instance == EmptyInstance && n <= limits.maxSpansPerInstance
    requires 0 <= st.counters.spans && st.counters.spans + n <= limits.maxSpans
    ensures Stores(Spans, st, MergeInstance(limits, d, st, Filled(Spans, key, start, n)), n)
    ensures NumberedWithin(Spans, MergeInstance(limits, d, st, Filled(Spans, key, start, n)).instance, start, n)
  {
    NumbersDiffer();
    hide Injective, MergeGroups, Numbered;
    StoresAll(SpanRule(limits, d), SpanNumber, SpanMetrics(1.0, 1.0), start, n, st.counters.spans, st.overflow.spans);
    var r := MergeInstance(limits, d, st, Filled(Spans, key, start, n));
    forall k | k in KeysIn(Spans, r.instance)
      ensures exists j: nat :: start <= j < start + n && k == Number(Spans, j)
    {
      var t :| t in r.instance.spans && k == OfSpan(t);
      assert t in r.instance.spans.Keys;
      var j: nat :| start <= j < start + n && t == SpanNumber(j);
      assert k == Number(Spans, j);
    }
  }

  lemma FilledStores(kind: Kind, limits: Limits, d: Digest, st: InstanceState, key: InstanceKey, start: nat, n: nat)
    requires st.instance == EmptyInstance && n <= InstanceLimit(kind, limits)
    requires 0 <= CounterOf(kind, st.counters) && CounterOf(kind, st.counters) + n <= GlobalLimit(kind, limits)
    ensures Stores(kind, st, MergeInstance(limits, d, st, Filled(kind, key, start, n)), n)
    ensures NumberedWithin(kind, MergeInstance(limits, d, st, Filled(kind, key, start, n)).instance, start, n)
  {
    hide MergeInstance, Filled, Stores, NumberedWithin;
    match kind
    case Transactions => FilledTransactions(limits, d, st, key, start, n);
    case ServiceTransactions => FilledServiceTransactions(limits, d, st, key, start, n);
    case Spans => FilledSpans(limits, d, st, key, start, n);
  }

  const ServiceName := ServiceKey(0, "", "", "", "")
  const FirstInstance := InstanceKey("")
  const SecondInstance := InstanceKey("x")

  /** One service with two instances: one takes all that the limit allows, the other one group more. */
  function TwoInstances(kind: Kind, limits: Limits): PbCombined {
    var n := InstanceLimit(kind, limits);
    PbCombined([PbService(ServiceName, [Filled(kind, FirstInstance, 0, n), Filled(kind, SecondInstance, n, 1)], None)],
               None, None, 1.0, 0)
  }

  /** A new instance for which there is room is stored with all its groups. */
  lemma FilledInstanceStored(kind: Kind, limits: Limits, d: Digest, st: ServiceState, key: InstanceKey, start: nat, n: nat)
    returns (i: InstanceMetrics)
    requires key !in st.service.instances && |st.service.instances| < limits.maxInstancesPerService
    requires n <= InstanceLimit(kind, limits)
    requires 0 <= CounterOf(kind, st.counters) && CounterOf(kind, st.counters) + n <= GlobalLimit(kind, limits)
    ensures var r := MergeServiceInstance(limits, d, st, Filled(kind, key, start, n));
            && r.service.instances == st.service.instances[key := i] && InstanceSize(kind)(i) == n
            && CounterOf(kind, r.counters) == CounterOf(kind, st.counters) + n
    ensures NumberedWithin(kind, i, start, n)
  {
    var x := Filled(kind, key, start, n);
    assert x.key == key;
    var st' := InstanceState(EmptyInstance, st.service.overflow, st.counters);
    FilledStores(kind, limits, d, st', key, start, n);
    hide Filled, MergeInstance, CounterOf, GlobalLimit, InstanceLimit, NumberedWithin;
    i := MergeInstance(limits, d, st', x).instance;
  }

  /** Merging the two instances into an empty service stores all their groups. */
  lemma TwoInstancesStored(kind: Kind, limits: Limits, d: Digest)
    requires !OneInstanceSuffices(kind, limits)
    ensures var st := ServiceState(EmptyService, Counters(0, 0, 0), None);
            var s := MergeInstances(limits, d, st, TwoInstances(kind, limits).services[0].instances).service;
            && ServiceSize(kind)(s) == InstanceLimit(kind, limits) + 1
            && |UniqueKeys(kind, s.instances)| == InstanceLimit(kind, limits) + 1
  {
    hide Filled, MergeServiceInstance, NumberedWithin, UniqueKeys;
    var n := InstanceLimit(kind, limits);
    var st0 := ServiceState(EmptyService, Counters(0, 0, 0), None);
    var a, b := Filled(kind, FirstInstance, 0, n), Filled(kind, SecondInstance, n, 1);
    var x := FilledInstanceStored(kind, limits, d, st0, FirstInstance, 0, n);
    var st1 := MergeServiceInstance(limits, d, st0, a);
    assert st1.service.instances == map[FirstInstance := x];
    InstancesDiffer();
    var y := FilledInstanceStored(kind, limits, d, st1, SecondInstance, n, 1);
    InTurn(limits, d, st0, a, b);
    hide MergeInstances, InstanceSize, InstanceLimit;
    TwoCounted(kind, x, y);
    TwoUnique(kind, x, y, n);
  }

  lemma TwoUnique(kind: Kind, x: InstanceMetrics, y: InstanceMetrics, n: nat)
    requires NumberedWithin(kind, x, 0, n) && NumberedWithin(kind, y, n, 1)
    ensures |UniqueKeys(kind, map[FirstInstance := x][SecondInstance := y])|
            == InstanceSize(kind)(x) + InstanceSize(kind)(y)
  {
    NumbersApart(kind, x, y, n, 1);
    hide KeysIn, InstanceSize, NumberedWithin, UniqueKeys;
    KeysCounted(kind, x);
    KeysCounted(kind, y);
    UniqueOfTwo(kind, x, y);
    UnionSize(KeysIn(kind, x), KeysIn(kind, y));
  }

  lemma UniqueOfTwo(kind: Kind, x: InstanceMetrics, y: InstanceMetrics)
    ensures UniqueKeys(kind, map[FirstInstance := x][SecondInstance := y]) == KeysIn(kind, x) + KeysIn(kind, y)
  {
    hide KeysIn;
    InstancesDiffer();
    var m := map[FirstInstance := x][SecondInstance := y];
    assert m[FirstInstance] == x && m[SecondInstance] == y;
    forall k | k in KeysIn(kind, x) + KeysIn(kind, y)
      ensures k in UniqueKeys(kind, m)
    {
      assert k in KeysIn(kind, m[FirstInstance]) || k in KeysIn(kind, m[SecondInstance]);
    }
  }

  lemma InTurn(limits: Limits, d: Digest, st: ServiceState, a: PbInstance, b: PbInstance)
    ensures MergeInstances(limits, d, st, [a, b])
            == MergeServiceInstance(limits, d, MergeServiceInstance(limits, d, st, a), b)
  {
    hide MergeServiceInstance;
    assert [a, b][..1] == [a] && [a][..0] == [] && [a, b][1] == b;
    assert MergeInstances(limits, d, st, []) == st;
    assert MergeInstances(limits, d, st, [a]) == MergeServiceInstance(limits, d, st, a);
  }

  lemma InstancesDiffer()
    ensures FirstInstance != SecondInstance
  {
    assert |FirstInstance.globalLabels| != |SecondInstance.globalLabels|;
  }

  lemma TwoCounted(kind: Kind, x: InstanceMetrics, y: InstanceMetrics)
    ensures MapCount(map[FirstInstance := x][SecondInstance := y], InstanceSize(kind))
            == InstanceSize(kind)(x) + InstanceSize(kind)(y)
  {
    var none: map<InstanceKey, InstanceMetrics> := map[];
    InstancesDiffer();
    MapCountStore(none, InstanceSize(kind), FirstInstance, x);
    MapCountStore(none[FirstInstance := x], InstanceSize(kind), SecondInstance, y);
    assert none[FirstInstance := x] == map[FirstInstance := x];
  }

  /** A run that takes one service past the documented limit. */
  lemma {:induction false} ServiceExceedsLimit(kind: Kind, limits: Limits)
    requires !OneInstanceSuffices(kind, limits)
    ensures var services := MergeAll(limits, [TwoInstances(kind, limits)]).metrics.services;
            && ServiceName in services
            && ServiceSize(kind)(services[ServiceName]) == InstanceLimit(kind, limits) + 1
            && |UniqueKeys(kind, services[ServiceName].instances)| == InstanceLimit(kind, limits) + 1
  {
    var pb := TwoInstances(kind, limits);
    var d := ServiceDigest(ServiceName);
    TwoInstancesStored(kind, limits, d);
    hide MergeInstances, Filled, UniqueKeys, ServiceSize;
    assert [pb][..0] == [] && pb.services[..0] == [];
    assert MergeAll(limits, [pb]) == MergeMessage(limits, EmptyMerger, pb);
    var h := EmptyMerger.(metrics := MergeHeader(EmptyMerger.metrics, pb));
    assert MergeServices(limits, h, pb.services) == MergeService(limits, h, pb.services[0]);
    assert EmptyService.(overflow := MergeOverflow(EmptyService.overflow, None)) == EmptyService;
  }

  lemma UniqueInService(kind: Kind, s: ServiceMetrics)
    ensures |UniqueKeys(kind, s.instances)| <= ServiceSize(kind)(s)
  {
    UniqueAtMostStored(kind, s.instances);
  }

  /** The documented limit per service holds in every run exactly under limits that rule out a second
      instance, any group, or more groups than one instance may hold. */
  lemma {:induction false} BoundedPerServiceIff(kind: Kind, limits: Limits)
    ensures BoundedPerService(kind, limits) <==> OneInstanceSuffices(kind, limits)
    ensures UniquePerService(kind, limits) <==> OneInstanceSuffices(kind, limits)
  {
    hide MergeAll, ServiceSize, ServicesWithin, CountersExact, TwoInstances, UniqueKeys;
    if OneInstanceSuffices(kind, limits) {
      forall from: seq<PbCombined>, k: ServiceKey | k in MergeAll(limits, from).metrics.services
        ensures ServiceSize(kind)(MergeAll(limits, from).metrics.services[k]) <= InstanceLimit(kind, limits)
        ensures |UniqueKeys(kind, MergeAll(limits, from).metrics.services[k].instances)| <= InstanceLimit(kind, limits)
      {
        UniqueInService(kind, MergeAll(limits, from).metrics.services[k]);
        MergeAllWithin(limits, from);
        LimitsSuffice(kind, limits, MergeAll(limits, from), k);
      }
    } else {
      ServiceExceedsLimit(kind, limits);
      assert ServiceName in MergeAll(limits, [TwoInstances(kind, limits)]).metrics.services;
    }
  }
}
