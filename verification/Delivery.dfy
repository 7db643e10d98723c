/** End to end: what the Processor is given over a whole run adds up to what was aggregated. Each hand-over
    is a call per database key, with the root of some merge tree over the operands of that key. */
module Delivery {
  import opened Sums
  import opened Models
  import opened AggregatorSpec
  import opened AggregatorSafety
  import opened MergerTotals
  import opened Converter
  import EventOperands
  import EventTotals

  /** How entries are stored: the message of an operand, and the ID and partition of its key. */
  datatype Store = Store(message: nat -> PbCombined, slot: nat -> (seq<int>, nat), limits: Limits)

  /** One call of the Processor: the entries merged under one key, and how pebble merged them. */
  datatype Call = Call(interval: nat, time: nat, slot: (seq<int>, nat), entries: seq<Entry>, tree: MergeTree)

  ghost function Messages(store: Store, s: seq<Entry>): (r: seq<PbCombined>)
    ensures |r| == |s| && forall i :: 0 <= i < |s| ==> r[i] == store.message(s[i].operand)
  {
    seq(|s|, i requires 0 <= i < |s| => store.message(s[i].operand))
  }

  /** All entries of a call have its key, and its value is the root of a merge tree over their messages. */
  ghost predicate ValidCall(store: Store, c: Call) {
    && (forall i :: 0 <= i < |c.entries| ==>
          c.entries[i].interval == c.interval && c.entries[i].time == c.time && store.slot(c.entries[i].operand) == c.slot)
    && ValidTree(store.limits, c.tree)
    && multiset(Operands(c.tree)) == multiset(Messages(store, c.entries))
  }

  ghost function EntriesOf(calls: seq<Call>): seq<Entry> {
    if calls == [] then [] else EntriesOf(calls[..|calls| - 1]) + calls[|calls| - 1].entries
  }

  /** The calls that hand the entries `w` over, each entry in one of them. */
  ghost predicate Serves(store: Store, w: multiset<Entry>, calls: seq<Call>) {
    && (forall i :: 0 <= i < |calls| ==> ValidCall(store, calls[i]))
    && multiset(EntriesOf(calls)) == w
  }

  // ----- what a run hands over is what its steps hand over

  lemma {:induction false} HarvestOnlyAdds(cfg: Config, snap: set<Entry>, end: nat, j: nat, db: set<Entry>, handed: multiset<Entry>)
    requires j <= |cfg|
    ensures handed <= HarvestFrom(cfg, snap, end, j, db, handed).1
    decreases |cfg| - j
  {
    hide Truncate, Window;
    if j < |cfg| {
      if Aligned(end, cfg[j]) {
        HarvestOnlyAdds(cfg, snap, end, j + 1, db - Window(db, cfg[j], end), handed + multiset(Window(snap, cfg[j], end)));
      } else {
        HarvestOnlyAdds(cfg, snap, end, j + 1, db, handed);
      }
    }
  }

  lemma StepOnlyAdds(cfg: Config, s: State, step: Step)
    requires |cfg| > 0 && Enabled(cfg, s, step)
    ensures s.handed <= Apply(cfg, s, step).handed
  {
    hide Truncate, Window, HarvestFrom, Written;
    if step.CloseHarvest? {
      var ivl := cfg[s.lock.k];
      HarvestOnlyAdds(cfg, s.db, Truncate(s.processingTime, ivl) + ivl, 0, s.db, s.handed);
    }
  }

  ghost function AllCalls(callsAt: seq<seq<Call>>): seq<Call> {
    if callsAt == [] then [] else AllCalls(callsAt[..|callsAt| - 1]) + callsAt[|callsAt| - 1]
  }

  lemma {:induction false} EntriesAppend(a: seq<Call>, b: seq<Call>)
    ensures EntriesOf(a + b) == EntriesOf(a) + EntriesOf(b)
    decreases |b|
  {
    if b == [] {
      assert a + b == a;
    } else {
      var n := |b| - 1;
      EntriesAppend(a, b[..n]);
      assert (a + b)[..|a + b| - 1] == a + b[..n];
      assert EntriesOf(a + b) == EntriesOf(a + b[..n]) + b[n].entries;
      hide EntriesOf;
      var x, y, z := EntriesOf(a), EntriesOf(b[..n]), b[n].entries;
      assert (x + y) + z == x + (y + z);
    }
  }

  /** Step by step, the calls made so far carry exactly the entries handed over so far. */
  lemma {:induction false} CallsCarryHanded(store: Store, cfg: Config, states: seq<State>, steps: seq<Step>,
                                            callsAt: seq<seq<Call>>, n: nat)
    requires |cfg| > 0 && IsRun(cfg, states, steps) && n < |states| && |callsAt| == |steps|
    requires forall i :: 0 <= i < |steps| ==> Serves(store, states[i + 1].handed - states[i].handed, callsAt[i])
    ensures Serves(store, states[n].handed, AllCalls(callsAt[..n]))
  {
    hide ValidCall, Apply, Enabled, Serves;
    if n == 0 {
      ServesNothing(store);
      assert callsAt[..0] == [];
    } else {
      CallsCarryHanded(store, cfg, states, steps, callsAt, n - 1);
      var s, t := states[n - 1], states[n];
      StepOnlyAdds(cfg, s, steps[n - 1]);
      assert s.handed + (t.handed - s.handed) == t.handed;
      assert callsAt[..n][..n - 1] == callsAt[..n - 1];
      ServesBoth(store, s.handed, AllCalls(callsAt[..n - 1]), t.handed - s.handed, callsAt[n - 1]);
    }
  }

  lemma ServesNothing(store: Store)
    ensures Serves(store, multiset{}, [])
  {
  }

  lemma ServesBoth(store: Store, v: multiset<Entry>, a: seq<Call>, w: multiset<Entry>, b: seq<Call>)
    requires Serves(store, v, a) && Serves(store, w, b)
    ensures Serves(store, v + w, a + b)
  {
    hide ValidCall;
    EntriesAppend(a, b);
  }

  // ----- one interval

  ghost function OfInterval(s: seq<Entry>, ivl: nat): seq<Entry> {
    if s == [] then []
    else
      var last := s[|s| - 1];
      if last.interval == ivl then OfInterval(s[..|s| - 1], ivl) + [last] else OfInterval(s[..|s| - 1], ivl)
  }

  ghost function CallsOf(calls: seq<Call>, ivl: nat): seq<Call> {
    if calls == [] then []
    else
      var last := calls[|calls| - 1];
      if last.interval == ivl then CallsOf(calls[..|calls| - 1], ivl) + [last] else CallsOf(calls[..|calls| - 1], ivl)
  }

  lemma {:induction false} OfIntervalCounts(s: seq<Entry>, ivl: nat, e: Entry)
    ensures multiset(OfInterval(s, ivl))[e] == if e.interval == ivl then multiset(s)[e] else 0
  {
    if s != [] {
      OfIntervalCounts(s[..|s| - 1], ivl, e);
      assert s == s[..|s| - 1] + [s[|s| - 1]];
    }
  }

  lemma OfIntervalPermutes(s: seq<Entry>, t: seq<Entry>, ivl: nat)
    requires multiset(s) == multiset(t)
    ensures multiset(OfInterval(s, ivl)) == multiset(OfInterval(t, ivl))
  {
    forall e
      ensures multiset(OfInterval(s, ivl))[e] == multiset(OfInterval(t, ivl))[e]
    {
      OfIntervalCounts(s, ivl, e);
      OfIntervalCounts(t, ivl, e);
    }
  }

  lemma {:induction false} OfIntervalAppend(a: seq<Entry>, b: seq<Entry>, ivl: nat)
    requires forall i, j :: 0 <= i < |b| && 0 <= j < |b| ==> b[i].interval == b[j].interval
    ensures OfInterval(a + b, ivl) == if b != [] && b[0].interval == ivl then OfInterval(a, ivl) + b else OfInterval(a, ivl)
    decreases |b|
  {
    if b == [] {
      assert a + b == a;
    } else {
      var n := |b| - 1;
      OfIntervalAppend(a, b[..n], ivl);
      assert (a + b)[..|a + b| - 1] == a + b[..n];
      assert b[..n] + [b[n]] == b;
      assert b[n].interval == b[0].interval;
    }
  }

  lemma {:induction false} EntriesOfInterval(store: Store, calls: seq<Call>, ivl: nat)
    requires forall i :: 0 <= i < |calls| ==> ValidCall(store, calls[i])
    ensures OfInterval(EntriesOf(calls), ivl) == EntriesOf(CallsOf(calls, ivl))
    ensures forall i :: 0 <= i < |CallsOf(calls, ivl)| ==> ValidCall(store, CallsOf(calls, ivl)[i])
  {
    hide ValidTree, Operands, Messages;
    if calls != [] {
      var init, last := calls[..|calls| - 1], calls[|calls| - 1];
      EntriesOfInterval(store, init, ivl);
      assert ValidCall(store, last);
      OfIntervalAppend(EntriesOf(init), last.entries, ivl);
      hide ValidCall;
      var c := CallsOf(init, ivl);
      assert (c + [last])[..|c|] == c;
      assert last.entries == [] ==> EntriesOf(c) + last.entries == EntriesOf(c);
    }
  }

  // ----- totals

  ghost function EntryTotal(store: Store, q: Quantity): Entry -> real {
    (e: Entry) => PbTotal(q)(store.message(e.operand))
  }

  ghost function CallTotal(q: Quantity): Call -> real {
    (c: Call) => PbTotal(q)(c.tree.value)
  }

  ghost predicate SealedEntries(store: Store, s: seq<Entry>) {
    forall i :: 0 <= i < |s| ==> SealedPb(store.message(s[i].operand))
  }

  lemma SealedParts(store: Store, a: seq<Entry>, b: seq<Entry>)
    requires SealedEntries(store, a + b)
    ensures SealedEntries(store, a) && SealedEntries(store, b)
  {
    hide SealedPb;
    assert forall i :: 0 <= i < |a| ==> (a + b)[i] == a[i];
    assert forall i :: 0 <= i < |b| ==> (a + b)[|a| + i] == b[i];
  }

  lemma CallConserves(store: Store, q: Quantity, c: Call)
    requires ValidCall(store, c) && SealedEntries(store, c.entries)
    ensures CallTotal(q)(c) == SeqSum(c.entries, EntryTotal(store, q))
    ensures SealedPb(c.tree.value)
  {
    hide SealedPb, ValidTree, Operands, SeqSum;
    var a, b := Operands(c.tree), Messages(store, c.entries);
    assert forall x :: x in a <==> x in multiset(a);
    assert forall x :: x in b <==> x in multiset(b);
    assert forall x :: x in b ==> SealedPb(x);
    AllSealedIff(a);
    TreeConserves(q, store.limits, c.tree);
    hide PbTotal;
    SeqSumPermutes(a, b, PbTotal(q));
    SeqSumMatches(b, PbTotal(q), c.entries, EntryTotal(store, q));
  }

  lemma {:induction false} CallsConserve(store: Store, q: Quantity, calls: seq<Call>)
    requires forall i :: 0 <= i < |calls| ==> ValidCall(store, calls[i])
    requires SealedEntries(store, EntriesOf(calls))
    ensures SeqSum(calls, CallTotal(q)) == SeqSum(EntriesOf(calls), EntryTotal(store, q))
  {
    hide SealedEntries, ValidCall, CallTotal, EntryTotal;
    if calls != [] {
      var init, last := calls[..|calls| - 1], calls[|calls| - 1];
      SealedParts(store, EntriesOf(init), last.entries);
      CallsConserve(store, q, init);
      CallConserves(store, q, last);
      SeqSumAppend(EntriesOf(init), last.entries, EntryTotal(store, q));
    }
  }

  /** When Close has finished, the totals over all Processor calls of an interval are those of the operands
      accepted for it, in any listing. */
  lemma {:induction false} DeliveredTotals(store: Store, q: Quantity, cfg: Config, states: seq<State>, steps: seq<Step>,
                                           callsAt: seq<seq<Call>>, n: nat, ivl: nat, accepted: seq<Entry>)
    requires ValidConfig(cfg) && IsRun(cfg, states, steps) && n < |states| && |callsAt| == |steps|
    requires forall i :: 0 <= i < |steps| ==> Serves(store, states[i + 1].handed - states[i].handed, callsAt[i])
    requires !states[n].dbOpen && multiset(accepted) == multiset(states[n].accepted)
    requires forall e :: e in states[n].accepted ==> SealedPb(store.message(e.operand))
    ensures SeqSum(CallsOf(AllCalls(callsAt[..n]), ivl), CallTotal(q)) == SeqSum(OfInterval(accepted, ivl), EntryTotal(store, q))
  {
    ExactlyOnceAfterClose(cfg, states, steps, n);
    CallsCarryHanded(store, cfg, states, steps, callsAt, n);
    hide IsRun, SealedPb, ValidCall, CallTotal, EntryTotal, SeqSum;
    var calls := AllCalls(callsAt[..n]);
    var mine := CallsOf(calls, ivl);
    EntriesOfInterval(store, calls, ivl);
    OfIntervalPermutes(EntriesOf(calls), accepted, ivl);
    forall i | 0 <= i < |EntriesOf(mine)|
      ensures SealedPb(store.message(EntriesOf(mine)[i].operand))
    {
      var e := EntriesOf(mine)[i];
      assert e in multiset(EntriesOf(mine));
      OfIntervalCounts(EntriesOf(calls), ivl, e);
      assert multiset(EntriesOf(calls)) == multiset(states[n].accepted);
    }
    CallsConserve(store, q, mine);
    SeqSumPermutes(EntriesOf(mine), OfInterval(accepted, ivl), EntryTotal(store, q));
  }

  /** In particular every total handed over for an interval is the sum of what the fields of the events say that
      were aggregated for it, however they were partitioned, merged and harvested; the events totals add up to
      the number of events that yield metrics. */
  lemma {:induction false} EventsDelivered(q: Quantity, store: Store, cfg: Config, states: seq<State>, steps: seq<Step>,
                                           callsAt: seq<seq<Call>>, n: nat, ivl: nat, accepted: seq<Entry>, sources: seq<Source>)
    requires ValidConfig(cfg) && IsRun(cfg, states, steps) && n < |states| && |callsAt| == |steps|
    requires forall i :: 0 <= i < |steps| ==> Serves(store, states[i + 1].handed - states[i].handed, callsAt[i])
    requires !states[n].dbOpen && multiset(accepted) == multiset(states[n].accepted)
    requires forall e :: e in states[n].accepted ==> SealedPb(store.message(e.operand))
    requires EventOperands.Partitioned(sources)
    requires multiset(Messages(store, OfInterval(accepted, ivl))) == multiset(EventOperands.AllOperands(sources))
    ensures SeqSum(CallsOf(AllCalls(callsAt[..n]), ivl), CallTotal(q)) == EventTotals.EventsTotals(q, sources)
    ensures q.EventsTotal? ==> EventTotals.EventsTotals(q, sources) == EventOperands.Yielding(sources) as real
  {
    DeliveredTotals(store, q, cfg, states, steps, callsAt, n, ivl, accepted);
    hide IsRun, SealedPb, Serves, SeqSum, PbTotal, EventOperands.AllOperands, EventOperands.Yielding, EventTotals.EventsTotals;
    var mine := OfInterval(accepted, ivl);
    SeqSumMatches(Messages(store, mine), PbTotal(q), mine, EntryTotal(store, q));
    EventOperands.OperandsCounted(sources);
    EventTotals.OperandsTotals(q, sources);
    SeqSumPermutes(Messages(store, mine), EventOperands.AllOperands(sources), PbTotal(q));
  }
}
