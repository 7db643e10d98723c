/** Cached event counts along runs of the aggregator: every count is loaded at most once, exactly once when
    Close has finished, and together with the harvest that hands its batch over. */
module CachedRuns {
  import opened AggregatorSpec
  import opened AggregatorSafety
  import opened CachedEvents

  // ----- additions and loads

  /** The positions of the additions to a key. */
  ghost function AddsAt(calls: seq<Call>, key: StatsKey): set<nat> {
    set i: nat | i < |calls| && calls[i].Add? && calls[i].key == key
  }

  /** The positions of the additions that were not loaded yet. */
  ghost function SinceAt(calls: seq<Call>, key: StatsKey): set<nat> {
    if calls == [] then {}
    else
      var n := |calls| - 1;
      var before := SinceAt(calls[..n], key);
      match calls[n]
      case Add(k, _) => if k == key then before + {n} else before
      case Load(end) => if Aligned(end, key.interval) then {} else before
  }

  /** The positions of the additions that were loaded, as often as they were. */
  ghost function LoadedAt(calls: seq<Call>, key: StatsKey): multiset<nat> {
    if calls == [] then multiset{}
    else
      var n := |calls| - 1;
      var before := LoadedAt(calls[..n], key);
      if calls[n].Load? && Aligned(calls[n].end, key.interval) then before + multiset(SinceAt(calls[..n], key)) else before
  }

  lemma AddsLast(calls: seq<Call>, key: StatsKey)
    requires calls != []
    ensures var n := |calls| - 1;
            AddsAt(calls, key) == AddsAt(calls[..n], key) + if calls[n].Add? && calls[n].key == key then {n} else {}
  {
  }

  /** Every addition is either still cached or was loaded exactly once. */
  lemma {:induction false} LoadedOnce(calls: seq<Call>, key: StatsKey)
    ensures SinceAt(calls, key) <= AddsAt(calls, key)
    ensures LoadedAt(calls, key) + multiset(SinceAt(calls, key)) == multiset(AddsAt(calls, key))
  {
    if calls != [] {
      hide Aligned;
      var n := |calls| - 1;
      LoadedOnce(calls[..n], key);
      AddsLast(calls, key);
      if calls[n].Add? && calls[n].key == key {
        var before := SinceAt(calls[..n], key);
        assert n !in before && n !in AddsAt(calls[..n], key);
        SetsToMultiset(before, {n});
        SetsToMultiset(AddsAt(calls[..n], key), {n});
      }
    }
  }

  lemma {:induction false} SinceEmpty(calls: seq<Call>, key: StatsKey)
    ensures SinceAt(calls, key) == {} <==> Since(calls, key) == []
  {
    if calls != [] {
      hide Aligned;
      SinceEmpty(calls[..|calls| - 1], key);
    }
  }

  // ----- values

  ghost function AddedTotal(calls: seq<Call>, key: StatsKey): real {
    if calls == [] then 0.0
    else
      var last := calls[|calls| - 1];
      AddedTotal(calls[..|calls| - 1], key) + if last.Add? && last.key == key then last.n else 0.0
  }

  /** What all loads of a key return. */
  ghost function LoadedValue(calls: seq<Call>, key: StatsKey): int {
    if calls == [] then 0
    else
      var n := |calls| - 1;
      LoadedValue(calls[..n], key)
      + if calls[n].Load? && Aligned(calls[n].end, key.interval) then TotalScaled(Since(calls[..n], key)) / SCALE else 0
  }

  ghost predicate WholeCalls(calls: seq<Call>) {
    forall i :: 0 <= i < |calls| && calls[i].Add? ==> Whole(calls[i].n)
  }

  lemma {:induction false} SinceWhole(calls: seq<Call>, key: StatsKey)
    requires WholeCalls(calls)
    ensures forall i :: 0 <= i < |Since(calls, key)| ==> Whole(Since(calls, key)[i])
  {
    hide Aligned, Whole;
    if calls != [] {
      WholePrefix(calls);
      SinceWhole(calls[..|calls| - 1], key);
    }
  }

  lemma WholePrefix(calls: seq<Call>)
    requires calls != [] && WholeCalls(calls)
    ensures WholeCalls(calls[..|calls| - 1])
  {
    hide Whole;
    assert forall i :: 0 <= i < |calls| - 1 ==> calls[..|calls| - 1][i] == calls[i];
  }

  lemma TotalLast(ns: seq<real>, n: real)
    ensures Total(ns + [n]) == Total(ns) + n
  {
    assert (ns + [n])[..|ns|] == ns;
  }

  /** Whole counts: what was loaded and what is still cached add up to what was added. */
  lemma {:induction false} ValuesAddUp(calls: seq<Call>, key: StatsKey)
    requires WholeCalls(calls)
    ensures LoadedValue(calls, key) as real + Total(Since(calls, key)) == AddedTotal(calls, key)
  {
    hide Aligned, Whole, TotalScaled;
    if calls != [] {
      var n := |calls| - 1;
      WholePrefix(calls);
      ValuesAddUp(calls[..n], key);
      SinceWhole(calls[..n], key);
      var ns := Since(calls[..n], key);
      match calls[n]
      case Add(k, x) => TotalLast(ns, x);
      case Load(end) => LoadedExact(ns);
    }
  }

  // ----- the calls of a run

  /** The ID and the number of events of the batch that a write step aggregates. */
  datatype Batch = Batch(id: Id, events: nat)

  /** The additions of `AggregateBatch`, one for each interval. */
  ghost function Additions(cfg: Config, b: Batch): (r: seq<Call>)
    ensures |r| == |cfg| && forall j :: 0 <= j < |cfg| ==> r[j] == Add(StatsKey(cfg[j], b.id), b.events as real)
  {
    seq(|cfg|, j requires 0 <= j < |cfg| => Add(StatsKey(cfg[j], b.id), b.events as real))
  }

  /** The end time that a tick or a turn of Close loads with, which is that of its harvest. */
  ghost function LoadEnd(cfg: Config, s: State, step: Step): nat
    requires |cfg| > 0 && Enabled(cfg, s, step) && (step.Tick? || step.CloseHarvest?)
  {
    if step.Tick? then s.run.to else Truncate(s.processingTime, cfg[s.lock.k]) + cfg[s.lock.k]
  }

  ghost function StepCalls(cfg: Config, s: State, step: Step, b: Batch): seq<Call>
    requires |cfg| > 0 && Enabled(cfg, s, step)
  {
    if step.Write? then Additions(cfg, b)
    else if step.Tick? || step.CloseHarvest? then [Load(LoadEnd(cfg, s, step))]
    else []
  }

  ghost function RunCalls(cfg: Config, states: seq<State>, steps: seq<Step>, batches: seq<Batch>, n: nat): seq<Call>
    requires |cfg| > 0 && IsRun(cfg, states, steps) && |batches| == |steps| && n <= |steps|
  {
    if n == 0 then []
    else RunCalls(cfg, states, steps, batches, n - 1) + StepCalls(cfg, states[n - 1], steps[n - 1], batches[n - 1])
  }

  ghost predicate Cleared(calls: seq<Call>, ivl: nat) {
    forall id: Id :: Since(calls, StatsKey(ivl, id)) == []
  }

  ghost predicate ClearedUpTo(cfg: Config, calls: seq<Call>, k: nat) {
    k <= |cfg| && forall j :: 0 <= j < k ==> Cleared(calls, cfg[j])
  }

  /** The intervals that Close has passed hold no counts, and after Close none does. */
  ghost predicate ClearedBehind(cfg: Config, s: State, calls: seq<Call>) {
    && (s.lock.CloseHarvesting? ==> s.closed && ClearedUpTo(cfg, calls, s.lock.k))
    && (!s.dbOpen ==> s.closed && ClearedUpTo(cfg, calls, |cfg|))
  }

  lemma LoadClears(calls: seq<Call>, end: nat, ivl: nat)
    ensures Aligned(end, ivl) || Cleared(calls, ivl) ==> Cleared(calls + [Load(end)], ivl)
  {
    SinceLoad(calls, end);
    hide Aligned;
  }

  /** Only Close and writes matter to what is cached behind Close. */
  lemma ClosingStep(cfg: Config, s: State, step: Step)
    requires |cfg| > 0 && Enabled(cfg, s, step)
    ensures var t := Apply(cfg, s, step);
            && (s.closed ==> t.closed && !step.Write?)
            && (t.lock.CloseHarvesting? ==>
                  || (step.CloseProceed? && t.lock.k == 0)
                  || (step.CloseHarvest? && s.lock.CloseHarvesting? && t.lock.k == s.lock.k + 1)
                  || (!step.CloseHarvest? && !step.Write? && t.lock == s.lock))
            && (t.dbOpen != s.dbOpen ==> step.CloseEnd? && s.lock == CloseHarvesting(|cfg|))
            && (step.CloseProceed? || step.CloseHarvest? ==> !s.lock.Free?)
  {
    hide Truncate, HarvestFrom, Written, Window;
  }

  lemma StaysCleared(cfg: Config, s: State, step: Step, calls: seq<Call>, b: Batch, j: nat)
    requires |cfg| > 0 && Enabled(cfg, s, step) && !step.Write? && j < |cfg| && cfg[j] > 0
    ensures Cleared(calls, cfg[j]) || (step.CloseHarvest? && j == s.lock.k)
            ==> Cleared(calls + StepCalls(cfg, s, step, b), cfg[j])
  {
    hide Truncate, Cleared;
    if step.Tick? || step.CloseHarvest? {
      LoadClears(calls, LoadEnd(cfg, s, step), cfg[j]);
      if step.CloseHarvest? && j == s.lock.k {
        NextAligned(s.processingTime, cfg[j]);
      }
    } else {
      assert calls + [] == calls;
    }
  }

  /** No step but a write caches anything, and a turn of Close clears its interval. */
  lemma ClearedUpToStep(cfg: Config, s: State, step: Step, calls: seq<Call>, b: Batch, k: nat)
    requires |cfg| > 0 && (forall x :: x in cfg ==> x > 0) && Enabled(cfg, s, step) && !step.Write? && ClearedUpTo(cfg, calls, k)
    ensures var next := calls + StepCalls(cfg, s, step, b);
            ClearedUpTo(cfg, next, k) && (step.CloseHarvest? && k == s.lock.k ==> ClearedUpTo(cfg, next, k + 1))
  {
    hide Cleared, StepCalls;
    forall j | 0 <= j < |cfg|
      ensures Cleared(calls, cfg[j]) || (step.CloseHarvest? && j == s.lock.k)
              ==> Cleared(calls + StepCalls(cfg, s, step, b), cfg[j])
    {
      assert cfg[j] in cfg;
      StaysCleared(cfg, s, step, calls, b, j);
    }
  }

  lemma ClearedStep(cfg: Config, s: State, step: Step, calls: seq<Call>, b: Batch)
    requires ValidConfig(cfg) && CloseOrder(cfg, s) && Enabled(cfg, s, step) && ClearedBehind(cfg, s, calls)
    ensures ClearedBehind(cfg, Apply(cfg, s, step), calls + StepCalls(cfg, s, step, b))
  {
    PositiveIntervals(cfg);
    ClosingStep(cfg, s, step);
    hide ValidConfig, Apply, ClearedUpTo, StepCalls, Unharvested;
    if !step.Write? {
      if s.lock.CloseHarvesting? {
        ClearedUpToStep(cfg, s, step, calls, b, s.lock.k);
      }
      if !s.dbOpen {
        ClearedUpToStep(cfg, s, step, calls, b, |cfg|);
      }
    }
    if Apply(cfg, s, step).lock == CloseHarvesting(0) {
      NothingYet(cfg, calls + StepCalls(cfg, s, step, b));
    }
  }

  lemma NothingYet(cfg: Config, calls: seq<Call>)
    ensures ClearedUpTo(cfg, calls, 0)
  {
  }

  lemma {:induction false} RunCleared(cfg: Config, states: seq<State>, steps: seq<Step>, batches: seq<Batch>, n: nat)
    requires ValidConfig(cfg) && IsRun(cfg, states, steps) && |batches| == |steps| && n <= |steps|
    ensures ClearedBehind(cfg, states[n], RunCalls(cfg, states, steps, batches, n))
  {
    PositiveIntervals(cfg);
    hide ClearedBehind, CloseOrder, Apply, Enabled, ValidConfig;
    if n == 0 {
      StartCleared(cfg, states[0]);
    } else {
      RunCleared(cfg, states, steps, batches, n - 1);
      RunKeeps(cfg, states, steps, n - 1);
      ClearedStep(cfg, states[n - 1], steps[n - 1], RunCalls(cfg, states, steps, batches, n - 1), batches[n - 1]);
    }
  }

  lemma StartCleared(cfg: Config, s: State)
    requires |cfg| > 0 && Init(cfg, s)
    ensures ClearedBehind(cfg, s, [])
  {
  }

  /** In every run every count is loaded at most once, and exactly once when Close has finished. */
  lemma {:induction false} CountsLoadedOnce(cfg: Config, states: seq<State>, steps: seq<Step>, batches: seq<Batch>, n: nat,
                                            ivl: nat, id: Id)
    requires ValidConfig(cfg) && IsRun(cfg, states, steps) && |batches| == |steps| && n <= |steps| && ivl in cfg
    ensures var calls, key := RunCalls(cfg, states, steps, batches, n), StatsKey(ivl, id);
            && (forall i :: LoadedAt(calls, key)[i] <= if i in AddsAt(calls, key) then 1 else 0)
            && (!states[n].dbOpen ==> LoadedAt(calls, key) == multiset(AddsAt(calls, key)))
  {
    var calls, key := RunCalls(cfg, states, steps, batches, n), StatsKey(ivl, id);
    LoadedOnce(calls, key);
    RunCleared(cfg, states, steps, batches, n);
    hide RunCalls, LoadedAt, AddsAt, Since, IsRun, ValidConfig;
    SinceEmpty(calls, key);
    hide SinceAt;
    forall i
      ensures LoadedAt(calls, key)[i] <= if i in AddsAt(calls, key) then 1 else 0
    {
      assert (LoadedAt(calls, key) + multiset(SinceAt(calls, key)))[i] == multiset(AddsAt(calls, key))[i];
    }
  }

  // ----- how many events

  /** The events of all batches with an ID. */
  ghost function EventsOf(steps: seq<Step>, batches: seq<Batch>, n: nat, id: Id): nat
    requires |batches| == |steps| && n <= |steps|
  {
    if n == 0 then 0
    else
      EventsOf(steps, batches, n - 1, id)
      + if steps[n - 1].Write? && batches[n - 1].id == id then batches[n - 1].events else 0
  }

  lemma {:induction false} AddedAppend(a: seq<Call>, b: seq<Call>, key: StatsKey)
    ensures AddedTotal(a + b, key) == AddedTotal(a, key) + AddedTotal(b, key)
    decreases |b|
  {
    if b == [] {
      assert a + b == a;
    } else {
      AddedAppend(a, b[..|b| - 1], key);
      assert (a + b)[..|a + b| - 1] == a + b[..|b| - 1];
    }
  }

  lemma {:induction false} AdditionsPrefix(cfg: Config, b: Batch, n: nat, ivl: nat, id: Id)
    requires n <= |cfg| && forall i, j :: 0 <= i < j < |cfg| ==> cfg[i] != cfg[j]
    ensures AddedTotal(Additions(cfg, b)[..n], StatsKey(ivl, id))
            == if ivl in cfg[..n] && b.id == id then b.events as real else 0.0
  {
    var calls := Additions(cfg, b);
    if n > 0 {
      AdditionsPrefix(cfg, b, n - 1, ivl, id);
      assert calls[..n][..n - 1] == calls[..n - 1];
      assert cfg[..n] == cfg[..n - 1] + [cfg[n - 1]];
      assert cfg[n - 1] !in cfg[..n - 1];
    }
  }

  lemma {:induction false} RunAdded(cfg: Config, states: seq<State>, steps: seq<Step>, batches: seq<Batch>, n: nat, ivl: nat, id: Id)
    requires ValidConfig(cfg) && IsRun(cfg, states, steps) && |batches| == |steps| && n <= |steps| && ivl in cfg
    ensures var calls := RunCalls(cfg, states, steps, batches, n);
            WholeCalls(calls) && AddedTotal(calls, StatsKey(ivl, id)) == EventsOf(steps, batches, n, id) as real
  {
    if n > 0 {
      hide Enabled, Apply, AddedTotal, WholeCalls, StepCalls;
      RunAdded(cfg, states, steps, batches, n - 1, ivl, id);
      var before := RunCalls(cfg, states, steps, batches, n - 1);
      var more := StepCalls(cfg, states[n - 1], steps[n - 1], batches[n - 1]);
      AddedAppend(before, more, StatsKey(ivl, id));
      StepAdded(cfg, states[n - 1], steps[n - 1], batches[n - 1], ivl, id);
      WholeAppend(before, more);
    }
  }

  lemma WholeAppend(a: seq<Call>, b: seq<Call>)
    requires WholeCalls(a) && WholeCalls(b)
    ensures WholeCalls(a + b)
  {
    hide Whole;
    forall i | 0 <= i < |a + b| && (a + b)[i].Add?
      ensures Whole((a + b)[i].n)
    {
      assert (a + b)[i] == if i < |a| then a[i] else b[i - |a|];
    }
  }

  lemma StepAdded(cfg: Config, s: State, step: Step, b: Batch, ivl: nat, id: Id)
    requires ValidConfig(cfg) && Enabled(cfg, s, step) && ivl in cfg
    ensures var more := StepCalls(cfg, s, step, b);
            && WholeCalls(more)
            && AddedTotal(more, StatsKey(ivl, id)) == if step.Write? && b.id == id then b.events as real else 0.0
  {
    hide Enabled, Aligned;
    if step.Write? {
      AdditionsPrefix(cfg, b, |cfg|, ivl, id);
      assert Additions(cfg, b)[..|cfg|] == Additions(cfg, b) && cfg[..|cfg|] == cfg;
    } else {
      var more := StepCalls(cfg, s, step, b);
      assert more != [] ==> more[..0] == [];
    }
  }

  /** When Close has finished, the values loaded for an interval and an ID add up to the events of the
      batches that were aggregated for the ID. */
  lemma {:induction false} EventsLoaded(cfg: Config, states: seq<State>, steps: seq<Step>, batches: seq<Batch>, n: nat,
                                        ivl: nat, id: Id)
    requires ValidConfig(cfg) && IsRun(cfg, states, steps) && |batches| == |steps| && n <= |steps| && ivl in cfg
    requires !states[n].dbOpen
    ensures LoadedValue(RunCalls(cfg, states, steps, batches, n), StatsKey(ivl, id)) == EventsOf(steps, batches, n, id)
  {
    var calls, key := RunCalls(cfg, states, steps, batches, n), StatsKey(ivl, id);
    RunAdded(cfg, states, steps, batches, n, ivl, id);
    RunCleared(cfg, states, steps, batches, n);
    hide RunCalls, IsRun, ValidConfig, LoadedValue, AddedTotal, EventsOf, WholeCalls, Since;
    ValuesAddUp(calls, key);
    assert Since(calls, key) == [];
  }

  // ----- counts are loaded with the harvest of their batch

  /** Step `l` loads the interval. */
  ghost predicate Loads(cfg: Config, states: seq<State>, steps: seq<Step>, l: nat, ivl: nat)
    requires |cfg| > 0 && IsRun(cfg, states, steps) && l < |steps|
  {
    (steps[l].Tick? || steps[l].CloseHarvest?) && Aligned(LoadEnd(cfg, states[l], steps[l]), ivl)
  }

  /** The counts of the write at `i` were not loaded before step `n`. */
  ghost predicate Cached(cfg: Config, states: seq<State>, steps: seq<Step>, i: nat, n: nat, ivl: nat)
    requires |cfg| > 0 && IsRun(cfg, states, steps) && n <= |steps|
  {
    i < n && steps[i].Write? && forall l :: i < l < n ==> !Loads(cfg, states, steps, l, ivl)
  }

  lemma {:induction false} SinceAfterAdds(calls: seq<Call>, more: seq<Call>, key: StatsKey, p: nat)
    requires forall i :: 0 <= i < |more| ==> more[i].Add?
    ensures p in SinceAt(calls + more, key)
            <==> p in SinceAt(calls, key) || (|calls| <= p < |calls + more| && more[p - |calls|].key == key)
    decreases |more|
  {
    if more == [] {
      assert calls + more == calls;
    } else {
      var m := |more| - 1;
      assert (calls + more)[..|calls| + m] == calls + more[..m];
      SinceAfterAdds(calls, more[..m], key, p);
    }
  }

  lemma SinceAfterLoad(calls: seq<Call>, end: nat, key: StatsKey)
    ensures SinceAt(calls + [Load(end)], key) == if Aligned(end, key.interval) then {} else SinceAt(calls, key)
  {
    hide Aligned;
    assert (calls + [Load(end)])[..|calls|] == calls;
  }

  /** One step later an addition is still cached if it was and the step does not load its interval. */
  lemma SinceAfterStep(cfg: Config, states: seq<State>, steps: seq<Step>, batches: seq<Batch>, n: nat, key: StatsKey, p: nat)
    requires |cfg| > 0 && IsRun(cfg, states, steps) && |batches| == |steps| && n < |steps|
    requires p < |RunCalls(cfg, states, steps, batches, n)|
    ensures p in SinceAt(RunCalls(cfg, states, steps, batches, n + 1), key)
            <==> p in SinceAt(RunCalls(cfg, states, steps, batches, n), key) && !Loads(cfg, states, steps, n, key.interval)
  {
    hide Enabled, Apply, SinceAt, Aligned, Truncate;
    var calls := RunCalls(cfg, states, steps, batches, n);
    if steps[n].Write? {
      SinceAfterAdds(calls, Additions(cfg, batches[n]), key, p);
    } else if steps[n].Tick? || steps[n].CloseHarvest? {
      SinceAfterLoad(calls, LoadEnd(cfg, states[n], steps[n]), key);
    } else {
      assert calls + [] == calls;
    }
  }

  lemma CallsGrow(cfg: Config, states: seq<State>, steps: seq<Step>, batches: seq<Batch>, n: nat)
    requires |cfg| > 0 && IsRun(cfg, states, steps) && |batches| == |steps| && n < |steps|
    ensures |RunCalls(cfg, states, steps, batches, n)| <= |RunCalls(cfg, states, steps, batches, n + 1)|
  {
    hide Enabled, Apply, StepCalls;
  }

  lemma CachedStep(cfg: Config, states: seq<State>, steps: seq<Step>, i: nat, n: nat, ivl: nat)
    requires |cfg| > 0 && IsRun(cfg, states, steps) && n <= |steps| && i + 1 < n
    ensures Cached(cfg, states, steps, i, n, ivl)
            <==> Cached(cfg, states, steps, i, n - 1, ivl) && !Loads(cfg, states, steps, n - 1, ivl)
  {
    hide Loads, IsRun;
  }

  lemma CachedAtFirst(cfg: Config, states: seq<State>, steps: seq<Step>, batches: seq<Batch>, i: nat, j: nat)
    requires |cfg| > 0 && IsRun(cfg, states, steps) && |batches| == |steps| && i < |steps| && steps[i].Write? && j < |cfg|
    ensures Cached(cfg, states, steps, i, i + 1, cfg[j])
    ensures var p, calls := |RunCalls(cfg, states, steps, batches, i)| + j, RunCalls(cfg, states, steps, batches, i + 1);
            p < |calls| && p in SinceAt(calls, StatsKey(cfg[j], batches[i].id))
  {
    hide Enabled, Apply, Loads;
    var calls := RunCalls(cfg, states, steps, batches, i);
    assert RunCalls(cfg, states, steps, batches, i + 1) == calls + Additions(cfg, batches[i]);
    hide RunCalls, SinceAt;
    SinceAfterAdds(calls, Additions(cfg, batches[i]), StatsKey(cfg[j], batches[i].id), |calls| + j);
  }

  /** The addition that the write at `i` makes for interval `j` is not loaded yet exactly while it is cached. */
  lemma {:induction false} CachedIsSince(cfg: Config, states: seq<State>, steps: seq<Step>, batches: seq<Batch>,
                                         i: nat, n: nat, j: nat)
    requires |cfg| > 0 && IsRun(cfg, states, steps) && |batches| == |steps| && i < n <= |steps| && steps[i].Write? && j < |cfg|
    ensures var p := |RunCalls(cfg, states, steps, batches, i)| + j;
            && p < |RunCalls(cfg, states, steps, batches, n)|
            && (p in SinceAt(RunCalls(cfg, states, steps, batches, n), StatsKey(cfg[j], batches[i].id))
                <==> Cached(cfg, states, steps, i, n, cfg[j]))
  {
    hide RunCalls, IsRun, SinceAt, Loads, Cached;
    var p := |RunCalls(cfg, states, steps, batches, i)| + j;
    if n == i + 1 {
      CachedAtFirst(cfg, states, steps, batches, i, j);
    } else {
      CachedIsSince(cfg, states, steps, batches, i, n - 1, j);
      SinceAfterStep(cfg, states, steps, batches, n - 1, StatsKey(cfg[j], batches[i].id), p);
      CachedStep(cfg, states, steps, i, n, cfg[j]);
      CallsGrow(cfg, states, steps, batches, n - 1);
    }
  }

  lemma ClockAfter(cfg: Config, s: State, step: Step)
    requires |cfg| > 0 && Enabled(cfg, s, step)
    ensures Apply(cfg, s, step).processingTime == if step.Tick? then s.run.to else s.processingTime
  {
    hide Truncate, HarvestFrom, Written, Window;
  }

  lemma NextTick(cfg: Config, s: State)
    requires ValidConfig(cfg) && Clocked(cfg, s) && s.run.Waiting?
    ensures Aligned(s.processingTime, cfg[0]) && s.run.to == s.processingTime + cfg[0]
  {
    hide Truncate;
  }

  lemma RunClocked(cfg: Config, states: seq<State>, steps: seq<Step>, n: nat)
    requires ValidConfig(cfg) && IsRun(cfg, states, steps) && n <= |steps|
    ensures Clocked(cfg, states[n])
  {
    hide Clocked, DbPlaced, BatchPlaced, TakenPlaced, CloseOrder, Books, ValidConfig, Enabled, Apply;
    RunKeeps(cfg, states, steps, n);
  }

  lemma ClockStep(cfg: Config, s: State, step: Step, ivl: nat)
    requires ValidConfig(cfg) && Clocked(cfg, s) && Enabled(cfg, s, step) && ivl in cfg
    requires step.Tick? ==> !Aligned(s.run.to, ivl)
    ensures Truncate(Apply(cfg, s, step).processingTime, ivl) == Truncate(s.processingTime, ivl)
  {
    PositiveIntervals(cfg);
    ClockAfter(cfg, s, step);
    if step.Tick? {
      hide Truncate, Aligned, Apply, ValidConfig, Clocked;
      NextTick(cfg, s);
      OneTick(s.processingTime, cfg[0], ivl);
    }
  }

  /** While counts stay cached, the window of the interval does not change. */
  lemma {:induction false} CachedSameWindow(cfg: Config, states: seq<State>, steps: seq<Step>, i: nat, n: nat, ivl: nat)
    requires ValidConfig(cfg) && IsRun(cfg, states, steps) && n <= |steps| && ivl in cfg
    requires Cached(cfg, states, steps, i, n, ivl)
    ensures Truncate(states[i].processingTime, ivl) == Truncate(states[n].processingTime, ivl)
  {
    hide Truncate, Clocked, Apply, Enabled, ValidConfig, Aligned;
    RunClocked(cfg, states, steps, n - 1);
    if n > i + 1 {
      CachedStep(cfg, states, steps, i, n, ivl);
      CachedSameWindow(cfg, states, steps, i, n - 1, ivl);
    }
    ClockStep(cfg, states[n - 1], steps[n - 1], ivl);
  }

  /** Counts that are still cached at a turn of Close belong to an interval that it has not passed. */
  lemma {:induction false} CachedAhead(cfg: Config, states: seq<State>, steps: seq<Step>, i: nat, n: nat, j: nat)
    requires ValidConfig(cfg) && IsRun(cfg, states, steps) && n <= |steps| && j < |cfg|
    requires Cached(cfg, states, steps, i, n, cfg[j]) && states[n].lock.CloseHarvesting?
    ensures states[n].lock.k <= j
  {
    hide Truncate, Apply, Aligned;
    var s, step := states[n - 1], steps[n - 1];
    assert Enabled(cfg, s, step) && states[n] == Apply(cfg, s, step);
    ClosingStep(cfg, s, step);
    hide Enabled, IsRun;
    if n > i + 1 && states[n].lock.k > 0 {
      CachedStep(cfg, states, steps, i, n, cfg[j]);
      CachedAhead(cfg, states, steps, i, n - 1, j);
      if s.lock.k == j && step.CloseHarvest? {
        NextAligned(s.processingTime, cfg[j]);
      }
    }
  }

  /** The next multiple of the smaller interval is the next of the larger one when it is a multiple of it. */
  lemma NextOfLarger(t: nat, c: nat, ivl: nat)
    requires 0 < c <= ivl && Aligned(Truncate(t, c) + c, ivl)
    ensures Truncate(t, ivl) + ivl == Truncate(t, c) + c
  {
    var end := Truncate(t, c) + c;
    assert t < end <= t + c;
    var q := AlignedIs(end, ivl);
    hide Aligned;
    assert q >= 1;
    assert end == (q - 1) * ivl + ivl;
    TruncateIs(q - 1, t - (q - 1) * ivl, ivl);
  }

  /** In every run over ascending intervals, counts are loaded with the harvest whose window holds the entries
      of their batch: the load ends where the window of the write ends. */
  lemma {:induction false} LoadedWithHarvest(cfg: Config, states: seq<State>, steps: seq<Step>, i: nat, n: nat, ivl: nat)
    requires ValidConfig(cfg) && (forall a, b :: 0 <= a < b < |cfg| ==> cfg[a] < cfg[b])
    requires IsRun(cfg, states, steps) && n < |steps| && ivl in cfg
    requires Cached(cfg, states, steps, i, n, ivl) && Loads(cfg, states, steps, n, ivl)
    ensures LoadEnd(cfg, states[n], steps[n]) == Truncate(states[i].processingTime, ivl) + ivl
    ensures forall e :: e in Written(cfg, states[i].processingTime, steps[i].writes) && e.interval == ivl
              ==> Due(e, LoadEnd(cfg, states[n], steps[n]))
  {
    CachedSameWindow(cfg, states, steps, i, n, ivl);
    RunKeeps(cfg, states, steps, n);
    PositiveIntervals(cfg);
    var s := states[n];
    if steps[n].Tick? {
      OneTick(s.processingTime, cfg[0], ivl);
    } else {
      var j :| 0 <= j < |cfg| && cfg[j] == ivl;
      CachedAhead(cfg, states, steps, i, n, j);
      NextOfLarger(s.processingTime, cfg[s.lock.k], ivl);
    }
  }
}
