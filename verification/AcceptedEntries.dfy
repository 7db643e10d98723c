/** Which entries a run accepts: for every batch, interval and operand one entry, whose window holds the
    processing time of the batch. */
module AcceptedEntries {
  import opened Bits
  import opened AggregatorSpec
  import opened AggregatorSafety

  /** Truncating gives the multiple of the duration at or just below the time. */
  lemma {:induction false} TruncateIsFloor(t: nat, d: nat, m: nat)
    requires d > 0
    ensures Truncate(t, d) == m <==> m % d == 0 && m <= t < m + d
    ensures Aligned(t, d) <==> t % d == 0
  {
    var q := t / d;
    assert t == q * d + t % d;
    TruncateIs(q, t % d, d);
    DivMod(q * d, d, q, 0);
    if m % d == 0 && m <= t < m + d {
      var p := m / d;
      assert m == p * d;
      TruncateIs(p, t - m, d);
    }
  }

  /** The entry lies in the window of its interval that holds the time. */
  ghost predicate InWindowOf(e: Entry, now: nat) {
    e.interval > 0 && e.time % e.interval == 0 && e.time <= now < e.time + e.interval
  }

  lemma {:induction false} WrittenExactly(cfg: Config, now: nat, writes: seq<set<nat>>, e: Entry)
    requires |writes| == |cfg| && forall x :: x in cfg ==> x > 0
    ensures e in Written(cfg, now, writes)
            <==> InWindowOf(e, now) && exists j :: 0 <= j < |cfg| && cfg[j] == e.interval && e.operand in writes[j]
  {
    if e.interval > 0 {
      TruncateIsFloor(now, e.interval, e.time);
    }
    hide Truncate;
    if InWindowOf(e, now) && exists j :: 0 <= j < |cfg| && cfg[j] == e.interval && e.operand in writes[j] {
      var j :| 0 <= j < |cfg| && cfg[j] == e.interval && e.operand in writes[j];
      assert e == Entry(cfg[j], Truncate(now, cfg[j]), e.operand);
    }
    if e in Written(cfg, now, writes) {
      var j, o :| 0 <= j < |cfg| && o in writes[j] && e == Entry(cfg[j], Truncate(now, cfg[j]), o);
      assert cfg[j] in cfg;
    }
  }

  /** Step `i` writes the operand for the interval of the entry, at a time in its window. */
  ghost predicate WritesEntry(cfg: Config, states: seq<State>, steps: seq<Step>, i: nat, e: Entry) {
    && i < |steps| && i < |states| && steps[i].Write? && |steps[i].writes| == |cfg|
    && InWindowOf(e, states[i].processingTime)
    && exists j :: 0 <= j < |cfg| && cfg[j] == e.interval && e.operand in steps[i].writes[j]
  }

  lemma AcceptedAfter(cfg: Config, s: State, step: Step)
    requires |cfg| > 0 && Enabled(cfg, s, step)
    ensures step.Write? ==> |step.writes| == |cfg|
    ensures Apply(cfg, s, step).accepted
            == if step.Write? then s.accepted + Written(cfg, s.processingTime, step.writes) else s.accepted
  {
    hide Truncate, HarvestFrom, Written, Window;
  }

  /** In every run the accepted entries are exactly those that some batch wrote. */
  lemma {:induction false} AcceptedExactly(cfg: Config, states: seq<State>, steps: seq<Step>, n: nat, e: Entry)
    requires ValidConfig(cfg) && IsRun(cfg, states, steps) && n < |states|
    ensures e in states[n].accepted <==> exists i: nat :: i < n && WritesEntry(cfg, states, steps, i, e)
  {
    PositiveIntervals(cfg);
    hide ValidConfig, InWindowOf, Written, Apply, Enabled;
    if n > 0 {
      AcceptedExactly(cfg, states, steps, n - 1, e);
      var s, step := states[n - 1], steps[n - 1];
      AcceptedAfter(cfg, s, step);
      if step.Write? {
        WrittenExactly(cfg, s.processingTime, step.writes, e);
      }
      if e in states[n].accepted && e !in states[n - 1].accepted {
        assert WritesEntry(cfg, states, steps, n - 1, e);
      }
    }
  }
}
