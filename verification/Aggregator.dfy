/** The critical sections of the aggregator that run in loops, as methods on its fields. Each is proved
    to take exactly the steps of `AggregatorSpec`, so every result about runs applies to them. */
module Aggregator {
  import opened AggregatorSpec
  import opened AggregatorSafety

  /** The loop of `Close` over the configured intervals, from the interval its lock stands at. */
  ghost function CloseLoop(cfg: Config, s: State): State
    requires |cfg| > 0 && s.lock.CloseHarvesting? && s.lock.k <= |cfg|
    decreases |cfg| - s.lock.k
  {
    if s.lock.k < |cfg| then CloseLoop(cfg, Apply(cfg, s, CloseHarvest)) else Apply(cfg, s, CloseEnd)
  }

  /** From any state of a run, the final loop of `Close` delivers all that is left, each operand once. */
  lemma {:induction false} CloseLoopDelivers(cfg: Config, s: State)
    requires ValidConfig(cfg) && Inv(cfg, s) && s.lock.CloseHarvesting? && s.lock.k <= |cfg|
    ensures var t := CloseLoop(cfg, s);
            Inv(cfg, t) && !t.dbOpen && t.db == {} && t.accepted == s.accepted && t.handed == multiset(s.accepted)
    decreases |cfg| - s.lock.k
  {
    PositiveIntervals(cfg);
    hide Inv, Apply, Enabled, ValidConfig;
    if s.lock.k < |cfg| {
      HarvestMoves(cfg, s);
      StepKeeps(cfg, s, CloseHarvest);
      CloseLoopDelivers(cfg, Apply(cfg, s, CloseHarvest));
    } else {
      EndMoves(cfg, s);
      StepKeeps(cfg, s, CloseEnd);
      ClosedDelivered(cfg, Apply(cfg, s, CloseEnd));
    }
  }

  lemma HarvestMoves(cfg: Config, s: State)
    requires |cfg| > 0 && s.lock.CloseHarvesting? && s.lock.k < |cfg|
    ensures Enabled(cfg, s, CloseHarvest)
    ensures var t := Apply(cfg, s, CloseHarvest); t.lock == CloseHarvesting(s.lock.k + 1) && t.accepted == s.accepted
  {
    hide Truncate, HarvestFrom;
  }

  lemma EndMoves(cfg: Config, s: State)
    requires |cfg| > 0 && s.lock.CloseHarvesting? && s.lock.k == |cfg|
    ensures Enabled(cfg, s, CloseEnd)
    ensures var t := Apply(cfg, s, CloseEnd); !t.dbOpen && t.accepted == s.accepted
  {
  }

  lemma ClosedDelivered(cfg: Config, t: State)
    requires ValidConfig(cfg) && Inv(cfg, t) && !t.dbOpen
    ensures t.db == {} && t.handed == multiset(t.accepted)
  {
    hide Truncate;
    assert Pending(t) == {} && (t.accepted - {}) + {} == t.accepted;
  }

  ghost function SetOf(s: seq<nat>): set<nat> {
    set o | o in s
  }

  ghost function SetsOf(s: seq<seq<nat>>): (r: seq<set<nat>>)
    ensures |r| == |s| && forall i :: 0 <= i < |s| ==> r[i] == SetOf(s[i])
  {
    seq(|s|, i requires 0 <= i < |s| => SetOf(s[i]))
  }

  /** The entries of the first `i` intervals and of the first `j` operands of the next one. */
  ghost function WrittenSoFar(cfg: Config, now: nat, writes: seq<seq<nat>>, i: nat, j: nat): set<Entry>
    requires |writes| == |cfg| && i <= |cfg| && (i < |cfg| ==> j <= |writes[i]|)
  {
    (set h, o | 0 <= h < i && o in writes[h] :: Entry(cfg[h], Truncate(now, cfg[h]), o))
    + (set k | i < |cfg| && 0 <= k < j :: Entry(cfg[i], Truncate(now, cfg[i]), writes[i][k]))
  }

  /** The batch either holds everything written so far, or was committed after `early`. */
  ghost predicate Buffered(s: State, t: State, w: set<Entry>, commit: bool, early: set<Entry>) {
    && early <= w
    && t == if commit then s.(db := s.db + s.batch + early, batch := w - early, accepted := s.accepted + w)
            else s.(batch := s.batch + w, accepted := s.accepted + w)
  }

  class Aggregator {
    const intervals: Config
    var processingTime: nat
    var batch: set<Entry>
    var db: set<Entry>
    var dbOpen: bool
    var closed: bool
    var run: RunState
    ghost var lock: Lock
    ghost var accepted: set<Entry>
    ghost var handed: multiset<Entry>

    ghost function Now(): State
      reads this
    {
      State(processingTime, batch, db, dbOpen, closed, run, lock, accepted, handed)
    }

    /** `New`, at the time `now`. */
    constructor (intervals: Config, now: nat)
      requires AcceptedConfig(intervals) && EARLIEST + 18 * HOUR <= now
      ensures this.intervals == intervals && Init(intervals, Now())
    {
      this.intervals := intervals;
      processingTime := Truncate(now, intervals[0]);
      batch, db, dbOpen, closed := {}, {}, true, false;
      run, lock, accepted, handed := NotStarted, Free, {}, multiset{};
      new;
      TruncateAligned(now, intervals[0]);
    }

    /** `aggregate`: one operand joins the batch, which is committed when it has grown too large. */
    method Aggregate(e: Entry, ghost s: State, ghost w: set<Entry>, ghost commit: bool, ghost early: set<Entry>)
      returns (ghost commit': bool, ghost early': set<Entry>)
      requires Buffered(s, Now(), w, commit, early) && e !in w
      modifies this
      ensures Buffered(s, Now(), w + {e}, commit', early')
    {
      batch := batch + {e};
      accepted := accepted + {e};
      commit', early' := commit, early;
      if * {
        db := db + batch;
        batch := {};
        commit', early' := true, w + {e};
      }
    }

    /** The operands of one interval. */
    method AggregateInterval(writes: seq<seq<nat>>, i: nat, ghost s: State, ghost commit: bool, ghost early: set<Entry>)
      returns (ghost commit': bool, ghost early': set<Entry>)
      requires |writes| == |intervals| && i < |intervals|
      requires forall g, h :: 0 <= g < h < |writes| ==> SetOf(writes[g]) !! SetOf(writes[h])
      requires forall k, l :: 0 <= k < l < |writes[i]| ==> writes[i][k] != writes[i][l]
      requires Buffered(s, Now(), WrittenSoFar(intervals, s.processingTime, writes, i, 0), commit, early)
      modifies this
      ensures Buffered(s, Now(), WrittenSoFar(intervals, s.processingTime, writes, i + 1, 0), commit', early')
    {
      hide Truncate, WrittenSoFar;
      var time := Truncate(processingTime, intervals[i]);
      commit', early' := commit, early;
      var j := 0;
      while j < |writes[i]|
        invariant 0 <= j <= |writes[i]|
        invariant Buffered(s, Now(), WrittenSoFar(intervals, s.processingTime, writes, i, j), commit', early')
      {
        var e := Entry(intervals[i], time, writes[i][j]);
        ghost var w := WrittenSoFar(intervals, s.processingTime, writes, i, j);
        NotYetWritten(intervals, s.processingTime, writes, i, j);
        commit', early' := Aggregate(e, s, w, commit', early');
        OneMoreWritten(intervals, s.processingTime, writes, i, j);
        j := j + 1;
      }
      NextInterval(intervals, s.processingTime, writes, i);
    }

    /** `AggregateBatch`: for every interval, every operand of the batch is written under the truncated
        processing time. A closed aggregator refuses the batch and stays as it is. */
    method AggregateBatch(writes: seq<seq<nat>>) returns (ok: bool, ghost step: Step)
      requires |intervals| > 0 && |writes| == |intervals| && lock.Free?
      requires forall i, e :: 0 <= i < |writes| && e in accepted ==> e.operand !in writes[i]
      requires forall i, j :: 0 <= i < j < |writes| ==> SetOf(writes[i]) !! SetOf(writes[j])
      requires forall i, k, l :: 0 <= i < |writes| && 0 <= k < l < |writes[i]| ==> writes[i][k] != writes[i][l]
      modifies this
      ensures ok <==> !old(closed)
      ensures !ok ==> Now() == old(Now())
      ensures ok ==> step.Write? && step.writes == SetsOf(writes) && Enabled(intervals, old(Now()), step)
      ensures ok ==> Now() == Apply(intervals, old(Now()), step)
    {
      hide Truncate, WrittenSoFar, Written;
      ghost var s, commit, early := Now(), false, {};
      step := Tick;
      if closed {
        return false, step;
      }
      NothingWritten(intervals, s.processingTime, writes);
      var i := 0;
      while i < |intervals|
        invariant 0 <= i <= |intervals|
        invariant Buffered(s, Now(), WrittenSoFar(intervals, s.processingTime, writes, i, 0), commit, early)
      {
        commit, early := AggregateInterval(writes, i, s, commit, early);
        i := i + 1;
      }
      AllWritten(intervals, s.processingTime, writes);
      ok, step := true, Write(SetsOf(writes), commit, early);
    }

    /** The loop over the iterator: the Processor gets every entry of the window. */
    method HandWindow(snap: set<Entry>, ivl: nat, end: nat)
      modifies this`handed
      ensures handed == old(handed) + multiset(Window(snap, ivl, end))
    {
      var todo := Window(snap, ivl, end);
      while todo != {}
        invariant todo <= Window(snap, ivl, end)
        invariant handed == old(handed) + multiset(Window(snap, ivl, end) - todo)
      {
        var e :| e in todo;
        ghost var seen := Window(snap, ivl, end) - todo;
        assert Window(snap, ivl, end) - (todo - {e}) == seen + {e};
        SetsToMultiset(seen, {e});
        handed := handed + multiset{e};
        todo := todo - {e};
      }
      assert Window(snap, ivl, end) - {} == Window(snap, ivl, end);
    }

    /** `harvestForInterval` under the lock of `Close`: hand the window over, then delete the range. */
    method HarvestForInterval(snap: set<Entry>, ivl: nat, end: nat)
      modifies this`db, this`handed
      ensures handed == old(handed) + multiset(Window(snap, ivl, end))
      ensures db == old(db) - Window(old(db), ivl, end)
    {
      HandWindow(snap, ivl, end);
      db := db - Window(db, ivl, end);
    }

    // ----- the goroutine of `Run`, between whose steps writers and `Close` may act

    /** The locked section after a tick: take the batch and advance the processing time. */
    method RunTick()
      requires |intervals| > 0 && lock.Free? && run.Waiting?
      modifies this
      ensures Now() == Apply(intervals, old(Now()), Tick)
    {
      var to, taken := run.to, batch;
      batch := {};
      processingTime := to;
      run := Ticked(to, taken);
    }

    /** Outside the lock: commit the batch that was taken. */
    method RunCommit()
      requires |intervals| > 0 && run.Ticked?
      modifies this
      ensures Now() == Apply(intervals, old(Now()), Step.RunCommit)
    {
      db := db + run.taken;
      run := Committed(run.to);
    }

    method RunSnapshot()
      requires |intervals| > 0 && run.Committed?
      modifies this
      ensures Now() == Apply(intervals, old(Now()), Step.RunSnapshot)
    {
      run := Harvesting(run.to, db, 0);
    }

    /** One interval of the snapshot: hand its window over if it ends now, entry by entry. */
    method RunHand()
      requires |intervals| > 0 && run.Harvesting? && run.k < |intervals|
      modifies this
      ensures Now() == Apply(intervals, old(Now()), Step.RunHand)
    {
      var to, snap, k := run.to, run.snap, run.k;
      if !Aligned(to, intervals[k]) {
        run := Harvesting(to, snap, k + 1);
        return;
      }
      HandWindow(snap, intervals[k], to);
      run := Handed(to, snap, k);
    }

    /** The DeleteRange that follows, on the database as it is by then. */
    method RunDelete()
      requires |intervals| > 0 && run.Handed? && run.k < |intervals|
      modifies this
      ensures Now() == Apply(intervals, old(Now()), Step.RunDelete)
    {
      db := db - Window(db, intervals[run.k], run.to);
      run := Harvesting(run.to, run.snap, run.k + 1);
    }

    /** `harvest`: one snapshot, then every interval whose window ends at `end`. */
    method Harvest(end: nat)
      modifies this`db, this`handed
      ensures HarvestFrom(intervals, old(db), end, 0, old(db), old(handed)) == (db, handed)
    {
      var snap := db;
      var j := 0;
      while j < |intervals|
        invariant 0 <= j <= |intervals|
        invariant HarvestFrom(intervals, snap, end, j, db, handed) == HarvestFrom(intervals, snap, end, 0, old(db), old(handed))
      {
        if Aligned(end, intervals[j]) {
          HarvestForInterval(snap, intervals[j], end);
        }
        j := j + 1;
      }
    }

    /** One turn of the loop in `Close`. */
    method HarvestCurrent(k: nat)
      requires lock == CloseHarvesting(k) && k < |intervals|
      modifies this
      ensures Now() == Apply(intervals, old(Now()), CloseHarvest)
    {
      hide Truncate, HarvestFrom;
      Harvest(Truncate(processingTime, intervals[k]) + intervals[k]);
      lock := CloseHarvesting(k + 1);
    }

    /** The loop of `Close` and the closing of the database. */
    method CloseIntervals()
      requires |intervals| > 0 && lock == CloseHarvesting(0)
      modifies this
      ensures Now() == CloseLoop(intervals, old(Now()))
    {
      ghost var s := Now();
      var k := 0;
      while k < |intervals|
        invariant 0 <= k <= |intervals| && lock == CloseHarvesting(k)
        invariant CloseLoop(intervals, Now()) == CloseLoop(intervals, s)
      {
        hide Truncate, HarvestFrom;
        HarvestCurrent(k);
        k := k + 1;
      }
      dbOpen := false;
      lock := Free;
    }

    /** The end of `Close`, once `Run` has stopped: commit the batch, harvest each interval's current
        window, close the database. */
    method FinishClose()
      requires |intervals| > 0 && lock.CloseWaiting? && !Running(run) && dbOpen
      modifies this
      ensures Now() == CloseLoop(intervals, Apply(intervals, old(Now()), CloseProceed))
      ensures old(ValidConfig(intervals) && Inv(intervals, Now())) ==>
                !dbOpen && db == {} && accepted == old(accepted) && handed == multiset(accepted)
    {
      FinishDelivers(intervals, Now());
      hide Inv, ValidConfig, CloseLoop;
      db := db + batch;
      batch := {};
      lock := CloseHarvesting(0);
      CloseIntervals();
    }
  }

  lemma FinishDelivers(cfg: Config, s: State)
    requires |cfg| > 0 && s.lock.CloseWaiting? && !Running(s.run) && s.dbOpen
    ensures ValidConfig(cfg) && Inv(cfg, s) ==>
              var t := CloseLoop(cfg, Apply(cfg, s, CloseProceed));
              !t.dbOpen && t.db == {} && t.accepted == s.accepted && t.handed == multiset(s.accepted)
  {
    hide Inv, CloseLoop;
    if ValidConfig(cfg) && Inv(cfg, s) {
      StepKeeps(cfg, s, CloseProceed);
      CloseLoopDelivers(cfg, Apply(cfg, s, CloseProceed));
    }
  }

  lemma NothingWritten(cfg: Config, now: nat, writes: seq<seq<nat>>)
    requires |writes| == |cfg|
    ensures WrittenSoFar(cfg, now, writes, 0, 0) == {}
  {
  }

  lemma TruncateAligned(t: nat, d: nat)
    ensures Aligned(Truncate(t, d), d)
  {
    if d > 0 {
      var q := t / d;
      assert t == q * d + t % d;
      TruncateIs(q, t % d, d);
      assert q * d + 0 == Truncate(t, d);
      TruncateIs(q, 0, d);
    }
  }

  lemma NotYetWritten(cfg: Config, now: nat, writes: seq<seq<nat>>, i: nat, j: nat)
    requires |writes| == |cfg| && i < |cfg| && j < |writes[i]|
    requires forall g, h :: 0 <= g < h < |writes| ==> SetOf(writes[g]) !! SetOf(writes[h])
    requires forall k, l :: 0 <= k < l < |writes[i]| ==> writes[i][k] != writes[i][l]
    ensures Entry(cfg[i], Truncate(now, cfg[i]), writes[i][j]) !in WrittenSoFar(cfg, now, writes, i, j)
  {
    hide Truncate;
    var o := writes[i][j];
    forall h | 0 <= h < i
      ensures o !in writes[h]
    {
      assert o in SetOf(writes[i]);
      assert SetOf(writes[h]) !! SetOf(writes[i]);
    }
  }

  lemma OneMoreWritten(cfg: Config, now: nat, writes: seq<seq<nat>>, i: nat, j: nat)
    requires |writes| == |cfg| && i < |cfg| && j < |writes[i]|
    ensures WrittenSoFar(cfg, now, writes, i, j + 1)
         == WrittenSoFar(cfg, now, writes, i, j) + {Entry(cfg[i], Truncate(now, cfg[i]), writes[i][j])}
  {
    hide Truncate;
  }

  lemma NextInterval(cfg: Config, now: nat, writes: seq<seq<nat>>, i: nat)
    requires |writes| == |cfg| && i < |cfg|
    ensures WrittenSoFar(cfg, now, writes, i, |writes[i]|) == WrittenSoFar(cfg, now, writes, i + 1, 0)
  {
    hide Truncate;
    var a, b := WrittenSoFar(cfg, now, writes, i, |writes[i]|), WrittenSoFar(cfg, now, writes, i + 1, 0);
    forall e | e in b
      ensures e in a
    {
      var h, o :| 0 <= h < i + 1 && o in writes[h] && e == Entry(cfg[h], Truncate(now, cfg[h]), o);
      if h == i {
        var k :| 0 <= k < |writes[i]| && writes[i][k] == o;
      }
    }
  }

  lemma AllWritten(cfg: Config, now: nat, writes: seq<seq<nat>>)
    requires |writes| == |cfg|
    ensures WrittenSoFar(cfg, now, writes, |cfg|, 0) == Written(cfg, now, SetsOf(writes))
  {
    hide Truncate;
    var a, b := WrittenSoFar(cfg, now, writes, |cfg|, 0), Written(cfg, now, SetsOf(writes));
    forall e | e in a
      ensures e in b
    {
      var h, o :| 0 <= h < |cfg| && o in writes[h] && e == Entry(cfg[h], Truncate(now, cfg[h]), o);
      assert o in SetsOf(writes)[h];
    }
    forall e | e in b
      ensures e in a
    {
      var h, o :| 0 <= h < |cfg| && o in SetsOf(writes)[h] && e == Entry(cfg[h], Truncate(now, cfg[h]), o);
      assert o in writes[h];
    }
  }
}
