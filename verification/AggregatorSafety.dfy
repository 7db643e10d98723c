/** Over every interleaving, each accepted operand is handed to the Processor at most once, and exactly
    once when `Close` has finished; a range delete never removes what its snapshot did not contain. */
module AggregatorSafety {
  import opened Bits
  import opened AggregatorSpec

  // ----- facts about truncated times

  lemma TruncateIs(q: nat, r: nat, d: nat)
    requires r < d
    ensures Truncate(q * d + r, d) == q * d
  {
    DivMod(q * d + r, d, q, r);
  }

  lemma AlignedIs(t: nat, d: nat) returns (q: nat)
    requires d > 0 && Aligned(t, d)
    ensures t == q * d
  {
    q := t / d;
  }

  /** The window that ends after `t` ends at an aligned time. */
  lemma NextAligned(t: nat, d: nat)
    requires d > 0
    ensures Aligned(Truncate(t, d) + d, d)
  {
    hide Truncate;
    var q := t / d;
    assert Truncate(t, d) == q * d by {
      assert t == q * d + t % d;
      TruncateIs(q, t % d, d);
    }
    assert (q + 1) * d + 0 == Truncate(t, d) + d;
    TruncateIs(q + 1, 0, d);
  }

  /** Below a multiple of `d`, a multiple of `d` leaves room for another `d`. */
  lemma WholeSteps(b: nat, c: nat, q: nat, r: nat, d: nat)
    requires b * d == q * (c * d) + r && r < c * d
    ensures r + d <= c * d
  {
    var e := b - q * c;
    assert q * (c * d) == (q * c) * d;
    assert r == e * d;
    if c <= e {
      MulLe(c, e, d);
    } else {
      MulLe(e + 1, c, d);
    }
  }

  /** One lowest interval `d` further, an interval that is a multiple of `d` either ends its window
      exactly there or truncates as before. */
  lemma OneTick(a: nat, d: nat, m: nat)
    requires d > 0 && m > 0 && Aligned(a, d) && Aligned(m, d)
    ensures Aligned(a + d, d)
    ensures Aligned(a + d, m) ==> Truncate(a, m) + m == a + d
    ensures !Aligned(a + d, m) ==> Truncate(a, m) == Truncate(a + d, m)
  {
    var b := AlignedIs(a, d);
    var c := AlignedIs(m, d);
    hide Truncate;
    assert (b + 1) * d + 0 == a + d;
    TruncateIs(b + 1, 0, d);
    var q, r := a / m, a % m;
    assert b * d == q * (c * d) + r;
    WholeSteps(b, c, q, r, d);
    TickWithin(a, d, m, q, r);
  }

  lemma TickWithin(a: nat, d: nat, m: nat, q: nat, r: nat)
    requires d > 0 && a == q * m + r && r + d <= m
    ensures Aligned(a + d, m) ==> Truncate(a, m) + m == a + d
    ensures !Aligned(a + d, m) ==> Truncate(a, m) == Truncate(a + d, m)
  {
    hide Truncate;
    TruncateIs(q, r, m);
    if r + d == m {
      assert a + d == (q + 1) * m + 0;
      TruncateIs(q + 1, 0, m);
    } else {
      TruncateIs(q, r + d, m);
    }
  }

  // ----- the invariant

  function Taken(r: RunState): set<Entry> {
    if r.Ticked? then r.taken else {}
  }

  function Pending(s: State): set<Entry> {
    s.db + s.batch + Taken(s.run)
  }

  /** Entries already handed over whose range delete is still to come. */
  function Overlap(cfg: Config, s: State): set<Entry> {
    if s.run.Handed? && s.run.k < |cfg| then Window(s.run.snap, cfg[s.run.k], s.run.to) else {}
  }

  /** Written at the current processing time of its interval. */
  predicate AtHome(s: State, e: Entry) {
    e.time == Truncate(s.processingTime, e.interval)
  }

  /** Belongs to the window that a harvest up to `to` owns. */
  predicate Due(e: Entry, to: nat) {
    Aligned(to, e.interval) && e.time + e.interval == to
  }

  ghost predicate Unharvested(cfg: Config, k: nat, e: Entry) {
    k <= |cfg| && e.interval in cfg[k..]
  }

  ghost predicate DbPlaced(cfg: Config, s: State) {
    forall e :: e in s.db ==>
      && e.interval in cfg
      && (AtHome(s, e)
          || ((s.run.Ticked? || s.run.Committed?) && Due(e, s.run.to))
          || ((s.run.Harvesting? || s.run.Handed?) && Due(e, s.run.to) && Unharvested(cfg, s.run.k, e)))
  }

  ghost predicate BatchPlaced(cfg: Config, s: State) {
    forall e :: e in s.batch ==> e.interval in cfg && AtHome(s, e)
  }

  ghost predicate TakenPlaced(cfg: Config, s: State) {
    s.run.Ticked? ==> forall e :: e in s.run.taken ==> e.interval in cfg && (AtHome(s, e) || Due(e, s.run.to))
  }

  /** The snapshot shows exactly what the database still holds in the windows not yet deleted. */
  ghost predicate SnapAgrees(cfg: Config, s: State) {
    s.run.Harvesting? || s.run.Handed? ==>
      forall j :: s.run.k <= j < |cfg| && Aligned(s.run.to, cfg[j]) ==>
        Window(s.run.snap, cfg[j], s.run.to) == Window(s.db, cfg[j], s.run.to)
  }

  ghost predicate Clocked(cfg: Config, s: State)
    requires ValidConfig(cfg)
  {
    && Aligned(s.processingTime, cfg[0])
    && (s.run.Waiting? ==> s.run.to == s.processingTime + cfg[0])
    && (s.run.Ticked? || s.run.Committed? || s.run.Harvesting? || s.run.Handed? ==> s.run.to == s.processingTime)
    && (s.run.Harvesting? ==> s.run.k <= |cfg|)
    && (s.run.Handed? ==> s.run.k < |cfg| && Aligned(s.run.to, cfg[s.run.k]))
  }

  ghost predicate Disjoint(s: State) {
    s.db !! s.batch && s.db !! Taken(s.run) && s.batch !! Taken(s.run)
  }

  /** Every accepted operand is either pending or was handed over exactly once. */
  ghost predicate Accounted(cfg: Config, s: State) {
    && Pending(s) <= s.accepted
    && s.handed == multiset((s.accepted - Pending(s)) + Overlap(cfg, s))
  }

  ghost predicate CloseOrder(cfg: Config, s: State) {
    && (!s.lock.Free? ==> s.closed)
    && (s.lock.CloseHarvesting? ==>
          && !Running(s.run) && s.batch == {} && s.dbOpen && s.lock.k <= |cfg|
          && forall e :: e in s.db ==> Unharvested(cfg, s.lock.k, e))
    && (!s.dbOpen ==> s.closed && !Running(s.run) && s.batch == {} && s.db == {} && !s.lock.CloseHarvesting?)
  }

  /** Where the pending entries are and what the components are about to do. */
  ghost predicate Placement(cfg: Config, s: State)
    requires ValidConfig(cfg)
  {
    Clocked(cfg, s) && DbPlaced(cfg, s) && BatchPlaced(cfg, s) && TakenPlaced(cfg, s) && CloseOrder(cfg, s)
  }

  /** What was accepted, what is pending and what was handed over. */
  ghost predicate Books(cfg: Config, s: State) {
    SnapAgrees(cfg, s) && Disjoint(s) && Accounted(cfg, s)
  }

  ghost predicate Inv(cfg: Config, s: State)
    requires ValidConfig(cfg)
  {
    Placement(cfg, s) && Books(cfg, s)
  }

  // ----- helpers

  lemma PositiveIntervals(cfg: Config)
    requires ValidConfig(cfg)
    ensures |cfg| > 0 && cfg[0] > 0
    ensures forall x :: x in cfg ==> x > 0 && Aligned(x, cfg[0])
  {
  }

  lemma UnharvestedNext(cfg: Config, k: nat, e: Entry)
    requires k < |cfg| && Unharvested(cfg, k, e) && e.interval != cfg[k]
    ensures Unharvested(cfg, k + 1, e)
  {
    assert cfg[k..] == [cfg[k]] + cfg[k + 1..];
  }

  lemma WindowOfDue(s: set<Entry>, e: Entry, to: nat)
    requires e in s && Due(e, to) && e.interval > 0
    ensures e in Window(s, e.interval, to)
  {
  }

  lemma SetsToMultiset<T>(a: set<T>, b: set<T>)
    requires a !! b
    ensures multiset(a) + multiset(b) == multiset(a + b)
  {
  }

  // ----- every step keeps the invariant

  /** New operands go to the current processing time of each interval. */
  ghost predicate WriteStep(cfg: Config, s: State, w: set<Entry>, early: set<Entry>, commit: bool, t: State) {
    && early <= w && s.lock.Free? && !s.closed
    && (forall e :: e in w ==> e.interval in cfg && AtHome(s, e) && e !in s.accepted)
    && t == if commit then s.(accepted := s.accepted + w, db := s.db + s.batch + early, batch := w - early)
            else s.(accepted := s.accepted + w, batch := s.batch + w)
  }

  lemma WritePlaces(cfg: Config, s: State, w: set<Entry>, early: set<Entry>, commit: bool, t: State)
    requires ValidConfig(cfg) && Placement(cfg, s) && WriteStep(cfg, s, w, early, commit, t)
    ensures Placement(cfg, t)
  {
    hide Truncate, ValidConfig;
    PositiveIntervals(cfg);
  }

  lemma WriteAgrees(cfg: Config, s: State, w: set<Entry>, early: set<Entry>, commit: bool, t: State)
    requires ValidConfig(cfg) && Placement(cfg, s) && SnapAgrees(cfg, s) && WriteStep(cfg, s, w, early, commit, t)
    ensures SnapAgrees(cfg, t)
  {
    hide Truncate, ValidConfig;
    if s.run.Harvesting? || s.run.Handed? {
      forall j | s.run.k <= j < |cfg| && Aligned(s.run.to, cfg[j])
        ensures Window(s.run.snap, cfg[j], s.run.to) == Window(t.db, cfg[j], s.run.to)
      {
        NewEntriesOutside(cfg, s, t.db, cfg[j]);
      }
    }
  }

  /** The books are in order when the operands not pending are exactly those handed over. */
  lemma BooksOf(cfg: Config, t: State, done: set<Entry>, overlap: set<Entry>)
    requires SnapAgrees(cfg, t) && Disjoint(t) && Pending(t) <= t.accepted
    requires done == t.accepted - Pending(t) && overlap == Overlap(cfg, t) && t.handed == multiset(done + overlap)
    ensures Books(cfg, t)
  {
  }

  lemma WritePending(cfg: Config, s: State, w: set<Entry>, early: set<Entry>, commit: bool, t: State)
    requires Disjoint(s) && Pending(s) <= s.accepted && WriteStep(cfg, s, w, early, commit, t)
    ensures Disjoint(t) && Pending(t) == Pending(s) + w && Overlap(cfg, t) == Overlap(cfg, s)
    ensures w !! s.accepted
  {
    hide Truncate, Window, AtHome;
    StayDisjoint(s.accepted, s.db, s.batch, Taken(s.run), w, early);
  }

  lemma WriteBooks(cfg: Config, s: State, w: set<Entry>, early: set<Entry>, commit: bool, t: State)
    requires ValidConfig(cfg) && Placement(cfg, s) && Books(cfg, s) && WriteStep(cfg, s, w, early, commit, t)
    ensures Books(cfg, t)
  {
    hide ValidConfig, SnapAgrees, Placement, Disjoint, Pending, Overlap, AtHome;
    WriteAgrees(cfg, s, w, early, commit, t);
    WritePending(cfg, s, w, early, commit, t);
    Grow(s.accepted, Pending(s), w);
    BooksOf(cfg, t, s.accepted - Pending(s), Overlap(cfg, s));
  }

  lemma StayDisjoint(accepted: set<Entry>, db: set<Entry>, batch: set<Entry>, taken: set<Entry>, w: set<Entry>, early: set<Entry>)
    requires db + batch + taken <= accepted && w !! accepted && early <= w
    requires db !! batch && db !! taken && batch !! taken
    ensures (db + batch + early) !! (w - early) && (db + batch + early) !! taken && (w - early) !! taken
    ensures db !! (batch + w) && (batch + w) !! taken
  {
  }

  lemma Grow(accepted: set<Entry>, pending: set<Entry>, w: set<Entry>)
    requires pending <= accepted && w !! accepted
    ensures (accepted + w) - (pending + w) == accepted - pending
  {
  }

  lemma Shrink(accepted: set<Entry>, pending: set<Entry>, w: set<Entry>)
    requires w <= pending <= accepted
    ensures accepted - (pending - w) == (accepted - pending) + w
  {
  }

  /** Entries at the current processing time lie outside every window that ends there. */
  lemma NewEntriesOutside(cfg: Config, s: State, db: set<Entry>, ivl: nat)
    requires s.run.Harvesting? || s.run.Handed?
    requires s.run.to == s.processingTime && Aligned(s.run.to, ivl)
    requires s.db <= db && forall e :: e in db && e !in s.db ==> AtHome(s, e)
    ensures Window(db, ivl, s.run.to) == Window(s.db, ivl, s.run.to)
  {
    hide Truncate;
  }

  lemma WrittenIsHome(cfg: Config, s: State, writes: seq<set<nat>>)
    requires ValidConfig(cfg) && |writes| == |cfg|
    requires forall i, e :: 0 <= i < |cfg| && e in s.accepted ==> e.operand !in writes[i]
    ensures forall e :: e in Written(cfg, s.processingTime, writes) ==> e.interval in cfg && AtHome(s, e) && e !in s.accepted
  {
  }

  /** Steps that only move pending entries around, or move none, keep the books. */
  lemma SameBooks(cfg: Config, s: State, t: State)
    requires Books(cfg, s) && t.accepted == s.accepted && t.handed == s.handed
    requires Pending(t) == Pending(s) && !t.run.Handed? && !s.run.Handed?
    requires Disjoint(t) && SnapAgrees(cfg, t)
    ensures Books(cfg, t)
  {
    hide SnapAgrees, Pending;
  }

  lemma TickKeeps(cfg: Config, s: State, t: State)
    requires ValidConfig(cfg) && Inv(cfg, s) && s.lock.Free? && s.run.Waiting?
    requires t == s.(batch := {}, processingTime := s.run.to, run := Ticked(s.run.to, s.batch))
    ensures Inv(cfg, t)
  {
    hide Truncate, ValidConfig, Accounted;
    PositiveIntervals(cfg);
    SameBooks(cfg, s, t);
    hide Books;
    forall e | e in s.db + s.batch
      ensures AtHome(t, e) || Due(e, t.run.to)
    {
      OneTick(s.processingTime, cfg[0], e.interval);
    }
    OneTick(s.processingTime, cfg[0], cfg[0]);
  }

  lemma CommitKeeps(cfg: Config, s: State, t: State)
    requires ValidConfig(cfg) && Inv(cfg, s) && s.run.Ticked?
    requires t == s.(db := s.db + s.run.taken, run := Committed(s.run.to))
    ensures Inv(cfg, t)
  {
    hide Truncate, ValidConfig, Accounted;
    PositiveIntervals(cfg);
    SameBooks(cfg, s, t);
    hide Books;
  }

  lemma AllUnharvested(cfg: Config, entries: set<Entry>)
    requires forall e :: e in entries ==> e.interval in cfg
    ensures forall e :: e in entries ==> Unharvested(cfg, 0, e)
  {
    assert cfg[0..] == cfg;
  }

  lemma SnapshotKeeps(cfg: Config, s: State, t: State)
    requires ValidConfig(cfg) && Inv(cfg, s) && s.run.Committed?
    requires t == s.(run := Harvesting(s.run.to, s.db, 0))
    ensures Inv(cfg, t)
  {
    hide Truncate, ValidConfig, Accounted;
    AllUnharvested(cfg, s.db);
    PositiveIntervals(cfg);
    SameBooks(cfg, s, t);
    hide Books;
  }

  lemma HandKeeps(cfg: Config, s: State, t: State)
    requires ValidConfig(cfg) && Inv(cfg, s) && s.run.Harvesting? && s.run.k < |cfg| && Aligned(s.run.to, cfg[s.run.k])
    requires t == s.(handed := s.handed + multiset(Window(s.run.snap, cfg[s.run.k], s.run.to)),
                     run := Handed(s.run.to, s.run.snap, s.run.k))
    ensures Inv(cfg, t)
  {
    hide Truncate, ValidConfig;
    PositiveIntervals(cfg);
    var w := Window(s.run.snap, cfg[s.run.k], s.run.to);
    assert w == Window(s.db, cfg[s.run.k], s.run.to);
    assert Pending(t) == Pending(s);
    assert Overlap(cfg, t) == w && Overlap(cfg, s) == {};
    SetsToMultiset(s.accepted - Pending(s), w);
    assert (s.accepted - Pending(s)) + {} == s.accepted - Pending(s);
  }

  lemma SkipKeeps(cfg: Config, s: State, t: State)
    requires ValidConfig(cfg) && Inv(cfg, s) && s.run.Harvesting? && s.run.k < |cfg| && !Aligned(s.run.to, cfg[s.run.k])
    requires t == s.(run := Harvesting(s.run.to, s.run.snap, s.run.k + 1))
    ensures Inv(cfg, t)
  {
    hide Truncate, ValidConfig, Accounted;
    PositiveIntervals(cfg);
    SameBooks(cfg, s, t);
    hide Books;
    forall e | e in s.db && Due(e, s.run.to) && Unharvested(cfg, s.run.k, e)
      ensures Unharvested(cfg, s.run.k + 1, e)
    {
      UnharvestedNext(cfg, s.run.k, e);
    }
  }

  /** The range delete removes exactly the entries that the snapshot showed and the Processor got. */
  lemma {:induction false} DeleteRemovesWhatWasHanded(cfg: Config, s: State)
    requires ValidConfig(cfg) && Inv(cfg, s) && s.run.Handed?
    ensures Window(s.db, cfg[s.run.k], s.run.to) == Window(s.run.snap, cfg[s.run.k], s.run.to)
    ensures forall e :: e in Window(s.db, cfg[s.run.k], s.run.to) ==> s.handed[e] == 1
  {
    var w := Window(s.run.snap, cfg[s.run.k], s.run.to);
    assert Overlap(cfg, s) == w;
  }

  lemma DeletePlaces(cfg: Config, s: State, t: State)
    requires ValidConfig(cfg) && Placement(cfg, s) && s.run.Handed?
    requires t == s.(db := s.db - Window(s.db, cfg[s.run.k], s.run.to), run := Harvesting(s.run.to, s.run.snap, s.run.k + 1))
    ensures Placement(cfg, t)
  {
    hide Truncate, ValidConfig;
    PositiveIntervals(cfg);
    var Handed(to, snap, k) := s.run;
    forall e | e in t.db && Due(e, to) && Unharvested(cfg, k, e)
      ensures Unharvested(cfg, k + 1, e)
    {
      if e.interval == cfg[k] {
        WindowOfDue(s.db, e, to);
      } else {
        UnharvestedNext(cfg, k, e);
      }
    }
  }

  lemma DeleteAgrees(cfg: Config, s: State, t: State)
    requires ValidConfig(cfg) && SnapAgrees(cfg, s) && s.run.Handed? && s.run.k < |cfg|
    requires t == s.(db := s.db - Window(s.db, cfg[s.run.k], s.run.to), run := Harvesting(s.run.to, s.run.snap, s.run.k + 1))
    ensures SnapAgrees(cfg, t)
  {
    hide Truncate;
    var Handed(to, snap, k) := s.run;
    forall j | k + 1 <= j < |cfg| && Aligned(to, cfg[j])
      ensures Window(snap, cfg[j], to) == Window(t.db, cfg[j], to)
    {
      assert cfg[k] != cfg[j];
      assert Window(t.db, cfg[j], to) == Window(s.db, cfg[j], to);
    }
  }

  lemma WindowWithin(s: set<Entry>, ivl: nat, end: nat)
    ensures Window(s, ivl, end) <= s
  {
  }

  lemma DeletePending(cfg: Config, s: State, w: set<Entry>, t: State)
    requires Disjoint(s) && w <= s.db && s.run.Handed? && t == s.(db := s.db - w, run := Harvesting(s.run.to, s.run.snap, s.run.k + 1))
    ensures Disjoint(t) && Pending(t) == Pending(s) - w && w <= Pending(s) && Overlap(cfg, t) == {}
  {
  }

  lemma HandedWindow(cfg: Config, s: State)
    requires ValidConfig(cfg) && Inv(cfg, s) && s.run.Handed?
    ensures s.run.k < |cfg| && Overlap(cfg, s) == Window(s.db, cfg[s.run.k], s.run.to)
  {
  }

  lemma DeleteBooks(cfg: Config, s: State, t: State)
    requires ValidConfig(cfg) && Inv(cfg, s) && s.run.Handed?
    requires t == s.(db := s.db - Window(s.db, cfg[s.run.k], s.run.to), run := Harvesting(s.run.to, s.run.snap, s.run.k + 1))
    ensures Books(cfg, t)
  {
    hide ValidConfig, SnapAgrees, Placement, Window, Disjoint, Pending, Overlap;
    HandedWindow(cfg, s);
    DeleteAgrees(cfg, s, t);
    var w := Window(s.db, cfg[s.run.k], s.run.to);
    WindowWithin(s.db, cfg[s.run.k], s.run.to);
    DeletePending(cfg, s, w, t);
    Shrink(s.accepted, Pending(s), w);
    assert ((s.accepted - Pending(s)) + w) + {} == (s.accepted - Pending(s)) + w;
    BooksOf(cfg, t, (s.accepted - Pending(s)) + w, {});
  }

  /** `Run` moves between its select and its idle states. */
  lemma RunMoveKeeps(cfg: Config, s: State, r: RunState)
    requires ValidConfig(cfg) && Inv(cfg, s)
    requires || (s.run.NotStarted? && !s.closed && r == Waiting(s.processingTime + cfg[0]))
             || (s.run.Harvesting? && s.run.k == |cfg| && r == Waiting(s.run.to + cfg[0]))
             || (s.run.Waiting? && r == Stopped)
    ensures Inv(cfg, s.(run := r))
  {
    hide Truncate, ValidConfig, Accounted;
    PositiveIntervals(cfg);
    SameBooks(cfg, s, s.(run := r));
    hide Books;
  }

  /** `Close` takes or gives back the mutex. */
  lemma LockMoveKeeps(cfg: Config, s: State, closed: bool, l: Lock)
    requires ValidConfig(cfg) && Inv(cfg, s)
    requires || (s.lock.Free? && closed && l.CloseWaiting?)
             || (s.lock.CloseWaiting? && closed == s.closed && l.Free?)
    ensures Inv(cfg, s.(closed := closed, lock := l))
  {
    hide Truncate, ValidConfig;
    PositiveIntervals(cfg);
    assert Pending(s.(closed := closed, lock := l)) == Pending(s);
  }

  lemma ProceedKeeps(cfg: Config, s: State, t: State)
    requires ValidConfig(cfg) && Inv(cfg, s) && s.lock.CloseWaiting? && !Running(s.run) && s.dbOpen
    requires t == s.(db := s.db + s.batch, batch := {}, lock := CloseHarvesting(0))
    ensures Inv(cfg, t)
  {
    hide Truncate, ValidConfig, Accounted;
    PositiveIntervals(cfg);
    SameBooks(cfg, s, t);
    hide Books;
    AllUnharvested(cfg, t.db);
  }

  lemma EndKeeps(cfg: Config, s: State, t: State)
    requires ValidConfig(cfg) && Inv(cfg, s) && s.lock == CloseHarvesting(|cfg|)
    requires t == s.(dbOpen := false, lock := Free)
    ensures Inv(cfg, t)
  {
    hide Truncate, ValidConfig, Accounted;
    PositiveIntervals(cfg);
    assert s.db == {};
    SameBooks(cfg, s, t);
    hide Books;
  }

  /** Everything a harvest up to `end` collects from intervals j and up. */
  function DueBy(db: set<Entry>, end: nat, cfg: Config, j: nat): set<Entry>
    requires j <= |cfg|
  {
    set e | e in db && e.interval in cfg[j..] && Aligned(end, e.interval) && end - e.interval <= e.time < end
  }

  /** A whole harvest hands every due entry over once and deletes exactly those. */
  lemma {:induction false} HarvestCollects(cfg: Config, snap: set<Entry>, end: nat, j: nat, db: set<Entry>, handed: multiset<Entry>)
    requires ValidConfig(cfg) && j <= |cfg|
    requires forall i :: j <= i < |cfg| ==> Window(db, cfg[i], end) == Window(snap, cfg[i], end)
    ensures HarvestFrom(cfg, snap, end, j, db, handed) == (db - DueBy(db, end, cfg, j), handed + multiset(DueBy(db, end, cfg, j)))
    decreases |cfg| - j
  {
    hide Truncate;
    if j == |cfg| {
      assert DueBy(db, end, cfg, j) == {};
      assert db - {} == db;
      assert handed + multiset(DueBy(db, end, cfg, j)) == handed;
    } else {
      assert cfg[j..] == [cfg[j]] + cfg[j + 1..];
      if Aligned(end, cfg[j]) {
        HarvestOne(cfg, snap, end, j, db);
        var w := Window(db, cfg[j], end);
        var db' := db - w;
        HarvestCollects(cfg, snap, end, j + 1, db', handed + multiset(Window(snap, cfg[j], end)));
        var rest := DueBy(db', end, cfg, j + 1);
        SetsToMultiset(w, rest);
        assert Window(snap, cfg[j], end) == w;
        assert (handed + multiset(w)) + multiset(rest) == handed + (multiset(w) + multiset(rest));
        assert db' - rest == db - (w + rest);
      } else {
        HarvestCollects(cfg, snap, end, j + 1, db, handed);
        assert DueBy(db, end, cfg, j) == DueBy(db, end, cfg, j + 1);
      }
    }
  }

  lemma HarvestOne(cfg: Config, snap: set<Entry>, end: nat, j: nat, db: set<Entry>)
    requires ValidConfig(cfg) && j < |cfg| && Aligned(end, cfg[j])
    requires forall i :: j <= i < |cfg| ==> Window(db, cfg[i], end) == Window(snap, cfg[i], end)
    ensures var w := Window(db, cfg[j], end);
            var rest := DueBy(db - w, end, cfg, j + 1);
            && w !! rest && DueBy(db, end, cfg, j) == w + rest
            && forall i :: j + 1 <= i < |cfg| ==> Window(db - w, cfg[i], end) == Window(snap, cfg[i], end)
  {
    hide Truncate;
    var w := Window(db, cfg[j], end);
    assert cfg[j..] == [cfg[j]] + cfg[j + 1..];
    forall i | j + 1 <= i < |cfg|
      ensures Window(db - w, cfg[i], end) == Window(snap, cfg[i], end)
    {
      assert cfg[j] != cfg[i];
      assert Window(db - w, cfg[i], end) == Window(db, cfg[i], end);
    }
    assert cfg[j] !in cfg[j + 1..];
  }

  /** The final harvest of interval k: everything due is handed over once and deleted. */
  ghost predicate CloseHarvestStep(cfg: Config, s: State, t: State)
    requires ValidConfig(cfg)
  {
    && s.lock.CloseHarvesting? && s.lock.k < |cfg|
    && var w := DueBy(s.db, Truncate(s.processingTime, cfg[s.lock.k]) + cfg[s.lock.k], cfg, 0);
       t == s.(db := s.db - w, handed := s.handed + multiset(w), lock := CloseHarvesting(s.lock.k + 1))
  }

  lemma CloseHarvestPlaces(cfg: Config, s: State, t: State)
    requires ValidConfig(cfg) && Placement(cfg, s) && CloseHarvestStep(cfg, s, t)
    ensures Placement(cfg, t)
  {
    hide Truncate, ValidConfig;
    PositiveIntervals(cfg);
    var k := s.lock.k;
    var to := Truncate(s.processingTime, cfg[k]) + cfg[k];
    assert cfg[0..] == cfg;
    assert cfg[k] in cfg;
    NextAligned(s.processingTime, cfg[k]);
    forall e | e in t.db
      ensures Unharvested(cfg, k + 1, e)
    {
      if e.interval != cfg[k] {
        UnharvestedNext(cfg, k, e);
      }
    }
  }

  lemma CloseHarvestBooks(cfg: Config, s: State, t: State)
    requires ValidConfig(cfg) && Inv(cfg, s) && CloseHarvestStep(cfg, s, t)
    ensures Books(cfg, t)
  {
    hide Truncate, ValidConfig, DbPlaced, BatchPlaced, TakenPlaced, SnapAgrees;
    var w := DueBy(s.db, Truncate(s.processingTime, cfg[s.lock.k]) + cfg[s.lock.k], cfg, 0);
    assert SnapAgrees(cfg, t) by { IdleAgrees(cfg, t); }
    assert Pending(t) == Pending(s) - w;
    assert t.accepted - Pending(t) == (s.accepted - Pending(s)) + w;
    SetsToMultiset(s.accepted - Pending(s), w);
    assert (s.accepted - Pending(s)) + {} == s.accepted - Pending(s);
    assert ((s.accepted - Pending(s)) + w) + {} == (s.accepted - Pending(s)) + w;
  }

  lemma IdleAgrees(cfg: Config, s: State)
    requires !s.run.Harvesting? && !s.run.Handed?
    ensures SnapAgrees(cfg, s)
  {
  }

  lemma WriteKeeps(cfg: Config, s: State, step: Step)
    requires ValidConfig(cfg) && Inv(cfg, s) && Enabled(cfg, s, step) && step.Write?
    ensures Inv(cfg, Apply(cfg, s, step))
  {
    hide Truncate, Written, Placement, Books;
    var t := Apply(cfg, s, step);
    var w := Written(cfg, s.processingTime, step.writes);
    WrittenIsHome(cfg, s, step.writes);
    WritePlaces(cfg, s, w, step.early, step.commit, t);
    WriteBooks(cfg, s, w, step.early, step.commit, t);
  }

  lemma CloseHarvestKeeps(cfg: Config, s: State, step: Step)
    requires ValidConfig(cfg) && Inv(cfg, s) && Enabled(cfg, s, step) && step.CloseHarvest?
    ensures Inv(cfg, Apply(cfg, s, step))
  {
    hide Truncate, HarvestFrom, Placement, Books, DueBy;
    var t := Apply(cfg, s, step);
    HarvestCollects(cfg, s.db, Truncate(s.processingTime, cfg[s.lock.k]) + cfg[s.lock.k], 0, s.db, s.handed);
    CloseHarvestPlaces(cfg, s, t);
    CloseHarvestBooks(cfg, s, t);
  }

  /** The steps of `Run`. */
  lemma RunStepKeeps(cfg: Config, s: State, step: Step)
    requires ValidConfig(cfg) && Inv(cfg, s) && Enabled(cfg, s, step)
    requires step.Tick? || step.RunCommit? || step.RunSnapshot? || step.RunHand? || step.RunDelete?
    ensures Inv(cfg, Apply(cfg, s, step))
  {
    var t := Apply(cfg, s, step);
    PositiveIntervals(cfg);
    hide Truncate, Window, Placement, Books, ValidConfig;
    match step
    case Tick => TickKeeps(cfg, s, t);
    case RunCommit => CommitKeeps(cfg, s, t);
    case RunSnapshot => SnapshotKeeps(cfg, s, t);
    case RunHand =>
      if Aligned(s.run.to, cfg[s.run.k]) {
        HandKeeps(cfg, s, t);
      } else {
        SkipKeeps(cfg, s, t);
      }
    case RunDelete =>
      DeletePlaces(cfg, s, t);
      DeleteBooks(cfg, s, t);
  }

  /** The steps that only move a component on, and those of `Close` around its harvest. */
  lemma MoveKeeps(cfg: Config, s: State, step: Step)
    requires ValidConfig(cfg) && Inv(cfg, s) && Enabled(cfg, s, step)
    requires step.RunStart? || step.RunLoop? || step.RunStop? || step.CloseBegin? || step.CloseGiveUp? || step.CloseProceed? || step.CloseEnd?
    ensures Inv(cfg, Apply(cfg, s, step))
  {
    PositiveIntervals(cfg);
    hide Apply, Enabled, Inv, ValidConfig;
    match step
    case RunStart => StartKeeps(cfg, s);
    case RunLoop => LoopKeeps(cfg, s);
    case RunStop => StopKeeps(cfg, s);
    case CloseBegin => BeginKeeps(cfg, s);
    case CloseGiveUp => GiveUpKeeps(cfg, s);
    case CloseProceed => CloseProceedKeeps(cfg, s);
    case CloseEnd => CloseEndKeeps(cfg, s);
  }

  lemma StartKeeps(cfg: Config, s: State)
    requires ValidConfig(cfg) && Inv(cfg, s) && Enabled(cfg, s, RunStart)
    ensures Inv(cfg, Apply(cfg, s, RunStart))
  {
    PositiveIntervals(cfg);
    hide Inv, ValidConfig;
    RunMoveKeeps(cfg, s, Waiting(s.processingTime + cfg[0]));
  }

  lemma LoopKeeps(cfg: Config, s: State)
    requires ValidConfig(cfg) && Inv(cfg, s) && Enabled(cfg, s, RunLoop)
    ensures Inv(cfg, Apply(cfg, s, RunLoop))
  {
    PositiveIntervals(cfg);
    hide Inv, ValidConfig;
    RunMoveKeeps(cfg, s, Waiting(s.run.to + cfg[0]));
  }

  lemma StopKeeps(cfg: Config, s: State)
    requires ValidConfig(cfg) && Inv(cfg, s) && Enabled(cfg, s, RunStop)
    ensures Inv(cfg, Apply(cfg, s, RunStop))
  {
    PositiveIntervals(cfg);
    hide Inv, ValidConfig;
    RunMoveKeeps(cfg, s, Stopped);
  }

  lemma BeginKeeps(cfg: Config, s: State)
    requires ValidConfig(cfg) && Inv(cfg, s) && Enabled(cfg, s, CloseBegin)
    ensures Inv(cfg, Apply(cfg, s, CloseBegin))
  {
    PositiveIntervals(cfg);
    hide Inv, ValidConfig;
    LockMoveKeeps(cfg, s, true, CloseWaiting);
  }

  lemma GiveUpKeeps(cfg: Config, s: State)
    requires ValidConfig(cfg) && Inv(cfg, s) && Enabled(cfg, s, CloseGiveUp)
    ensures Inv(cfg, Apply(cfg, s, CloseGiveUp))
  {
    PositiveIntervals(cfg);
    hide Inv, ValidConfig;
    LockMoveKeeps(cfg, s, s.closed, Free);
    assert s.(closed := s.closed, lock := Free) == s.(lock := Free);
  }

  lemma CloseProceedKeeps(cfg: Config, s: State)
    requires ValidConfig(cfg) && Inv(cfg, s) && Enabled(cfg, s, CloseProceed)
    ensures Inv(cfg, Apply(cfg, s, CloseProceed))
  {
    PositiveIntervals(cfg);
    hide Inv, ValidConfig;
    if s.dbOpen {
      ProceedKeeps(cfg, s, Apply(cfg, s, CloseProceed));
    } else {
      LockMoveKeeps(cfg, s, s.closed, Free);
      assert s.(closed := s.closed, lock := Free) == s.(lock := Free);
    }
  }

  lemma CloseEndKeeps(cfg: Config, s: State)
    requires ValidConfig(cfg) && Inv(cfg, s) && Enabled(cfg, s, CloseEnd)
    ensures Inv(cfg, Apply(cfg, s, CloseEnd))
  {
    PositiveIntervals(cfg);
    hide Inv, ValidConfig;
    EndKeeps(cfg, s, Apply(cfg, s, CloseEnd));
  }

  /** Every step of every component keeps the invariant. */
  lemma {:induction false} StepKeeps(cfg: Config, s: State, step: Step)
    requires ValidConfig(cfg) && Inv(cfg, s) && Enabled(cfg, s, step)
    ensures Inv(cfg, Apply(cfg, s, step))
  {
    PositiveIntervals(cfg);
    hide Inv, Apply, ValidConfig, Enabled;
    match step
    case Write(_, _, _) => WriteKeeps(cfg, s, step);
    case CloseHarvest => CloseHarvestKeeps(cfg, s, step);
    case Tick => RunStepKeeps(cfg, s, step);
    case RunCommit => RunStepKeeps(cfg, s, step);
    case RunSnapshot => RunStepKeeps(cfg, s, step);
    case RunHand => RunStepKeeps(cfg, s, step);
    case RunDelete => RunStepKeeps(cfg, s, step);
    case _ => MoveKeeps(cfg, s, step);
  }

  // ----- whole runs

  /** A run: states linked by enabled steps, from an initial state. */
  ghost predicate IsRun(cfg: Config, states: seq<State>, steps: seq<Step>)
    requires |cfg| > 0
  {
    && |states| == |steps| + 1
    && Init(cfg, states[0])
    && forall i :: 0 <= i < |steps| ==> Enabled(cfg, states[i], steps[i]) && states[i + 1] == Apply(cfg, states[i], steps[i])
  }

  lemma {:induction false} RunKeeps(cfg: Config, states: seq<State>, steps: seq<Step>, n: nat)
    requires ValidConfig(cfg) && IsRun(cfg, states, steps) && n < |states|
    ensures Inv(cfg, states[n])
  {
    if n == 0 {
      assert Pending(states[0]) == {};
    } else {
      RunKeeps(cfg, states, steps, n - 1);
      StepKeeps(cfg, states[n - 1], steps[n - 1]);
    }
  }

  /** At most once: in every state of every run, no operand was handed over twice, and only accepted
      operands were handed over. */
  lemma {:induction false} AtMostOnce(cfg: Config, states: seq<State>, steps: seq<Step>, n: nat, e: Entry)
    requires ValidConfig(cfg) && IsRun(cfg, states, steps) && n < |states|
    ensures states[n].handed[e] <= 1
    ensures e in states[n].handed ==> e in states[n].accepted
  {
    RunKeeps(cfg, states, steps, n);
    var s := states[n];
    assert Overlap(cfg, s) <= s.accepted by {
      if s.run.Handed? {
        DeleteRemovesWhatWasHanded(cfg, s);
      }
    }
  }

  /** Exactly once: when `Close` has returned without error, the Processor got every accepted operand
      exactly once and nothing is left behind. */
  lemma {:induction false} ExactlyOnceAfterClose(cfg: Config, states: seq<State>, steps: seq<Step>, n: nat)
    requires ValidConfig(cfg) && IsRun(cfg, states, steps) && n < |states|
    requires !states[n].dbOpen
    ensures states[n].handed == multiset(states[n].accepted)
    ensures Pending(states[n]) == {}
  {
    RunKeeps(cfg, states, steps, n);
    var s := states[n];
    assert Pending(s) == {};
    assert s.accepted - {} + {} == s.accepted;
  }

  /** Each pending entry carries the truncated current processing time of its interval, except the
      entries in the window that a running harvest owns. */
  lemma {:induction false} PendingTimes(cfg: Config, states: seq<State>, steps: seq<Step>, n: nat, e: Entry)
    requires ValidConfig(cfg) && IsRun(cfg, states, steps) && n < |states|
    requires e in Pending(states[n])
    ensures e.interval in cfg && e.interval > 0
    ensures var r := states[n].run;
            || e.time == Truncate(states[n].processingTime, e.interval)
            || (!r.Waiting? && Running(r) && Aligned(r.to, e.interval) && e.time + e.interval == r.to)
  {
    RunKeeps(cfg, states, steps, n);
    PositiveIntervals(cfg);
  }

  ghost predicate AfterEpoch(s: State) {
    EARLIEST <= s.processingTime && (Running(s.run) ==> EARLIEST <= s.run.to)
  }

  lemma StepAfterEpoch(cfg: Config, s: State, step: Step)
    requires |cfg| > 0 && AfterEpoch(s) && Enabled(cfg, s, step)
    ensures AfterEpoch(Apply(cfg, s, step))
  {
    hide Truncate, HarvestFrom, Written, Window;
  }

  /** Processing times only move on, so every window of every harvest begins after the Unix epoch. */
  lemma {:induction false} WindowsAfterEpoch(cfg: Config, states: seq<State>, steps: seq<Step>, n: nat)
    requires |cfg| > 0 && IsRun(cfg, states, steps) && n < |states|
    ensures EARLIEST <= states[n].processingTime
    ensures Running(states[n].run) ==> EARLIEST <= states[n].run.to
  {
    hide Enabled, Apply;
    if n > 0 {
      WindowsAfterEpoch(cfg, states, steps, n - 1);
      StepAfterEpoch(cfg, states[n - 1], steps[n - 1]);
    }
  }

  /** While `Close` runs its final harvest nothing else can move, so treating it as one step is exact. */
  lemma {:induction false} OnlyCloseMoves(cfg: Config, states: seq<State>, steps: seq<Step>, n: nat, step: Step)
    requires ValidConfig(cfg) && IsRun(cfg, states, steps) && n < |states|
    requires states[n].lock.CloseHarvesting? && Enabled(cfg, states[n], step)
    ensures step.CloseHarvest? || step.CloseEnd?
  {
    RunKeeps(cfg, states, steps, n);
  }

  // ----- why the order must be strict

  /** Both of two equal neighbours read the same window of the same snapshot. */
  lemma {:induction false} HarvestRepeats(cfg: Config, snap: set<Entry>, end: nat, j: nat, db: set<Entry>, handed: multiset<Entry>, i: nat, e: Entry)
    requires j <= |cfg| && i + 1 < |cfg| && cfg[i] == cfg[i + 1]
    requires Aligned(end, cfg[i]) && e in Window(snap, cfg[i], end)
    ensures HarvestFrom(cfg, snap, end, j, db, handed).1[e]
         >= handed[e] + (if j <= i then 2 else if j == i + 1 then 1 else 0)
    decreases |cfg| - j
  {
    hide Truncate;
    if j < |cfg| {
      if Aligned(end, cfg[j]) {
        HarvestRepeats(cfg, snap, end, j + 1, db - Window(db, cfg[j], end), handed + multiset(Window(snap, cfg[j], end)), i, e);
      } else {
        HarvestRepeats(cfg, snap, end, j + 1, db, handed, i, e);
      }
    }
  }

  /** A start time whose first harvest ends the current window of interval `c`, soon after the earliest. */
  lemma RepeatTime(d: nat, c: nat) returns (now: nat)
    requires 0 < d <= c && Aligned(c, d)
    ensures EARLIEST <= now <= EARLIEST + 2 * c && Aligned(now, d)
    ensures Truncate(now, d) + d == Truncate(now, c) + c == now + d && Aligned(now + d, c)
  {
    var n := EARLIEST / c + 1;
    DivBounds(EARLIEST, c);
    assert n * c == EARLIEST / c * c + c;
    now := n * c + (c - d);
    hide Truncate;
    TruncateIs(n, c - d, c);
    assert (n + 1) * c == now + d;
    TruncateIs(n + 1, 0, c);
    StepBefore(n + 1, c, d);
  }

  /** One step of `d` before a multiple of a multiple of `d`. */
  lemma StepBefore(n: nat, c: nat, d: nat)
    requires n > 0 && 0 < d <= c && Aligned(c, d)
    ensures n * c >= d && Truncate(n * c - d, d) == n * c - d
  {
    var m := AlignedIs(c, d);
    hide Truncate;
    var k := n * m;
    assert n * c == k * d by { Reassociate(n, m, d); }
    assert m >= 1;
    MulLe(1, m, n);
    MulLe(1, k, d);
    BeforeMultiple(k, d);
  }

  lemma Reassociate(n: nat, m: nat, d: nat)
    ensures n * (m * d) == (n * m) * d
  {
  }

  lemma BeforeMultiple(k: nat, d: nat)
    requires k >= 1 && d > 0
    ensures k * d >= d && Truncate(k * d - d, d) == k * d - d
  {
    hide Truncate;
    assert (k - 1) * d + 0 == k * d - d;
    TruncateIs(k - 1, 0, d);
  }

  /** Every batch has operands for every interval, as each event is written for each of them. */
  ghost predicate WritesEveryInterval(steps: seq<Step>) {
    forall i :: 0 <= i < |steps| && steps[i].Write? ==> forall j :: 0 <= j < |steps[i].writes| ==> steps[i].writes[j] != {}
  }

  /** One batch with one operand for each interval. */
  ghost function OneOperandEach(n: nat): (r: seq<set<nat>>)
    ensures |r| == n && forall j :: 0 <= j < n ==> r[j] == {j}
  {
    seq(n, j => {j})
  }

  lemma FirstWriteEnabled(cfg: Config, s: State)
    requires |cfg| > 0 && s.lock.Free? && !s.closed && s.accepted == {}
    ensures Enabled(cfg, s, Write(OneOperandEach(|cfg|), false, {}))
  {
    var writes := OneOperandEach(|cfg|);
    forall i, j | 0 <= i < j < |cfg|
      ensures writes[i] !! writes[j]
    {
      assert writes[i] == {i} && writes[j] == {j};
    }
  }

  lemma FirstWrite(cfg: Config, now: nat, i: nat)
    requires i < |cfg|
    ensures Entry(cfg[i], Truncate(now, cfg[i]), i) in Written(cfg, now, OneOperandEach(|cfg|))
  {
    assert i in OneOperandEach(|cfg|)[i];
  }

  /** With equal neighbours, one batch followed by `Close` hands an operand over twice. */
  lemma {:induction false} EqualNeighboursRepeat(cfg: Config, i: nat) returns (states: seq<State>, steps: seq<Step>, e: Entry)
    requires AcceptedConfig(cfg) && i + 1 < |cfg| && cfg[i] == cfg[i + 1]
    ensures IsRun(cfg, states, steps) && WritesEveryInterval(steps) && states[|states| - 1].handed[e] >= 2
  {
    var c, d := cfg[i], cfg[0];
    assert d <= c && Aligned(c, d);
    var now := RepeatTime(d, c);
    e := Entry(c, Truncate(now, c), i);
    var s3;
    states, steps, s3 := WriteThenClose(cfg, now);
    FirstWrite(cfg, now, i);
    hide Truncate, HarvestFrom, Written, IsRun, Apply, Enabled;
    HarvestRepeats(cfg, s3.db, now + d, 0, s3.db, s3.handed, i, e);
  }

  /** The run that writes one operand for each interval and closes, up to the first final harvest. */
  lemma WriteThenClose(cfg: Config, now: nat) returns (states: seq<State>, steps: seq<Step>, before: State)
    requires |cfg| > 0 && EARLIEST <= now && Aligned(now, cfg[0])
    ensures IsRun(cfg, states, steps) && WritesEveryInterval(steps)
    ensures before.db == Written(cfg, now, OneOperandEach(|cfg|)) && before.handed == multiset{}
    ensures var to := Truncate(now, cfg[0]) + cfg[0];
            states[|states| - 1].handed == HarvestFrom(cfg, before.db, to, 0, before.db, before.handed).1
  {
    hide HarvestFrom, Written;
    var w := Written(cfg, now, OneOperandEach(|cfg|));
    var s0 := State(now, {}, {}, true, false, NotStarted, Free, {}, multiset{});
    var s1 := s0.(batch := w, accepted := w);
    var s2 := s1.(closed := true, lock := CloseWaiting);
    before := s2.(db := w, batch := {}, lock := CloseHarvesting(0));
    var write := Write(OneOperandEach(|cfg|), false, {});
    FirstWriteEnabled(cfg, s0);
    assert Apply(cfg, s0, write) == s1 by { assert {} + w == w; }
    assert Apply(cfg, s2, CloseProceed) == before by { assert {} + w == w; }
    hide Truncate;
    var s4 := Apply(cfg, before, CloseHarvest);
    states, steps := [s0, s1, s2, before, s4], [write, CloseBegin, CloseProceed, CloseHarvest];
  }

  ghost predicate DeliversAtMostOnce(cfg: Config)
    requires |cfg| > 0
  {
    forall states: seq<State>, steps: seq<Step>, n: nat, e: Entry ::
      IsRun(cfg, states, steps) && n < |states| ==> states[n].handed[e] <= 1
  }

  /** Among the configurations that pass validation, exactly those without equal neighbours deliver
      every operand at most once in every run. */
  lemma {:induction false} AtMostOnceIffStrict(cfg: Config)
    requires AcceptedConfig(cfg)
    ensures DeliversAtMostOnce(cfg) <==> forall i :: 0 <= i < |cfg| - 1 ==> cfg[i] != cfg[i + 1]
  {
    if i :| 0 <= i < |cfg| - 1 && cfg[i] == cfg[i + 1] {
      var states, steps, e := EqualNeighboursRepeat(cfg, i);
      assert states[|states| - 1].handed[e] >= 2;
    } else {
      StrictlyAscending(cfg);
      forall states: seq<State>, steps: seq<Step>, n: nat, e: Entry | IsRun(cfg, states, steps) && n < |states|
        ensures states[n].handed[e] <= 1
      {
        AtMostOnce(cfg, states, steps, n, e);
      }
    }
  }

  lemma StrictlyAscending(cfg: Config)
    requires AcceptedConfig(cfg) && forall i :: 0 <= i < |cfg| - 1 ==> cfg[i] != cfg[i + 1]
    ensures ValidConfig(cfg)
  {
    forall i, j | 0 <= i < j < |cfg|
      ensures cfg[i] < cfg[j]
    {
      assert cfg[i] < cfg[i + 1] <= cfg[j] || i + 1 == j;
    }
  }
}
