/** The aggregator as interleaved steps: writers, the harvester of `Run` that works outside the lock,
    and `Close`. Times are nanoseconds since Go's zero time, to which `Truncate` refers. */
module AggregatorSpec {

  const SECOND := 1_000_000_000
  const HOUR := 3600 * SECOND

  /** The configured aggregation intervals, in nanoseconds. */
  type Config = seq<nat>

  /** What `validateCfg` accepts: ascending intervals from one second to 18 hours, all of them
      multiples of the lowest. Equal neighbours pass. */
  ghost predicate AcceptedConfig(cfg: Config) {
    && |cfg| > 0 && SECOND <= cfg[0] && cfg[|cfg| - 1] <= 18 * HOUR
    && (forall i, j :: 0 <= i < j < |cfg| ==> cfg[i] <= cfg[j])
    && (forall i :: 0 <= i < |cfg| ==> Aligned(cfg[i], cfg[0]))
  }

  /** What delivering once needs: distinct multiples of the first, in any order. */
  ghost predicate ValidConfig(cfg: Config) {
    && |cfg| > 0
    && (forall i :: 0 <= i < |cfg| ==> SECOND <= cfg[i] <= 18 * HOUR && Aligned(cfg[i], cfg[0]))
    && (forall i, j :: 0 <= i < j < |cfg| ==> cfg[i] != cfg[j])
  }

  /** From Go's zero time to the Unix epoch. */
  const UNIX_EPOCH := 62135596800 * SECOND

  /** Aggregators start at least one longest interval after the epoch, so that no window begins before it. */
  const EARLIEST := UNIX_EPOCH + 18 * HOUR

  /** `Time.Truncate`, which leaves a time unchanged when the duration is not positive. */
  function Truncate(t: nat, d: nat): nat {
    if d == 0 then t else t - t % d
  }

  predicate Aligned(t: nat, d: nat) {
    Truncate(t, d) == t
  }

  /** One merge operand stored in the database under the key of its interval and processing time. */
  datatype Entry = Entry(interval: nat, time: nat, operand: nat)

  /** Where the goroutine of `Run` is. */
  datatype RunState =
    | NotStarted
    | Waiting(to: nat)                                  // in the select, next tick at `to`
    | Ticked(to: nat, taken: set<Entry>)                // left the lock with the batch it took
    | Committed(to: nat)                                // batch committed, no snapshot yet
    | Harvesting(to: nat, snap: set<Entry>, k: nat)     // about to harvest interval k of the snapshot
    | Handed(to: nat, snap: set<Entry>, k: nat)         // interval k processed, DeleteRange to come
    | Stopped

  /** Who holds the mutex between steps; all other critical sections are single steps. */
  datatype Lock = Free | CloseWaiting | CloseHarvesting(k: nat)

  datatype State = State(processingTime: nat,
                         batch: set<Entry>,
                         db: set<Entry>,
                         dbOpen: bool,
                         closed: bool,
                         run: RunState,
                         lock: Lock,
                         accepted: set<Entry>,        // every operand ever accepted
                         handed: multiset<Entry>)     // every operand handed to the Processor, with repetitions

  predicate Running(r: RunState) {
    !r.NotStarted? && !r.Stopped?
  }

  ghost predicate Init(cfg: Config, s: State)
    requires |cfg| > 0
  {
    && Aligned(s.processingTime, cfg[0]) && EARLIEST <= s.processingTime
    && s == State(s.processingTime, {}, {}, true, false, NotStarted, Free, {}, multiset{})
  }

  /** The entries whose encoded keys lie in [encode(ivl, end - ivl), encode(ivl, end)). */
  function Window(entries: set<Entry>, ivl: nat, end: nat): set<Entry> {
    set e | e in entries && e.interval == ivl && end - ivl <= e.time < end
  }

  /** `AggregateBatch`: the operands of the batch, per configured interval. */
  function Written(cfg: Config, now: nat, writes: seq<set<nat>>): set<Entry>
    requires |writes| == |cfg|
  {
    set i, o | 0 <= i < |cfg| && o in writes[i] :: Entry(cfg[i], Truncate(now, cfg[i]), o)
  }

  /** `harvest(end)` over one snapshot, intervals j and up: hand the window over, then delete it. */
  function HarvestFrom(cfg: Config, snap: set<Entry>, end: nat, j: nat, db: set<Entry>, handed: multiset<Entry>): (set<Entry>, multiset<Entry>)
    requires j <= |cfg|
    decreases |cfg| - j
  {
    if j == |cfg| then (db, handed)
    else if Aligned(end, cfg[j]) then
      HarvestFrom(cfg, snap, end, j + 1, db - Window(db, cfg[j], end), handed + multiset(Window(snap, cfg[j], end)))
    else
      HarvestFrom(cfg, snap, end, j + 1, db, handed)
  }

  datatype Step =
    | Write(writes: seq<set<nat>>, commit: bool, early: set<Entry>)
    | RunStart
    | Tick
    | RunCommit
    | RunSnapshot
    | RunHand
    | RunDelete
    | RunLoop
    | RunStop
    | CloseBegin
    | CloseGiveUp
    | CloseProceed
    | CloseHarvest
    | CloseEnd

  ghost predicate Enabled(cfg: Config, s: State, step: Step)
    requires |cfg| > 0
  {
    match step
    case Write(writes, commit, early) =>
      && s.lock.Free? && !s.closed
      && |writes| == |cfg|
      && (forall i, e :: 0 <= i < |cfg| && e in s.accepted ==> e.operand !in writes[i])
      && (forall i, j :: 0 <= i < j < |cfg| ==> writes[i] !! writes[j])
      && early <= Written(cfg, s.processingTime, writes)
    case RunStart => s.lock.Free? && !s.closed && s.run.NotStarted?
    case Tick => s.lock.Free? && s.run.Waiting?
    case RunCommit => s.run.Ticked?
    case RunSnapshot => s.run.Committed?
    case RunHand => s.run.Harvesting? && s.run.k < |cfg|
    case RunDelete => s.run.Handed? && s.run.k < |cfg|
    case RunLoop => s.run.Harvesting? && s.run.k == |cfg|
    case RunStop => s.run.Waiting?
    case CloseBegin => s.lock.Free?
    case CloseGiveUp => s.lock.CloseWaiting? && Running(s.run)
    case CloseProceed => s.lock.CloseWaiting? && !Running(s.run)
    case CloseHarvest => s.lock.CloseHarvesting? && s.lock.k < |cfg|
    case CloseEnd => s.lock.CloseHarvesting? && s.lock.k == |cfg|
  }

  function Apply(cfg: Config, s: State, step: Step): State
    requires |cfg| > 0 && Enabled(cfg, s, step)
  {
    match step
    case Write(writes, commit, early) =>
      var new_ := Written(cfg, s.processingTime, writes);
      var t := s.(accepted := s.accepted + new_);
      if commit then t.(db := s.db + s.batch + early, batch := new_ - early)
      else t.(batch := s.batch + new_)
    case RunStart => s.(run := Waiting(s.processingTime + cfg[0]))
    case Tick => s.(batch := {}, processingTime := s.run.to, run := Ticked(s.run.to, s.batch))
    case RunCommit => s.(db := s.db + s.run.taken, run := Committed(s.run.to))
    case RunSnapshot => s.(run := Harvesting(s.run.to, s.db, 0))
    case RunHand =>
      var Harvesting(to, snap, k) := s.run;
      if Aligned(to, cfg[k]) then
        s.(handed := s.handed + multiset(Window(snap, cfg[k], to)), run := Handed(to, snap, k))
      else
        s.(run := Harvesting(to, snap, k + 1))
    case RunDelete =>
      var Handed(to, snap, k) := s.run;
      s.(db := s.db - Window(s.db, cfg[k], to), run := Harvesting(to, snap, k + 1))
    case RunLoop => s.(run := Waiting(s.run.to + cfg[0]))
    case RunStop => s.(run := Stopped)
    case CloseBegin => s.(closed := true, lock := CloseWaiting)
    case CloseGiveUp => s.(lock := Free)
    case CloseProceed =>
      if s.dbOpen then s.(db := s.db + s.batch, batch := {}, lock := CloseHarvesting(0)) else s.(lock := Free)
    case CloseHarvest =>
      var ivl := cfg[s.lock.k];
      var to := Truncate(s.processingTime, ivl) + ivl;
      var (db', handed') := HarvestFrom(cfg, s.db, to, 0, s.db, s.handed);
      s.(db := db', handed := handed', lock := CloseHarvesting(s.lock.k + 1))
    case CloseEnd => s.(dbOpen := false, lock := Free)
  }
}
