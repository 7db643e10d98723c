/** The windows of the harvest protocol, which are in nanoseconds, and the key ranges in whole seconds that
    a harvest reads and deletes. */
module KeyWindows {
  import opened Bits
  import opened Varint
  import opened ByteOrder
  import opened KeyCodec
  import opened AggregatorSpec
  import opened AggregatorSafety

  // ----- keys in nanoseconds

  /** `CombinedMetricsKey`: a duration in nanoseconds and a time since the Unix epoch in nanoseconds. */
  datatype NanoKey = NanoKey(interval: nat, time: int, id: seq<byte>, partition: nat)

  /** `Interval.Seconds()` and `ProcessingTime.Unix()`: whole seconds, rounded down. */
  function ToSeconds(k: NanoKey): Key {
    Key(k.interval / SECOND, k.time / SECOND, k.id, k.partition)
  }

  function FromSeconds(k: Key): NanoKey {
    NanoKey(k.interval * SECOND, k.time * SECOND, k.id, k.partition)
  }

  /** A key is read back from its encoding exactly when its interval and time are whole seconds. */
  lemma {:induction false} NanoRoundTripIff(k: NanoKey)
    requires ValidKey(ToSeconds(k))
    ensures var s := Encode(ToSeconds(k));
            var read := Key(FromBigEndian(s[0..2]), ToInt64(FromBigEndian(s[2..10])), s[10..26], FromBigEndian(s[26..28]));
            FromSeconds(read) == k <==> k.interval % SECOND == 0 && k.time % SECOND == 0
  {
    hide Encode, FromBigEndian, ToInt64;
    Reads(ToSeconds(k));
  }

  // ----- rounding down keeps the order of multiples

  /** Different multiples of at least one second differ in whole seconds, in the same order. */
  lemma SecondsStrict(a: nat, b: nat, d: nat)
    requires SECOND <= d && Aligned(a, d) && Aligned(b, d)
    ensures a < b <==> a / SECOND < b / SECOND
    ensures a == b <==> a / SECOND == b / SECOND
  {
    if a < b {
      StepApart(a, b, d);
    } else if b < a {
      StepApart(b, a, d);
    }
  }

  lemma StepApart(a: nat, b: nat, d: nat)
    requires 0 < d && Aligned(a, d) && Aligned(b, d) && a < b
    ensures a + d <= b
  {
    var x := AlignedIs(a, d);
    var y := AlignedIs(b, d);
    hide Aligned;
    if y <= x {
      MulLe(y, x, d);
    } else {
      MulLe(x + 1, y, d);
      assert (x + 1) * d == x * d + d;
    }
  }

  lemma EpochSeconds(t: nat)
    requires UNIX_EPOCH <= t
    ensures (t - UNIX_EPOCH) / SECOND == t / SECOND - UNIX_EPOCH / SECOND
  {
    var e := 62135596800;
    assert UNIX_EPOCH == e * SECOND;
    DivBounds(t, SECOND);
    DivUnique(t - UNIX_EPOCH, SECOND, t / SECOND - e);
  }

  // ----- windows

  /** The key under which an entry is stored. */
  function KeyOf(e: Entry, id: seq<byte>, partition: nat): Key {
    Key(e.interval / SECOND, (e.time - UNIX_EPOCH) / SECOND, id, partition)
  }

  function BoundAt(ivl: nat, t: int): Key {
    Bound(ivl / SECOND, (t - UNIX_EPOCH) / SECOND)
  }

  ghost predicate Encodable(t: int) {
    UNIX_EPOCH <= t && Int64(t / SECOND)
  }

  /** For multiples `d` of at least a second, the abstract window of an interval is exactly the key range that
      the harvest encodes, whatever IDs and partitions the entries are stored under. */
  lemma {:induction false} WindowIsKeyRange(d: nat, entries: set<Entry>, e: Entry, id: seq<byte>, partition: nat, ivl: nat, end: nat)
    requires e in entries && |id| == ID_SIZE && partition < 0x1_0000
    requires SECOND <= d && 0 < e.interval <= 18 * HOUR && 0 < ivl <= 18 * HOUR && Aligned(e.interval, d) && Aligned(ivl, d)
    requires Aligned(e.time, e.interval) && Aligned(end, ivl) && ivl <= end
    requires Encodable(e.time) && Encodable(end - ivl) && Encodable(end)
    ensures var k := Encode(KeyOf(e, id, partition));
            e in Window(entries, ivl, end)
            <==> !Less(k, Encode(BoundAt(ivl, end - ivl))) && Less(k, Encode(BoundAt(ivl, end)))
  {
    hide Encode, Less, Aligned;
    var k := KeyOf(e, id, partition);
    EpochSeconds(e.time);
    EpochSeconds(end - ivl);
    EpochSeconds(end);
    RangeIsWindow(k, ivl / SECOND, (end - ivl - UNIX_EPOCH) / SECOND, (end - UNIX_EPOCH) / SECOND);
    SecondsStrict(e.interval, ivl, d);
    if e.interval == ivl {
      AtLeast(ivl, d);
      StartAligned(end, ivl);
      SecondsStrict(e.time, end - ivl, ivl);
      SecondsStrict(end - ivl, e.time, ivl);
      SecondsStrict(e.time, end, ivl);
    }
  }

  lemma AtLeast(ivl: nat, d: nat)
    requires 0 < ivl && 0 < d && Aligned(ivl, d)
    ensures d <= ivl
  {
  }

  lemma StartAligned(end: nat, ivl: nat)
    requires 0 < ivl <= end && Aligned(end, ivl)
    ensures Aligned(end - ivl, ivl)
  {
    var q := AlignedIs(end, ivl);
    assert q >= 1;
    assert (q - 1) * ivl + 0 == end - ivl;
    TruncateIs(q - 1, 0, ivl);
  }

  // ----- along runs

  /** In every run every pending entry has a time that is a multiple of its interval, after the epoch. */
  lemma {:induction false} PendingAligned(cfg: Config, states: seq<State>, steps: seq<Step>, n: nat, e: Entry)
    requires ValidConfig(cfg) && IsRun(cfg, states, steps) && n < |states| && e in Pending(states[n])
    ensures 0 < e.interval <= 18 * HOUR && Aligned(e.interval, cfg[0])
    ensures Aligned(e.time, e.interval) && UNIX_EPOCH <= e.time
  {
    PendingTimes(cfg, states, steps, n, e);
    WindowsAfterEpoch(cfg, states, steps, n);
    var s := states[n];
    hide IsRun, Pending;
    var i :| 0 <= i < |cfg| && cfg[i] == e.interval;
    if e.time == Truncate(s.processingTime, e.interval) {
      TruncatedNear(s.processingTime, e.interval);
    } else {
      hide Aligned, Truncate;
      StartAligned(s.run.to, e.interval);
    }
  }

  lemma TruncatedNear(t: nat, d: nat)
    requires 0 < d
    ensures Aligned(Truncate(t, d), d) && t - d < Truncate(t, d) <= t
  {
    var q := t / d;
    DivBounds(t, d);
    assert t == q * d + t % d;
    TruncateIs(q, t % d, d);
    TruncateIs(q, 0, d);
  }

  /** So in every run, for every configuration that validation accepts without equal neighbours, fractions of
      seconds included, the windows that harvests read and delete are exactly their key ranges. */
  lemma {:induction false} HarvestIsKeyRange(cfg: Config, states: seq<State>, steps: seq<Step>, n: nat, e: Entry, id: seq<byte>,
                                             partition: nat, ivl: nat, end: nat)
    requires ValidConfig(cfg) && IsRun(cfg, states, steps) && n < |states| && e in Pending(states[n])
    requires ivl in cfg && Aligned(end, ivl) && EARLIEST <= end && |id| == ID_SIZE && partition < 0x1_0000
    requires Int64(e.time / SECOND) && Int64(end / SECOND)
    ensures var k := Encode(KeyOf(e, id, partition));
            e in Window(Pending(states[n]), ivl, end)
            <==> !Less(k, Encode(BoundAt(ivl, end - ivl))) && Less(k, Encode(BoundAt(ivl, end)))
  {
    PendingAligned(cfg, states, steps, n, e);
    hide IsRun, Pending, Encode, Less, Window, Aligned;
    var i :| 0 <= i < |cfg| && cfg[i] == ivl;
    WindowIsKeyRange(cfg[0], Pending(states[n]), e, id, partition, ivl, end);
  }
}
