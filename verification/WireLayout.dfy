/** The Protocol Buffers wire format, byte by byte, apart from how the generated code writes it: varints are
    groups of seven bits, doubles eight bytes, both lowest first, and messages are the records of their fields. */
module WireLayout {
  import opened Bits
  import opened Varint
  import opened Wire
  import opened LabelWire
  import HdrWire
  import KeyCodec

  // ----- numbers

  lemma ShiftMore(v: nat, k: nat, i: nat)
    requires i > 0
    ensures ShiftRight(ShiftRight(v, k), k * (i - 1)) == ShiftRight(v, k * i)
  {
    hide ShiftRight;
    ShiftTwice(v, k, k * (i - 1));
    assert k * i == k + k * (i - 1);
  }

  lemma {:induction false} VarintBound(v: nat)
    ensures var n := |VarintBytes(v)|; v < Pow2(7 * n) && (n > 1 ==> Pow2(7 * (n - 1)) <= v)
  {
    SmallPowers();
    if v >= 128 {
      var n := |VarintBytes(v / 128)|;
      VarintBound(v / 128);
      Pow2Add(7 * n, 7);
      if n > 1 {
        Pow2Add(7 * (n - 1), 7);
      }
      hide Pow2;
    }
  }

  /** Byte `i` of a varint has bits 7i to 7i+6 of the number, and its high bit says whether it is not the last;
      the last byte is the one with the highest bit set. */
  lemma {:induction false} VarintGroups(v: nat, i: nat)
    requires i < |VarintBytes(v)|
    ensures var n := |VarintBytes(v)|;
            && VarintBytes(v)[i] == ShiftRight(v, 7 * i) % 128 + (if i + 1 < n then 128 else 0)
            && v < Pow2(7 * n) && (n > 1 ==> Pow2(7 * (n - 1)) <= v)
  {
    VarintBound(v);
    ShiftBytes(v);
    hide Pow2, ShiftRight;
    if v >= 128 && i > 0 {
      VarintGroups(v / 128, i - 1);
      ShiftMore(v, 7, i);
    }
  }

  /** Byte `i` of a little-endian number has its bits 8i to 8i+7. */
  lemma {:induction false} LittleEndianBytes(v: nat, n: nat, i: nat)
    requires i < n
    ensures LittleEndian(v, n)[i] == ShiftRight(v, 8 * i) % 256
  {
    ShiftBytes(v);
    hide ShiftRight;
    if i > 0 {
      LittleEndianBytes(v / 256, n - 1, i - 1);
      ShiftMore(v, 8, i);
    }
  }

  lemma LowByte(b: byte, w: nat)
    ensures (b + 256 * w) % 256 == b && (b + 256 * w) / 256 == w
  {
  }

  /** Reading gives the number with these bits. */
  lemma {:induction false} ReadLittleEndian(s: Bytes, i: nat)
    requires i < |s|
    ensures ShiftRight(FromLittleEndian(s), 8 * i) % 256 == s[i]
  {
    hide ShiftRight;
    var v, w := FromLittleEndian(s), FromLittleEndian(s[1..]);
    LowByte(s[0], w);
    ShiftBytes(v);
    if i > 0 {
      ReadLittleEndian(s[1..], i - 1);
      ShiftMore(v, 8, i);
    }
  }

  /** And no more bits than were read. */
  lemma {:induction false} LittleEndianBound(s: Bytes)
    ensures FromLittleEndian(s) < Pow2(8 * |s|)
  {
    SmallPowers();
    if s != [] {
      LittleEndianBound(s[1..]);
      Pow2Add(8 * (|s| - 1), 8);
      hide Pow2;
    }
  }

  // ----- records

  /** A field number with a varint, with eight bytes, or with a length and as many bytes. */
  datatype Record =
    | VarintRecord(field: nat, value: nat)
    | DoubleRecord(field: nat, bits: nat)
    | BytesRecord(field: nat, payload: Bytes)

  ghost function RecordBytes(r: Record): Bytes {
    match r
    case VarintRecord(field, value) => VarintBytes(8 * field) + VarintBytes(value)
    case DoubleRecord(field, bits) => VarintBytes(8 * field + 1) + LittleEndian(bits, 8)
    case BytesRecord(field, payload) => VarintBytes(8 * field + 2) + (VarintBytes(|payload|) + payload)
  }

  ghost function RecordsBytes(rs: seq<Record>): Bytes {
    if rs == [] then [] else RecordBytes(rs[0]) + RecordsBytes(rs[1..])
  }

  lemma {:induction false} RecordsAppend(a: seq<Record>, b: seq<Record>)
    ensures RecordsBytes(a + b) == RecordsBytes(a) + RecordsBytes(b)
  {
    hide RecordBytes;
    if a == [] {
      assert a + b == b;
    } else {
      assert (a + b)[1..] == a[1..] + b && (a + b)[0] == a[0];
      assert RecordsBytes(a + b) == RecordBytes(a[0]) + RecordsBytes(a[1..] + b);
      RecordsAppend(a[1..], b);
      Assoc(RecordBytes(a[0]), RecordsBytes(a[1..]), RecordsBytes(b));
    }
  }

  lemma OneRecord(r: Record)
    ensures RecordsBytes([r]) == RecordBytes(r)
  {
    hide RecordBytes;
    assert [r][1..] == [];
    assert RecordsBytes([]) == [];
    assert RecordBytes(r) + [] == RecordBytes(r);
  }

  lemma SmallTag(tag: byte)
    requires tag < 128
    ensures VarintBytes(tag) == [tag]
  {
  }

  /** A string field: nothing for an empty one. */
  ghost function StringRecord(field: nat, b: Bytes): seq<Record> {
    if b == [] then [] else [BytesRecord(field, b)]
  }

  ghost function EachRecord(field: nat, bs: seq<Bytes>): (r: seq<Record>)
    ensures |r| == |bs| && forall i :: 0 <= i < |bs| ==> r[i] == BytesRecord(field, bs[i])
  {
    seq(|bs|, i requires 0 <= i < |bs| => BytesRecord(field, bs[i]))
  }

  lemma DelimitedIsRecord(field: nat, b: Bytes)
    requires field < 15
    ensures Delimited(8 * field + 2, b) == RecordBytes(BytesRecord(field, b)) == RecordsBytes([BytesRecord(field, b)])
  {
    SmallTag(8 * field + 2);
    OneRecord(BytesRecord(field, b));
  }

  lemma {:induction false} RepeatedAreRecords(field: nat, bs: seq<Bytes>)
    requires field < 15
    ensures RepeatedBytes(8 * field + 2, bs) == RecordsBytes(EachRecord(field, bs))
  {
    hide Delimited, RecordBytes;
    if bs != [] {
      DelimitedIsRecord(field, bs[0]);
      RepeatedAreRecords(field, bs[1..]);
      assert EachRecord(field, bs)[1..] == EachRecord(field, bs[1..]);
    }
  }

  lemma StringIsRecord(field: nat, b: Bytes)
    requires field < 15
    ensures StringBytes(8 * field + 2, b) == RecordsBytes(StringRecord(field, b))
  {
    hide Delimited, RecordBytes;
    if b != [] {
      DelimitedIsRecord(field, b);
    }
  }

  // ----- messages

  /** `Label`: key = 1, value = 2, values = 3. */
  ghost function LabelRecords(m: Label): seq<Record> {
    StringRecord(1, m.key) + StringRecord(2, m.value) + EachRecord(3, m.values)
  }

  lemma RecordsOfThree(a: seq<Record>, b: seq<Record>, c: seq<Record>, unknown: Bytes)
    ensures RecordsBytes(a + b + c) + unknown == RecordsBytes(a) + (RecordsBytes(b) + (RecordsBytes(c) + unknown))
  {
    RecordsAppend(a, b);
    RecordsAppend(a + b, c);
    hide RecordsBytes;
    assert (RecordsBytes(a) + RecordsBytes(b)) + RecordsBytes(c) + unknown == RecordsBytes(a) + (RecordsBytes(b) + (RecordsBytes(c) + unknown));
  }

  lemma {:induction false} LabelLayout(m: Label)
    ensures EncodedLabel(m) == RecordsBytes(LabelRecords(m)) + m.unknown
  {
    hide StringBytes, RepeatedBytes, RecordsBytes, StringRecord, EachRecord;
    StringIsRecord(1, m.key);
    StringIsRecord(2, m.value);
    RepeatedAreRecords(3, m.values);
    RecordsOfThree(StringRecord(1, m.key), StringRecord(2, m.value), EachRecord(3, m.values), m.unknown);
  }

  /** `NumericLabel`: key = 1, value = 2, values = 3, which are packed. */
  ghost function NumericRecords(m: NumericLabel): seq<Record> {
    StringRecord(1, m.key)
    + (if m.value == 0 || m.value == 0x8000_0000_0000_0000 then [] else [DoubleRecord(2, m.value)])
    + (if m.values == [] then [] else [BytesRecord(3, DoublesBody(m.values))])
  }

  /** Packed doubles are eight bytes each, one after the other, lowest byte first. */
  lemma {:induction false} DoublesLayout(vs: seq<nat>, j: nat, i: nat)
    requires j < |vs| && i < 8
    ensures |DoublesBody(vs)| == 8 * |vs| && DoublesBody(vs)[8 * j + i] == ShiftRight(vs[j], 8 * i) % 256
  {
    hide ShiftRight, LittleEndian;
    LittleEndianBytes(vs[0], 8, i);
    if j > 0 {
      DoublesLayout(vs[1..], j - 1, i);
    }
  }

  lemma DoubleIsRecord(v: nat)
    ensures !IsZero(v) ==> DoubleBytes(0x11, v) == RecordsBytes([DoubleRecord(2, v)])
  {
    SmallTag(0x11);
    OneRecord(DoubleRecord(2, v));
  }

  lemma {:induction false} NumericLayout(m: NumericLabel)
    ensures EncodedNumeric(m) == RecordsBytes(NumericRecords(m)) + m.unknown
  {
    StringIsRecord(1, m.key);
    DoubleIsRecord(m.value);
    DelimitedIsRecord(3, DoublesBody(m.values));
    assert RecordsBytes([]) == [];
    hide StringBytes, Delimited, RecordsBytes, RecordBytes, StringRecord, DoublesBody, LittleEndian;
    var b: seq<Record> := if IsZero(m.value) then [] else [DoubleRecord(2, m.value)];
    var c: seq<Record> := if m.values == [] then [] else [BytesRecord(3, DoublesBody(m.values))];
    assert DoubleBytes(0x11, m.value) == RecordsBytes(b);
    assert DoublesBytes(0x1a, m.values) == RecordsBytes(c);
    RecordsOfThree(StringRecord(1, m.key), b, c, m.unknown);
  }

  /** Tag 0x11 and the eight bytes of a double, lowest first. */
  ghost predicate DoubleAt(s: Bytes, o: nat, v: nat) {
    |s| >= o + 9 && s[o] == 0x11 && forall i: nat :: i < 8 ==> s[o + 1 + i] == ShiftRight(v, 8 * i) % 256
  }

  /** Tag 0x1a, the length, and eight bytes for each double, lowest first. */
  ghost predicate DoublesAt(s: Bytes, o: nat, vs: seq<nat>) {
    var q := o + 1 + Sov(8 * |vs|);
    && |s| >= q + 8 * |vs| && s[o] == 0x1a
    && forall j: nat, i: nat {:trigger ShiftRight(vs[j], 8 * i)} :: j < |vs| && i < 8 ==> s[q + 8 * j + i] == ShiftRight(vs[j], 8 * i) % 256
  }

  /** Where the doubles of a numeric label are in its bytes. */
  ghost predicate DoublesInPlace(s: Bytes, m: NumericLabel) {
    var o := if m.key == [] then 0 else 1 + Sov(|m.key|) + |m.key|;
    && (!IsZero(m.value) ==> DoubleAt(s, o, m.value))
    && (m.values != [] ==> DoublesAt(s, if IsZero(m.value) then o else o + 9, m.values))
  }

  lemma DoubleWritten(a: Bytes, v: nat, tail: Bytes)
    ensures DoubleAt(a + ([0x11] + LittleEndian(v, 8) + tail), |a|, v)
  {
    hide ShiftRight, LittleEndian;
    var s := a + ([0x11] + LittleEndian(v, 8) + tail);
    forall i: nat | i < 8
      ensures s[|a| + 1 + i] == ShiftRight(v, 8 * i) % 256
    {
      LittleEndianBytes(v, 8, i);
    }
  }

  lemma DoublesWritten(a: Bytes, vs: seq<nat>, tail: Bytes)
    ensures DoublesAt(a + (Delimited(0x1a, DoublesBody(vs)) + tail), |a|, vs)
  {
    hide ShiftRight, DoublesBody, Sov, VarintBytes;
    var l, body := VarintBytes(8 * |vs|), DoublesBody(vs);
    var s := a + (Delimited(0x1a, body) + tail);
    SovIsLength(8 * |vs|);
    assert s == a + [0x1a] + l + body + tail;
    forall j: nat, i: nat {:trigger ShiftRight(vs[j], 8 * i)} | j < |vs| && i < 8
      ensures s[|a| + 1 + |l| + 8 * j + i] == ShiftRight(vs[j], 8 * i) % 256
    {
      DoublesLayout(vs, j, i);
    }
  }

  lemma StringLength(tag: byte, b: Bytes)
    ensures |StringBytes(tag, b)| == if b == [] then 0 else 1 + Sov(|b|) + |b|
  {
    hide Sov, VarintBytes;
    SovIsLength(|b|);
  }

  lemma {:induction false} NumericBytes(m: NumericLabel, tail: Bytes)
    ensures DoublesInPlace(EncodedNumeric(m) + tail, m)
  {
    hide Sov, DoublesBody, LittleEndian, DoubleAt, DoublesAt, StringBytes, Delimited;
    var a, b, c := StringBytes(0x0a, m.key), DoubleBytes(0x11, m.value), DoublesBytes(0x1a, m.values);
    StringLength(0x0a, m.key);
    Assoc(a, b + (c + m.unknown), tail);
    Assoc(b, c + m.unknown, tail);
    Assoc(c, m.unknown, tail);
    Assoc(a, b, c + (m.unknown + tail));
    DoubleWritten(a, m.value, c + (m.unknown + tail));
    DoublesWritten(a + b, m.values, m.unknown + tail);
  }

  /** `GlobalLabels`: labels = 1, numeric_labels = 2. */
  lemma {:induction false} LabelsLayout(m: GlobalLabels)
    ensures Encoded(m) == RecordsBytes(EachRecord(1, EncodedEach(m.labels)) + EachRecord(2, EncodedEachNumeric(m.numericLabels))) + m.unknown
  {
    hide RepeatedBytes, RecordsBytes, EncodedEach, EncodedEachNumeric;
    var a, b := EachRecord(1, EncodedEach(m.labels)), EachRecord(2, EncodedEachNumeric(m.numericLabels));
    RepeatedAreRecords(1, EncodedEach(m.labels));
    RepeatedAreRecords(2, EncodedEachNumeric(m.numericLabels));
    RecordsAppend(a, b);
    assert (RecordsBytes(a) + RecordsBytes(b)) + m.unknown == RecordsBytes(a) + (RecordsBytes(b) + m.unknown);
  }

  // The histogram message

  /** An int64 field: nothing for zero; a negative number as 2^64 more. */
  ghost function IntRecord(field: nat, v: int): seq<Record>
    requires Int64(v)
  {
    if v == 0 then [] else [VarintRecord(field, if v < 0 then v + 0x1_0000_0000_0000_0000 else v)]
  }

  /** Packed integers are varints, one after the other. */
  lemma {:induction false} PackedLayout(xs: seq<int>, x: int)
    requires Int64(x)
    ensures PackedBody([]) == []
    ensures PackedBody(xs + [x]) == PackedBody(xs) + VarintBytes(if x < 0 then x + 0x1_0000_0000_0000_0000 else x)
  {
    hide VarintBytes;
    UnsignedIs(x);
    hide ToUint64;
    if xs == [] {
      assert xs + [x] == [x] && [x][1..] == [];
    } else {
      PackedLayout(xs[1..], x);
      assert (xs + [x])[1..] == xs[1..] + [x];
      Assoc(VarintBytes(ToUint64(xs[0])), PackedBody(xs[1..]), VarintBytes(ToUint64(x)));
    }
  }

  ghost function PackedRecord(field: nat, xs: seq<int>): seq<Record> {
    if xs == [] then [] else [BytesRecord(field, PackedBody(xs))]
  }

  lemma IntIsRecord(field: nat, v: int)
    requires field < 15 && Int64(v)
    ensures HdrWire.ScalarBytes(8 * field, v) == RecordsBytes(IntRecord(field, v))
  {
    if v != 0 {
      SmallTag(8 * field);
      UnsignedIs(v);
      OneRecord(IntRecord(field, v)[0]);
    }
  }

  lemma PackedIsRecord(field: nat, xs: seq<int>)
    requires field < 15
    ensures HdrWire.PackedBytes(8 * field + 2, xs) == RecordsBytes(PackedRecord(field, xs))
  {
    hide Delimited, RecordBytes, PackedBody;
    if xs != [] {
      DelimitedIsRecord(field, PackedBody(xs));
    }
  }

  /** `HDRHistogram`: lowest = 1, highest = 2, significant figures = 3, counts = 4, buckets = 5. */
  lemma {:induction false} HistogramLayout(m: HdrWire.Message)
    requires Int64(m.lowest) && Int64(m.highest) && Int64(m.significant)
    ensures HdrWire.Encoded(m)
            == RecordsBytes(IntRecord(1, m.lowest) + IntRecord(2, m.highest) + IntRecord(3, m.significant)
                            + (PackedRecord(4, m.counts) + PackedRecord(5, m.buckets))) + m.unknown
  {
    hide HdrWire.ScalarBytes, HdrWire.PackedBytes, RecordsBytes, IntRecord, PackedRecord;
    IntIsRecord(1, m.lowest);
    IntIsRecord(2, m.highest);
    IntIsRecord(3, m.significant);
    PackedIsRecord(4, m.counts);
    PackedIsRecord(5, m.buckets);
    var d, e := PackedRecord(4, m.counts), PackedRecord(5, m.buckets);
    RecordsOfThree(IntRecord(1, m.lowest), IntRecord(2, m.highest), IntRecord(3, m.significant), RecordsBytes(d + e) + m.unknown);
    RecordsAppend(IntRecord(1, m.lowest) + IntRecord(2, m.highest) + IntRecord(3, m.significant), d + e);
    RecordsAppend(d, e);
    assert (RecordsBytes(d) + RecordsBytes(e)) + m.unknown == RecordsBytes(d) + (RecordsBytes(e) + m.unknown);
    assert RecordsBytes(IntRecord(1, m.lowest) + IntRecord(2, m.highest) + IntRecord(3, m.significant)) + (RecordsBytes(d + e) + m.unknown)
           == RecordsBytes(IntRecord(1, m.lowest) + IntRecord(2, m.highest) + IntRecord(3, m.significant)) + RecordsBytes(d + e) + m.unknown;
  }

  lemma UnsignedIs(x: int)
    requires Int64(x)
    ensures ToUint64(x) == if x < 0 then x + 0x1_0000_0000_0000_0000 else x
  {
  }

  lemma UnpackedTag(at: nat, field: nat, s: Bytes, m: HdrWire.Message)
    requires field == 4 || field == 5
    ensures var r := HdrWire.ReadInts(at + 1, s, 0, if field == 4 then 64 else 32);
            HdrWire.DecodeField(at, [8 * field] + s, m)
            == if r.Failed? then Failed(r.error)
               else Read(if field == 4 then m.(counts := m.counts + r.value) else m.(buckets := m.buckets + r.value), 1 + r.size)
  {
    hide ReadTag, HdrWire.ReadInts, HdrWire.ReadInt64, ReadUnknown;
    ReadsTag(field, 0, s);
    assert ([8 * field] + s)[1..] == s;
  }

  /** Elements of the repeated fields that are not packed are accepted one by one. */
  lemma {:induction false} UnpackedRead(at: nat, field: nat, x: int, tail: Bytes, m: HdrWire.Message)
    requires (field == 4 && Int64(x)) || (field == 5 && Int32(x))
    ensures var s := RecordBytes(VarintRecord(field, if x < 0 then x + 0x1_0000_0000_0000_0000 else x));
            HdrWire.DecodeField(at, s + tail, m)
            == Read(if field == 4 then m.(counts := m.counts + [x]) else m.(buckets := m.buckets + [x]), |s|)
  {
    UnsignedIs(x);
    SmallTag(8 * field);
    hide VarintBytes, ReadTag, ReadVarint, Signed, ReadUnknown, ToUint64, HdrWire.DecodeField;
    var v := ToUint64(x);
    ReadsSigned(x, if field == 4 then 64 else 32, tail);
    Assoc([8 * field], VarintBytes(v), tail);
    UnpackedTag(at, field, VarintBytes(v) + tail, m);
  }

  // ----- the database key

  /** Byte `i` of `n` big-endian bytes has the bits that `n - 1 - i` bytes follow. */
  lemma {:induction false} BigEndianBytes(v: nat, n: nat, i: nat)
    requires i < n
    ensures KeyCodec.BigEndian(v, n)[i] == ShiftRight(v, 8 * (n - 1 - i)) % 256
  {
    ShiftBytes(v);
    hide ShiftRight;
    if i < n - 1 {
      BigEndianBytes(v / 256, n - 1, i);
      ShiftMore(v, 8, n - 1 - i);
    }
  }

  /** Two bytes of the interval, eight of the time, the ID and two bytes of the partition, highest byte first; a
      time before the epoch is 2^64 more. */
  lemma {:induction false} KeyLayout(k: KeyCodec.Key, i: nat)
    requires KeyCodec.ValidKey(k) && i < 28
    ensures var s, t := KeyCodec.Encode(k), if k.time < 0 then k.time + 0x1_0000_0000_0000_0000 else k.time;
            && |s| == 28
            && s[i] == (if i < 2 then ShiftRight(k.interval, 8 * (1 - i)) % 256
                        else if i < 10 then ShiftRight(t, 8 * (9 - i)) % 256
                        else if i < 26 then k.id[i - 10]
                        else ShiftRight(k.partition, 8 * (27 - i)) % 256)
  {
    hide ShiftRight, KeyCodec.BigEndian;
    var t := if k.time < 0 then k.time + 0x1_0000_0000_0000_0000 else k.time;
    assert ToUint64(k.time) == t;
    if i < 2 {
      BigEndianBytes(k.interval, 2, i);
    } else if i < 10 {
      BigEndianBytes(t, 8, i - 2);
    } else if 26 <= i {
      BigEndianBytes(k.partition, 2, i - 26);
    }
  }
}
