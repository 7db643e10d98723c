/** The `HDRHistogram` message on the wire: size, backward marshaller and decoder. */
module HdrWire {
  import opened Bits
  import opened Varint
  import opened Wire

  datatype Message = Message(lowest: int, highest: int, significant: int,
                             counts: seq<int>, buckets: seq<int>, unknown: seq<byte>)

  const KNOWN := 5

  function Empty(): Message {
    Message(0, 0, 0, [], [], [])
  }

  // ----- encoding

  /** An int64 field; zero is left out. */
  function ScalarBytes(tag: byte, v: int): seq<byte> {
    if v == 0 then [] else [tag] + VarintBytes(ToUint64(v))
  }

  /** A packed repeated field; an empty one is left out. */
  function PackedBytes(tag: byte, xs: seq<int>): seq<byte> {
    if xs == [] then [] else Delimited(tag, PackedBody(xs))
  }

  function Encoded(m: Message): seq<byte> {
    ScalarBytes(0x08, m.lowest) + (ScalarBytes(0x10, m.highest) + (ScalarBytes(0x18, m.significant)
    + (PackedBytes(0x22, m.counts) + (PackedBytes(0x2a, m.buckets) + m.unknown))))
  }

  // ----- decoding

  /** A repeated integer field: one element, or a packed run of them. */
  function ReadInts(at: nat, s: seq<byte>, wireType: nat, width: nat): Read<seq<int>> {
    match wireType
    case 0 =>
      var r := ReadVarint(s, 0, 0, width);
      if r.Failed? then Failed(r.error) else Read([Signed(r.value, width)], r.size)
    case 2 =>
      var l := ReadLength(at, s);
      if l.Failed? then Failed(l.error) else ReadPacked(s[l.size..], l.value, width).After(l.size)
    case _ => Failed(WrongWireType)
  }

  function ReadInt64(s: seq<byte>, wireType: nat): Read<int> {
    if wireType != 0 then Failed(WrongWireType)
    else
      var r := ReadUint64(s);
      if r.Failed? then Failed(r.error) else Read(ToInt64(r.value), r.size)
  }

  /** The field at index `at`, read into the message. */
  function DecodeField(at: nat, s: seq<byte>, m: Message): Read<Message> {
    var t := ReadTag(s);
    if t.Failed? then Failed(t.error)
    else
      ReadWithin(s, 0, 0, 64);
      DecodeValue(at, s, s[t.size..], t.value, m)
  }

  function DecodeValue(at: nat, s: seq<byte>, rest: seq<byte>, tag: Tag, m: Message): Read<Message>
    requires |rest| <= |s|
  {
    var n := |s| - |rest|;
    match tag.field
    case 1 =>
      var r := ReadInt64(rest, tag.wireType);
      if r.Failed? then Failed(r.error) else Read(m.(lowest := r.value), n + r.size)
    case 2 =>
      var r := ReadInt64(rest, tag.wireType);
      if r.Failed? then Failed(r.error) else Read(m.(highest := r.value), n + r.size)
    case 3 =>
      var r := ReadInt64(rest, tag.wireType);
      if r.Failed? then Failed(r.error) else Read(m.(significant := r.value), n + r.size)
    case 4 =>
      var r := ReadInts(at + n, rest, tag.wireType, 64);
      if r.Failed? then Failed(r.error) else Read(m.(counts := m.counts + r.value), n + r.size)
    case 5 =>
      var r := ReadInts(at + n, rest, tag.wireType, 32);
      if r.Failed? then Failed(r.error) else Read(m.(buckets := m.buckets + r.value), n + r.size)
    case _ =>
      var r := ReadUnknown(at, s);
      if r.Failed? then Failed(r.error) else Read(m.(unknown := m.unknown + r.value), r.size)
  }

  function Decoded(s: seq<byte>, m: Message): Read<Message> {
    DecodedFrom(0, s, m)
  }

  function DecodedFrom(at: nat, s: seq<byte>, m: Message): Read<Message> {
    DecodeAll(DecodeField, at, s, m)
  }

  // ----- round trip

  ghost predicate AllFit(xs: seq<int>, width: nat) {
    forall i :: 0 <= i < |xs| ==> Fits(xs[i], width)
  }

  /** The messages that Go can hold: every field in its type's range, and unknown fields as a decoder
      keeps them. */
  ghost predicate Encodable(m: Message) {
    && Int64(m.lowest) && Int64(m.highest) && Int64(m.significant)
    && AllFit(m.counts, 64) && AllFit(m.buckets, 32)
    && Unknowns(KNOWN, m.unknown)
    && |Encoded(m)| <= MAX_INT64
  }

  lemma DecodesInt64(at: nat, field: nat, v: int, tail: seq<byte>, m: Message)
    requires 1 <= field <= 3 && Int64(v) && v != 0
    ensures var record := [8 * field] + VarintBytes(ToUint64(v));
            DecodeField(at, record + tail, m)
            == Read(if field == 1 then m.(lowest := v) else if field == 2 then m.(highest := v) else m.(significant := v),
                    |record|)
  {
    hide ReadUint64, ReadUnknown, ReadInts, VarintBytes, ToInt64, ToUint64, ReadTag;
    var body := VarintBytes(ToUint64(v));
    assert ([8 * field] + body) + tail == [8 * field + 0] + (body + tail);
    ReadsTag(field, 0, body + tail);
    ReadsUint64(ToUint64(v), tail);
    SignExtends(v);
    assert ([8 * field] + (body + tail))[1..] == body + tail;
  }

  lemma DecodesInts(at: nat, field: nat, xs: seq<int>, tail: seq<byte>, m: Message)
    requires 4 <= field <= 5 && AllFit(xs, if field == 4 then 64 else 32)
    requires at + |Delimited(8 * field + 2, PackedBody(xs))| <= MAX_INT64
    ensures var record := Delimited(8 * field + 2, PackedBody(xs));
            DecodeField(at, record + tail, m)
            == Read(if field == 4 then m.(counts := m.counts + xs) else m.(buckets := m.buckets + xs), |record|)
  {
    hide ReadUint64, ReadUnknown, ReadInt64, VarintBytes, ReadTag, ReadLength, PackedBody, ReadPacked, ReadVarint;
    var body := PackedBody(xs);
    var l := VarintBytes(|body|);
    assert ([8 * field + 2] + (l + body)) + tail == [8 * field + 2] + (l + (body + tail));
    ReadsTag(field, 2, l + (body + tail));
    ReadsLength(at + 1, body, tail);
    ReadsPacked(xs, if field == 4 then 64 else 32, tail);
    assert ([8 * field + 2] + (l + (body + tail)))[1..] == l + (body + tail);
    assert (l + (body + tail))[|l|..] == body + tail;
  }

  /** A scalar field is set, and left alone when it is zero and was not written. */
  lemma ScalarStep(at: nat, field: nat, v: int, tail: seq<byte>, m: Message, m': Message)
    requires 1 <= field <= 3 && Int64(v)
    requires field == 1 ==> m.lowest == 0 && m' == m.(lowest := v)
    requires field == 2 ==> m.highest == 0 && m' == m.(highest := v)
    requires field == 3 ==> m.significant == 0 && m' == m.(significant := v)
    ensures var record := ScalarBytes(8 * field, v);
            DecodedFrom(at, record + tail, m) == DecodedFrom(at + |record|, tail, m').After(|record|)
  {
    hide DecodeField, ToUint64, VarintBytes;
    if v == 0 {
      assert [] + tail == tail;
    } else {
      DecodesInt64(at, field, v, tail, m);
      DecodeOne(DecodeField, at, ScalarBytes(8 * field, v), tail, m, m');
    }
  }

  lemma PackedStep(at: nat, field: nat, xs: seq<int>, tail: seq<byte>, m: Message, m': Message)
    requires 4 <= field <= 5 && AllFit(xs, if field == 4 then 64 else 32)
    requires m' == if field == 4 then m.(counts := m.counts + xs) else m.(buckets := m.buckets + xs)
    requires at + |PackedBytes(8 * field + 2, xs)| <= MAX_INT64
    ensures var record := PackedBytes(8 * field + 2, xs);
            DecodedFrom(at, record + tail, m) == DecodedFrom(at + |record|, tail, m').After(|record|)
  {
    hide DecodeField, PackedBody, VarintBytes;
    if xs == [] {
      assert [] + tail == tail;
      assert m.counts + [] == m.counts && m.buckets + [] == m.buckets;
    } else {
      DecodesInts(at, field, xs, tail, m);
      DecodeOne(DecodeField, at, PackedBytes(8 * field + 2, xs), tail, m, m');
    }
  }

  lemma DecodesUnknown(at: nat, s: seq<byte>, m: Message)
    requires IsUnknown(KNOWN, s) && at + |s| <= MAX_INT64
    ensures DecodeField(at, s, m) == Read(m.(unknown := m.unknown + WholeRecord(s).value), WholeRecord(s).size)
    ensures 1 <= WholeRecord(s).size <= |s| && WholeRecord(s).value == s[..WholeRecord(s).size]
  {
    hide ReadInt64, ReadInts, ReadUnknown, WholeRecord, ReadTag;
    UnknownExtent(at, s);
  }

  /** Unknown fields are kept as they stand. */
  lemma {:induction false} UnknownStep(at: nat, u: seq<byte>, m: Message)
    requires Unknowns(KNOWN, u) && at + |u| <= MAX_INT64
    ensures DecodedFrom(at, u, m) == Read(m.(unknown := m.unknown + u), |u|)
    decreases |u|
  {
    hide DecodeField, WholeRecord, ReadTag;
    if u == [] {
      assert m.unknown + u == m.unknown;
    } else {
      DecodesUnknown(at, u, m);
      var n := WholeRecord(u).size;
      var m' := m.(unknown := m.unknown + u[..n]);
      UnknownStep(at + n, u[n..], m');
      assert m.unknown + u[..n] + u[n..] == m.unknown + u;
    }
  }

  /** Decoding an encoded message into an empty one gives the message back, field for field. */
  lemma {:induction false} RoundTrip(m: Message)
    requires Encodable(m)
    ensures Decoded(Encoded(m), Empty()) == Read(m, |Encoded(m)|)
  {
    hide ScalarBytes, PackedBytes, DecodedFrom, AllFit, Unknowns;
    var f1, f2, f3 := ScalarBytes(0x08, m.lowest), ScalarBytes(0x10, m.highest), ScalarBytes(0x18, m.significant);
    var f4, f5 := PackedBytes(0x22, m.counts), PackedBytes(0x2a, m.buckets);
    var t4 := f5 + m.unknown;
    var t3 := f4 + t4;
    var t2 := f3 + t3;
    var t1 := f2 + t2;
    var m1 := Empty().(lowest := m.lowest);
    var m2 := m1.(highest := m.highest);
    var m3 := m2.(significant := m.significant);
    var m4 := m3.(counts := m.counts);
    var m5 := m4.(buckets := m.buckets);
    assert [] + m.counts == m.counts && [] + m.buckets == m.buckets && [] + m.unknown == m.unknown;
    var a2 := |f1| + |f2|;
    var a4 := a2 + |f3| + |f4|;
    ScalarStep(0, 1, m.lowest, t1, Empty(), m1);
    ScalarStep(|f1|, 2, m.highest, t2, m1, m2);
    ScalarStep(a2, 3, m.significant, t3, m2, m3);
    PackedStep(a2 + |f3|, 4, m.counts, t4, m3, m4);
    PackedStep(a4, 5, m.buckets, m.unknown, m4, m5);
    UnknownStep(a4 + |f5|, m.unknown, m5);
  }

  // ----- every decoded message can be encoded and decoded again

  lemma SignedFits(u: nat, width: nat)
    requires width == 32 || width == 64
    ensures Fits(Signed(u, width), width) && Int64(ToInt64(u))
  {
  }

  lemma {:induction false} PackedFits(s: seq<byte>, left: int, width: nat)
    requires width == 32 || width == 64
    ensures var r := ReadPacked(s, left, width);
            r.Read? ==> |r.value| <= r.size <= |s| && forall i :: 0 <= i < |r.value| ==> Fits(r.value[i], width)
    decreases |s|
  {
    hide ReadVarint, Fits, Signed;
    if left > 0 {
      var r := ReadVarint(s, 0, 0, width);
      ReadWithin(s, 0, 0, width);
      if r.Read? {
        SignedFits(r.value, width);
        PackedFits(s[r.size..], left - r.size, width);
      }
    }
  }

  lemma IntsFit(at: nat, s: seq<byte>, wireType: nat, width: nat)
    requires width == 32 || width == 64
    ensures var r := ReadInts(at, s, wireType, width);
            r.Read? ==> |r.value| <= r.size <= |s| && forall i :: 0 <= i < |r.value| ==> Fits(r.value[i], width)
  {
    hide ReadVarint, Fits, Signed, ReadPacked;
    ReadWithin(s, 0, 0, width);
    ReadWithin(s, 0, 0, 64);
    if wireType == 0 && ReadVarint(s, 0, 0, width).Read? {
      SignedFits(ReadVarint(s, 0, 0, width).value, width);
    } else if wireType == 2 && ReadLength(at, s).Read? {
      PackedFits(s[ReadLength(at, s).size..], ReadLength(at, s).value, width);
    }
  }

  /** A field takes at least one byte, and no more than there are. */
  lemma {:induction false} FieldExtent(at: nat, s: seq<byte>, m: Message)
    ensures DecodeField(at, s, m).Read? ==> 1 <= DecodeField(at, s, m).size <= |s|
  {
    hide ReadTag, DecodeValue;
    TagExtent(s);
    if ReadTag(s).Read? {
      ValueExtent(at, s, s[ReadTag(s).size..], ReadTag(s).value, m);
    }
  }

  lemma TagExtent(s: seq<byte>)
    ensures ReadTag(s).Read? ==> 1 <= ReadTag(s).size <= |s|
  {
    hide ReadVarint, ToInt32;
    ReadWithin(s, 0, 0, 64);
  }

  lemma ValueExtent(at: nat, s: seq<byte>, rest: seq<byte>, tag: Tag, m: Message)
    requires |rest| < |s|
    ensures DecodeValue(at, s, rest, tag, m).Read? ==> 1 <= DecodeValue(at, s, rest, tag, m).size <= |s|
  {
    hide ReadVarint, ReadInts, ReadUnknown, WholeRecord, ToInt64;
    var n := |s| - |rest|;
    ReadWithin(rest, 0, 0, 64);
    IntsFit(at + n, rest, tag.wireType, 64);
    IntsFit(at + n, rest, tag.wireType, 32);
    UnknownExtent(at, s);
  }

  /** What decoding keeps: ranges, whole unknown records, and no more elements than bytes read. */
  ghost predicate Held(m: Message, bytes: nat) {
    && Int64(m.lowest) && Int64(m.highest) && Int64(m.significant)
    && (forall i :: 0 <= i < |m.counts| ==> Fits(m.counts[i], 64))
    && (forall i :: 0 <= i < |m.buckets| ==> Fits(m.buckets[i], 32))
    && |m.counts| <= bytes && |m.buckets| <= bytes && |m.unknown| <= bytes
    && Unknowns(KNOWN, m.unknown)
  }

  lemma FieldHeld(at: nat, s: seq<byte>, m: Message, bytes: nat)
    requires Held(m, bytes)
    ensures var r := DecodeField(at, s, m);
            r.Read? ==> Held(r.value, bytes + r.size)
  {
    hide ReadVarint, ReadInts, Fits, ReadUnknown, WholeRecord, ToInt64, ToInt32, Unknowns;
    ReadWithin(s, 0, 0, 64);
    if ReadTag(s).Read? {
      var t := ReadTag(s);
      var rest := s[t.size..];
      if t.value.field <= 3 {
        ReadWithin(rest, 0, 0, 64);
        if ReadUint64(rest).Read? { SignedFits(ReadUint64(rest).value, 64); }
      } else if t.value.field == 4 {
        IntsFit(at + t.size, rest, t.value.wireType, 64);
      } else if t.value.field == 5 {
        IntsFit(at + t.size, rest, t.value.wireType, 32);
      } else if ReadUnknown(at, s).Read? {
        UnknownExtent(at, s);
        UnknownsAppend(KNOWN, m.unknown, s);
      }
    }
  }

  lemma {:induction false} DecodedHeld(at: nat, s: seq<byte>, m: Message, bytes: nat)
    requires Held(m, bytes)
    ensures var r := DecodedFrom(at, s, m);
            r.Read? ==> r.size == |s| && Held(r.value, bytes + |s|)
    decreases |s|
  {
    hide DecodeField, Held;
    if s != [] {
      FieldHeld(at, s, m, bytes);
      FieldExtent(at, s, m);
      var r := DecodeField(at, s, m);
      if r.Read? {
        DecodedHeld(at + r.size, s[r.size..], r.value, bytes + r.size);
      }
    }
  }

  lemma {:induction false} PackedLength(xs: seq<int>)
    ensures |xs| <= |PackedBody(xs)| <= 10 * |xs|
  {
    if xs != [] {
      PackedLength(xs[1..]);
      SmallPowers();
      LargePowers();
      Pow2Add(63, 7);
      hide Pow2, VarintBytes;
      VarintLength(ToUint64(xs[0]), 10);
    }
  }

  lemma ScalarLength(tag: byte, v: int)
    ensures |ScalarBytes(tag, v)| <= 11
  {
    SmallPowers();
    LargePowers();
    Pow2Add(63, 7);
    hide Pow2, VarintBytes;
    VarintLength(ToUint64(v), 10);
  }

  lemma PackedFieldLength(tag: byte, xs: seq<int>)
    requires 10 * |xs| <= MAX_INT64
    ensures |PackedBytes(tag, xs)| <= 11 + 10 * |xs|
  {
    PackedLength(xs);
    SmallPowers();
    LargePowers();
    Pow2Add(63, 7);
    hide Pow2, VarintBytes, PackedBody;
    if xs != [] {
      DelimitedSize(tag, PackedBody(xs));
      VarintLength(|PackedBody(xs)|, 10);
    }
  }

  /** Whatever bytes were decoded, encoding the result and decoding it again changes nothing. */
  lemma {:induction false} DecodedStable(s: seq<byte>)
    requires 32 * (|s| + 2) <= MAX_INT64
    ensures var r := Decoded(s, Empty());
            r.Read? ==> Encodable(r.value) && Decoded(Encoded(r.value), Empty()) == Read(r.value, |Encoded(r.value)|)
  {
    assert Unknowns(KNOWN, []);
    hide DecodedFrom, Fits, Unknowns, ScalarBytes, PackedBytes;
    DecodedHeld(0, s, Empty(), 0);
    var r := Decoded(s, Empty());
    if r.Read? {
      var m := r.value;
      ScalarLength(0x08, m.lowest);
      ScalarLength(0x10, m.highest);
      ScalarLength(0x18, m.significant);
      PackedFieldLength(0x22, m.counts);
      PackedFieldLength(0x2a, m.buckets);
      RoundTrip(m);
    }
  }
}
