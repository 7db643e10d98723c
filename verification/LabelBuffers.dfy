/** The generated label code: sizes, backward buffer filling and decoding loops. */
module LabelBuffers {
  import opened Bits
  import opened Varint
  import opened Wire
  import opened WireLoops
  import opened LabelWire
  import WireLayout

  // ----- sizes

  method RepeatedSize(tag: byte, bs: seq<Bytes>) returns (n: nat)
    ensures n == |RepeatedBytes(tag, bs)|
  {
    hide Delimited, Sov;
    n := 0;
    for i := 0 to |bs|
      invariant n + |RepeatedBytes(tag, bs[i..])| == |RepeatedBytes(tag, bs)|
    {
      assert bs[i..][0] == bs[i] && bs[i..][1..] == bs[i + 1..];
      DelimitedLength(tag, bs[i]);
      var l := |bs[i]|;
      n := n + 1 + l + Sov(l);
    }
  }

  method LabelSizeVT(m: Label) returns (n: nat)
    ensures n == |EncodedLabel(m)|
  {
    hide Delimited, Sov, RepeatedBytes;
    DelimitedLength(0x0a, m.key);
    DelimitedLength(0x12, m.value);
    n := 0;
    var l := |m.key|;
    if l > 0 {
      n := n + 1 + l + Sov(l);
    }
    l := |m.value|;
    if l > 0 {
      n := n + 1 + l + Sov(l);
    }
    var values := RepeatedSize(0x1a, m.values);
    n := n + values + |m.unknown|;
  }

  method NumericSizeVT(m: NumericLabel) returns (n: nat)
    ensures n == |EncodedNumeric(m)|
  {
    hide Delimited, Sov, DoublesBody;
    DelimitedLength(0x0a, m.key);
    DelimitedLength(0x1a, DoublesBody(m.values));
    n := 0;
    var l := |m.key|;
    if l > 0 {
      n := n + 1 + l + Sov(l);
    }
    if !IsZero(m.value) {
      n := n + 9;
    }
    if |m.values| > 0 {
      n := n + 1 + Sov(|m.values| * 8) + |m.values| * 8;
    }
    n := n + |m.unknown|;
  }

  method LabelsSizeVT(m: GlobalLabels) returns (n: nat)
    ensures n == |Encoded(m)|
  {
    hide Delimited, Sov, EncodedLabel, EncodedNumeric;
    n := 0;
    for i := 0 to |m.labels|
      invariant n + |RepeatedBytes(0x0a, EncodedEach(m.labels[i..]))| == |RepeatedBytes(0x0a, EncodedEach(m.labels))|
    {
      LabelsCons(m.labels[i..], []);
      assert m.labels[i..][1..] == m.labels[i + 1..];
      DelimitedLength(0x0a, EncodedLabel(m.labels[i]));
      var l := LabelSizeVT(m.labels[i]);
      n := n + 1 + l + Sov(l);
    }
    ghost var first := n;
    for i := 0 to |m.numericLabels|
      invariant n + |RepeatedBytes(0x12, EncodedEachNumeric(m.numericLabels[i..]))|
                == first + |RepeatedBytes(0x12, EncodedEachNumeric(m.numericLabels))|
    {
      NumericsCons(m.numericLabels[i..], []);
      assert m.numericLabels[i..][1..] == m.numericLabels[i + 1..];
      DelimitedLength(0x12, EncodedNumeric(m.numericLabels[i]));
      var l := NumericSizeVT(m.numericLabels[i]);
      n := n + 1 + l + Sov(l);
    }
    n := n + |m.unknown|;
  }

  // ----- backward marshalling

  method PutDelimited(data: array<byte>, i: nat, tag: byte, b: Bytes) returns (at: nat)
    requires |Delimited(tag, b)| <= i <= data.Length
    modifies data
    ensures Prepended(data, at, Delimited(tag, b), i)
  {
    DelimitedSize(tag, b);
    hide Delimited;
    at := PutBytes(data, i, b);
    assert data[at..i] == b && data[i..] == old(data[i..]) by {
      assert data[at..] == b + old(data[i..]);
      assert data[at..i] == data[at..][..|b|] && data[i..] == data[at..][|b|..];
    }
    at := PutHeader(data, at, tag, b);
  }

  method PutString(data: array<byte>, i: nat, tag: byte, b: Bytes) returns (at: nat)
    requires |StringBytes(tag, b)| <= i <= data.Length
    modifies data
    ensures Prepended(data, at, StringBytes(tag, b), i)
  {
    at := i;
    if |b| > 0 {
      at := PutDelimited(data, i, tag, b);
    }
  }

  /** Repeated values, the last one first. */
  method PutStrings(data: array<byte>, i: nat, tag: byte, bs: seq<Bytes>) returns (at: nat)
    requires |RepeatedBytes(tag, bs)| <= i <= data.Length
    modifies data
    ensures Prepended(data, at, RepeatedBytes(tag, bs), i)
  {
    at := i;
    var k := |bs|;
    while k > 0
      invariant 0 <= k <= |bs|
      invariant at + |RepeatedBytes(tag, bs[k..])| == i
      invariant data[at..] == RepeatedBytes(tag, bs[k..]) + old(data[i..])
      invariant forall j :: 0 <= j < at ==> data[j] == old(data[j])
    {
      RepeatedSplit(tag, bs, k - 1);
      RepeatedLonger(tag, bs, k - 1);
      hide Delimited, RepeatedBytes;
      k := k - 1;
      at := PutDelimited(data, at, tag, bs[k]);
      Assoc(Delimited(tag, bs[k]), RepeatedBytes(tag, bs[k + 1..]), old(data[i..]));
    }
    assert bs[0..] == bs;
  }

  lemma RepeatedNone(tag: byte, bs: seq<Bytes>)
    ensures RepeatedBytes(tag, bs[|bs|..]) == []
  {
  }

  lemma RepeatedSplit(tag: byte, bs: seq<Bytes>, k: nat)
    requires k < |bs|
    ensures RepeatedBytes(tag, bs[k..]) == Delimited(tag, bs[k]) + RepeatedBytes(tag, bs[k + 1..])
  {
    assert bs[k..][1..] == bs[k + 1..];
  }

  lemma {:induction false} RepeatedLonger(tag: byte, bs: seq<Bytes>, k: nat)
    requires k <= |bs|
    ensures |RepeatedBytes(tag, bs[k..])| <= |RepeatedBytes(tag, bs)|
  {
    if k > 0 {
      RepeatedLonger(tag, bs, k - 1);
      RepeatedSplit(tag, bs, k - 1);
    } else {
      assert bs[0..] == bs;
    }
  }

  method PutDouble(data: array<byte>, i: nat, tag: byte, v: nat) returns (at: nat)
    requires |DoubleBytes(tag, v)| <= i <= data.Length
    modifies data
    ensures Prepended(data, at, DoubleBytes(tag, v), i)
  {
    hide LittleEndian;
    at := i;
    if !IsZero(v) {
      at := PutBytes(data, at, LittleEndian(v, 8));
      label value:
      at := PutTag(data, at, tag);
      assert data[at..] == [tag] + old@value(data[at + 1..]);
      Assoc([tag], LittleEndian(v, 8), old(data[i..]));
    }
  }

  lemma DoublesSplit(vs: seq<nat>, k: nat)
    requires k < |vs|
    ensures DoublesBody(vs[k..]) == LittleEndian(vs[k], 8) + DoublesBody(vs[k + 1..])
  {
    assert vs[k..][1..] == vs[k + 1..];
  }

  /** Packed doubles, the last one first. */
  method PutDoubles(data: array<byte>, i: nat, tag: byte, vs: seq<nat>) returns (at: nat)
    requires |DoublesBytes(tag, vs)| <= i <= data.Length
    modifies data
    ensures Prepended(data, at, DoublesBytes(tag, vs), i)
  {
    at := i;
    if |vs| > 0 {
      DelimitedSize(tag, DoublesBody(vs));
      hide Delimited, LittleEndian, DoublesBody;
      at := PutDoubleBody(data, i, vs);
      assert data[at..i] == DoublesBody(vs) && data[i..] == old(data[i..]) by {
        assert data[at..] == DoublesBody(vs) + old(data[i..]);
        assert data[at..i] == data[at..][..8 * |vs|] && data[i..] == data[at..][8 * |vs|..];
      }
      at := PutHeader(data, at, tag, DoublesBody(vs));
    }
  }

  method PutDoubleBody(data: array<byte>, i: nat, vs: seq<nat>) returns (at: nat)
    requires 8 * |vs| <= i <= data.Length
    modifies data
    ensures Prepended(data, at, DoublesBody(vs), i)
  {
    at := i;
    var k := |vs|;
    while k > 0
      invariant 0 <= k <= |vs| && at + 8 * (|vs| - k) == i
      invariant data[at..] == DoublesBody(vs[k..]) + old(data[i..])
      invariant forall j :: 0 <= j < at ==> data[j] == old(data[j])
    {
      DoublesSplit(vs, k - 1);
      hide LittleEndian, DoublesBody;
      k := k - 1;
      at := PutBytes(data, at, LittleEndian(vs[k], 8));
      Assoc(LittleEndian(vs[k], 8), DoublesBody(vs[k + 1..]), old(data[i..]));
    }
    assert vs[0..] == vs;
  }

  /** A label, ending at `i`. */
  method PutLabel(data: array<byte>, i: nat, m: Label) returns (at: nat)
    requires |EncodedLabel(m)| <= i <= data.Length
    modifies data
    ensures Prepended(data, at, EncodedLabel(m), i)
  {
    hide StringBytes, RepeatedBytes;
    ghost var was := data[i..];
    at := PutBytes(data, i, m.unknown);
    ghost var t := m.unknown;
    at := PutStrings(data, at, 0x1a, m.values);
    Assoc(RepeatedBytes(0x1a, m.values), t, was);
    t := RepeatedBytes(0x1a, m.values) + t;
    at := PutString(data, at, 0x12, m.value);
    Assoc(StringBytes(0x12, m.value), t, was);
    t := StringBytes(0x12, m.value) + t;
    at := PutString(data, at, 0x0a, m.key);
    Assoc(StringBytes(0x0a, m.key), t, was);
  }

  method PutNumeric(data: array<byte>, i: nat, m: NumericLabel) returns (at: nat)
    requires |EncodedNumeric(m)| <= i <= data.Length
    modifies data
    ensures Prepended(data, at, EncodedNumeric(m), i)
    ensures WireLayout.DoublesInPlace(data[at..], m)
  {
    hide StringBytes, DoubleBytes, DoublesBytes, WireLayout.DoublesInPlace;
    WireLayout.NumericBytes(m, data[i..]);
    ghost var was := data[i..];
    at := PutBytes(data, i, m.unknown);
    ghost var t := m.unknown;
    at := PutDoubles(data, at, 0x1a, m.values);
    Assoc(DoublesBytes(0x1a, m.values), t, was);
    t := DoublesBytes(0x1a, m.values) + t;
    at := PutDouble(data, at, 0x11, m.value);
    Assoc(DoubleBytes(0x11, m.value), t, was);
    t := DoubleBytes(0x11, m.value) + t;
    at := PutString(data, at, 0x0a, m.key);
    Assoc(StringBytes(0x0a, m.key), t, was);
  }

  /** One nested label with its header. */
  method PutLabelField(data: array<byte>, i: nat, m: Label) returns (at: nat)
    requires |Delimited(0x0a, EncodedLabel(m))| <= i <= data.Length
    modifies data
    ensures Prepended(data, at, Delimited(0x0a, EncodedLabel(m)), i)
  {
    var b := EncodedLabel(m);
    DelimitedSize(0x0a, b);
    hide Delimited, EncodedLabel;
    at := PutLabel(data, i, m);
    assert data[at..i] == b && data[i..] == old(data[i..]) by {
      assert data[at..] == b + old(data[i..]);
      assert data[at..i] == data[at..][..|b|] && data[i..] == data[at..][|b|..];
    }
    at := PutHeader(data, at, 0x0a, b);
  }

  method PutNumericField(data: array<byte>, i: nat, m: NumericLabel) returns (at: nat)
    requires |Delimited(0x12, EncodedNumeric(m))| <= i <= data.Length
    modifies data
    ensures Prepended(data, at, Delimited(0x12, EncodedNumeric(m)), i)
  {
    var b := EncodedNumeric(m);
    DelimitedSize(0x12, b);
    hide Delimited, EncodedNumeric;
    at := PutNumeric(data, i, m);
    assert data[at..i] == b && data[i..] == old(data[i..]) by {
      assert data[at..] == b + old(data[i..]);
      assert data[at..i] == data[at..][..|b|] && data[i..] == data[at..][|b|..];
    }
    at := PutHeader(data, at, 0x12, b);
  }

  method PutLabelFields(data: array<byte>, i: nat, ls: seq<Label>) returns (at: nat)
    requires |RepeatedBytes(0x0a, EncodedEach(ls))| <= i <= data.Length
    modifies data
    ensures Prepended(data, at, RepeatedBytes(0x0a, EncodedEach(ls)), i)
  {
    ghost var bs, rest := EncodedEach(ls), data[i..];
    RepeatedNone(0x0a, bs);
    hide Delimited, RepeatedBytes, EncodedLabel;
    at := i;
    var k := |ls|;
    while k > 0
      invariant 0 <= k <= |ls|
      invariant at + |RepeatedBytes(0x0a, bs[k..])| == i
      invariant data[at..] == RepeatedBytes(0x0a, bs[k..]) + rest
      invariant forall j :: 0 <= j < at ==> data[j] == old(data[j])
    {
      RepeatedSplit(0x0a, bs, k - 1);
      RepeatedLonger(0x0a, bs, k - 1);
      k := k - 1;
      at := PutLabelField(data, at, ls[k]);
      Assoc(Delimited(0x0a, bs[k]), RepeatedBytes(0x0a, bs[k + 1..]), rest);
    }
    assert bs[0..] == bs;
  }

  method PutNumericFields(data: array<byte>, i: nat, ls: seq<NumericLabel>) returns (at: nat)
    requires |RepeatedBytes(0x12, EncodedEachNumeric(ls))| <= i <= data.Length
    modifies data
    ensures Prepended(data, at, RepeatedBytes(0x12, EncodedEachNumeric(ls)), i)
  {
    ghost var bs, rest := EncodedEachNumeric(ls), data[i..];
    RepeatedNone(0x12, bs);
    hide Delimited, RepeatedBytes, EncodedNumeric;
    at := i;
    var k := |ls|;
    while k > 0
      invariant 0 <= k <= |ls|
      invariant at + |RepeatedBytes(0x12, bs[k..])| == i
      invariant data[at..] == RepeatedBytes(0x12, bs[k..]) + rest
      invariant forall j :: 0 <= j < at ==> data[j] == old(data[j])
    {
      RepeatedSplit(0x12, bs, k - 1);
      RepeatedLonger(0x12, bs, k - 1);
      k := k - 1;
      at := PutNumericField(data, at, ls[k]);
      Assoc(Delimited(0x12, bs[k]), RepeatedBytes(0x12, bs[k + 1..]), rest);
    }
    assert bs[0..] == bs;
  }

  /** The marshaller fills a buffer of SizeVT bytes exactly, with the encoding. */
  method MarshalVT(m: GlobalLabels) returns (data: array<byte>)
    ensures fresh(data) && data[..] == Encoded(m)
  {
    hide RepeatedBytes, EncodedEach, EncodedEachNumeric;
    var size := LabelsSizeVT(m);
    data := new byte[size];
    var i := PutBytes(data, size, m.unknown);
    assert data[i..] == m.unknown;
    i := PutNumericFields(data, i, m.numericLabels);
    assert data[i..] == RepeatedBytes(0x12, EncodedEachNumeric(m.numericLabels)) + m.unknown;
    i := PutLabelFields(data, i, m.labels);
    assert data[i..] == Encoded(m) && i == 0;
  }

  // ----- decoding loops

  lemma StringExtent(at: nat, s: Bytes, wireType: nat)
    ensures ReadString(at, s, wireType).Read? ==> 1 <= ReadString(at, s, wireType).size <= |s|
  {
    hide ReadVarint, ToInt64;
    ReadWithin(s, 0, 0, 64);
  }

  lemma {:induction false} Fixed64sExtent(s: Bytes, left: int)
    ensures ReadFixed64s(s, left).Read? ==> ReadFixed64s(s, left).size <= |s|
    decreases |s|
  {
    if left > 0 && |s| >= 8 {
      Fixed64sExtent(s[8..], left - 8);
    }
  }

  lemma DoublesExtent(at: nat, s: Bytes, wireType: nat)
    ensures ReadDoubles(at, s, wireType).Read? ==> ReadDoubles(at, s, wireType).size <= |s|
  {
    hide ReadVarint, ToInt64, ReadFixed64s;
    ReadWithin(s, 0, 0, 64);
    if wireType == 2 && ReadLength(at, s).Read? {
      Fixed64sExtent(s[ReadLength(at, s).size..], ReadLength(at, s).value);
    }
  }

  lemma LabelFieldExtent(at: nat, s: Bytes, m: Label)
    ensures DecodeLabelField(at, s, m).Read? ==> 1 <= DecodeLabelField(at, s, m).size <= |s|
  {
    hide ReadVarint, ReadUnknown, ReadString, ToInt32;
    ReadWithin(s, 0, 0, 64);
    UnknownExtent(at, s);
    if ReadTag(s).Read? { StringExtent(at + ReadTag(s).size, s[ReadTag(s).size..], ReadTag(s).value.wireType); }
  }

  lemma NumericFieldExtent(at: nat, s: Bytes, m: NumericLabel)
    ensures DecodeNumericField(at, s, m).Read? ==> 1 <= DecodeNumericField(at, s, m).size <= |s|
  {
    hide ReadVarint, ReadUnknown, ReadString, ReadDoubles, ToInt32;
    ReadWithin(s, 0, 0, 64);
    UnknownExtent(at, s);
    if ReadTag(s).Read? {
      StringExtent(at + ReadTag(s).size, s[ReadTag(s).size..], ReadTag(s).value.wireType);
      DoublesExtent(at + ReadTag(s).size, s[ReadTag(s).size..], ReadTag(s).value.wireType);
    }
  }

  lemma LabelsFieldExtent(at: nat, s: Bytes, m: GlobalLabels)
    ensures DecodeLabelsField(at, s, m).Read? ==> 1 <= DecodeLabelsField(at, s, m).size <= |s|
  {
    hide ReadVarint, ReadUnknown, ReadString, DecodeAll, ToInt32;
    ReadWithin(s, 0, 0, 64);
    UnknownExtent(at, s);
    if ReadTag(s).Read? { StringExtent(at + ReadTag(s).size, s[ReadTag(s).size..], ReadTag(s).value.wireType); }
  }

  method DecodeTag(data: Bytes, i: nat) returns (t: Read<Tag>)
    requires i <= |data|
    ensures t == ReadTag(data[i..])
    ensures t.Read? ==> i + t.size <= |data|
  {
    hide ReadVarint, ToInt32;
    var r := DecodeVarint(data, i, 64);
    if r.Failed? {
      return Failed(r.error);
    }
    var fieldNum, wireType := ToInt32(r.value / 8), r.value % 8;
    if wireType == 4 {
      return Failed(EndGroup);
    }
    if fieldNum <= 0 {
      return Failed(IllegalTag);
    }
    return Read(Tag(fieldNum, wireType), r.size);
  }

  method DecodeLength(data: Bytes, i: nat) returns (l: Read<nat>)
    requires i <= |data|
    ensures l == ReadLength(i, data[i..])
    ensures l.Read? ==> i + l.size + l.value <= |data|
  {
    hide ReadVarint, ToInt64;
    var r := DecodeVarint(data, i, 64);
    if r.Failed? {
      return r;
    }
    var length := ToInt64(r.value);
    if length < 0 {
      return Failed(InvalidLength);
    }
    if i + r.size + length > MAX_INT64 {
      return Failed(InvalidLength);
    }
    if i + r.size + length > |data| {
      return Failed(UnexpectedEOF);
    }
    return Read(length, r.size);
  }

  method DecodeString(data: Bytes, i: nat, wireType: nat) returns (r: Read<Bytes>)
    requires i <= |data|
    ensures r == ReadString(i, data[i..], wireType)
  {
    hide ReadLength;
    if wireType != 2 {
      return Failed(WrongWireType);
    }
    var l := DecodeLength(data, i);
    if l.Failed? {
      return Failed(l.error);
    }
    assert data[i..][l.size..l.size + l.value] == data[i + l.size..i + l.size + l.value];
    return Read(data[i + l.size..i + l.size + l.value], l.size + l.value);
  }

  method DecodeUnknown(data: Bytes, i: nat) returns (r: Read<Bytes>)
    requires i <= |data|
    ensures r == ReadUnknown(i, data[i..])
  {
    hide Skip;
    var skippy := SkipRecord(data, i);
    if skippy.Failed? {
      return Failed(skippy.error);
    }
    if i + skippy.size > MAX_INT64 {
      return Failed(InvalidLength);
    }
    if i + skippy.size > |data| {
      return Failed(UnexpectedEOF);
    }
    assert data[i..][..skippy.size] == data[i..i + skippy.size];
    return Read(data[i..i + skippy.size], skippy.size);
  }

  /** Packed doubles while the index is below the end of the field. */
  method DecodeDoubles(data: Bytes, i: nat, wireType: nat) returns (r: Read<seq<nat>>)
    requires i <= |data|
    ensures r == ReadDoubles(i, data[i..], wireType)
  {
    hide ReadLength, FromLittleEndian;
    if wireType == 1 {
      if i + 8 > |data| {
        return Failed(UnexpectedEOF);
      }
      assert data[i..][..8] == data[i..i + 8];
      return Read([FromLittleEndian(data[i..i + 8])], 8);
    }
    if wireType != 2 {
      return Failed(WrongWireType);
    }
    var l := DecodeLength(data, i);
    if l.Failed? {
      return Failed(l.error);
    }
    var start := i + l.size;
    assert data[i..][l.size..] == data[start..];
    var xs := DecodeFixed64s(data, start, l.value);
    return xs.After(l.size);
  }

  method DecodeFixed64s(data: Bytes, start: nat, packedLen: nat) returns (r: Read<seq<nat>>)
    requires start <= |data|
    ensures r == ReadFixed64s(data[start..], packedLen)
  {
    hide FromLittleEndian;
    var j: nat, vs: seq<nat> := start, [];
    ghost var all := ReadFixed64s(data[start..], packedLen);
    assert all.Read? ==> [] + all.value == all.value;
    while j < start + packedLen
      invariant start <= j <= |data|
      invariant all == Following(vs, j - start, ReadFixed64s(data[j..], start + packedLen - j))
      decreases start + packedLen - j
    {
      if j + 8 > |data| {
        return Failed(UnexpectedEOF);
      }
      assert data[j..][..8] == data[j..j + 8] && data[j..][8..] == data[j + 8..];
      var v := FromLittleEndian(data[j..j + 8]);
      FollowingStep(vs, j - start, v, 8, ReadFixed64s(data[j + 8..], start + packedLen - (j + 8)));
      vs := vs + [v];
      j := j + 8;
    }
    assert vs + [] == vs;
    return Read(vs, j - start);
  }

  method UnmarshalLabelField(data: Bytes, i: nat, m: Label) returns (r: Read<Label>)
    requires i <= |data|
    ensures r == DecodeLabelField(i, data[i..], m)
  {
    hide ReadTag, ReadString, ReadUnknown;
    var t := DecodeTag(data, i);
    if t.Failed? {
      return Failed(t.error);
    }
    if t.value.field > 3 {
      var u := DecodeUnknown(data, i);
      return if u.Failed? then Failed(u.error) else Read(m.(unknown := m.unknown + u.value), u.size);
    }
    assert data[i..][t.size..] == data[i + t.size..];
    var b := DecodeString(data, i + t.size, t.value.wireType);
    if b.Failed? {
      return Failed(b.error);
    }
    var m' := if t.value.field == 1 then m.(key := b.value)
              else if t.value.field == 2 then m.(value := b.value)
              else m.(values := m.values + [b.value]);
    return Read(m', t.size + b.size);
  }

  method UnmarshalLabel(data: Bytes) returns (r: Read<Label>)
    ensures r == DecodeAll(DecodeLabelField, 0, data, EmptyLabel())
  {
    hide DecodeLabelField;
    var m, i := EmptyLabel(), 0;
    assert data[0..] == data;
    while i < |data|
      invariant 0 <= i <= |data|
      invariant DecodeAll(DecodeLabelField, 0, data, EmptyLabel()) == DecodeAll(DecodeLabelField, i, data[i..], m).After(i)
    {
      var f := UnmarshalLabelField(data, i, m);
      if f.Failed? {
        return f;
      }
      LabelFieldExtent(i, data[i..], m);
      assert data[i..][f.size..] == data[i + f.size..];
      m, i := f.value, i + f.size;
    }
    return Read(m, i);
  }

  method UnmarshalNumericField(data: Bytes, i: nat, m: NumericLabel) returns (r: Read<NumericLabel>)
    requires i <= |data|
    ensures r == DecodeNumericField(i, data[i..], m)
  {
    hide ReadTag, ReadString, ReadUnknown, ReadDoubles, FromLittleEndian;
    var t := DecodeTag(data, i);
    if t.Failed? {
      return Failed(t.error);
    }
    var at := i + t.size;
    assert data[i..][t.size..] == data[at..];
    if t.value.field == 1 {
      var b := DecodeString(data, at, t.value.wireType);
      return if b.Failed? then Failed(b.error) else Read(m.(key := b.value), t.size + b.size);
    } else if t.value.field == 2 {
      if t.value.wireType != 1 {
        return Failed(WrongWireType);
      }
      if at + 8 > |data| {
        return Failed(UnexpectedEOF);
      }
      assert data[at..][..8] == data[at..at + 8];
      return Read(m.(value := FromLittleEndian(data[at..at + 8])), t.size + 8);
    } else if t.value.field == 3 {
      var vs := DecodeDoubles(data, at, t.value.wireType);
      return if vs.Failed? then Failed(vs.error) else Read(m.(values := m.values + vs.value), t.size + vs.size);
    }
    var u := DecodeUnknown(data, i);
    return if u.Failed? then Failed(u.error) else Read(m.(unknown := m.unknown + u.value), u.size);
  }

  method UnmarshalNumeric(data: Bytes) returns (r: Read<NumericLabel>)
    ensures r == DecodeAll(DecodeNumericField, 0, data, EmptyNumeric())
  {
    hide DecodeNumericField;
    var m, i := EmptyNumeric(), 0;
    assert data[0..] == data;
    while i < |data|
      invariant 0 <= i <= |data|
      invariant DecodeAll(DecodeNumericField, 0, data, EmptyNumeric()) == DecodeAll(DecodeNumericField, i, data[i..], m).After(i)
    {
      var f := UnmarshalNumericField(data, i, m);
      if f.Failed? {
        return f;
      }
      NumericFieldExtent(i, data[i..], m);
      assert data[i..][f.size..] == data[i + f.size..];
      m, i := f.value, i + f.size;
    }
    return Read(m, i);
  }

  method UnmarshalLabelsField(data: Bytes, i: nat, m: GlobalLabels) returns (r: Read<GlobalLabels>)
    requires i <= |data|
    ensures r == DecodeLabelsField(i, data[i..], m)
  {
    hide ReadTag, ReadString, ReadUnknown, DecodeAll;
    var t := DecodeTag(data, i);
    if t.Failed? {
      return Failed(t.error);
    }
    if t.value.field > 2 {
      var u := DecodeUnknown(data, i);
      return if u.Failed? then Failed(u.error) else Read(m.(unknown := m.unknown + u.value), u.size);
    }
    assert data[i..][t.size..] == data[i + t.size..];
    var b := DecodeString(data, i + t.size, t.value.wireType);
    if b.Failed? {
      return Failed(b.error);
    }
    if t.value.field == 1 {
      var l := UnmarshalLabel(b.value);
      return if l.Failed? then Failed(l.error) else Read(m.(labels := m.labels + [l.value]), t.size + b.size);
    }
    var l := UnmarshalNumeric(b.value);
    return if l.Failed? then Failed(l.error) else Read(m.(numericLabels := m.numericLabels + [l.value]), t.size + b.size);
  }

  /** `UnmarshalVT` into a reset message. */
  method UnmarshalVT(data: Bytes) returns (r: Read<GlobalLabels>)
    ensures r == Decoded(data)
  {
    hide DecodeLabelsField;
    var m, i := EmptyLabels(), 0;
    assert data[0..] == data;
    while i < |data|
      invariant 0 <= i <= |data|
      invariant Decoded(data) == DecodeAll(DecodeLabelsField, i, data[i..], m).After(i)
    {
      var f := UnmarshalLabelsField(data, i, m);
      if f.Failed? {
        return f;
      }
      LabelsFieldExtent(i, data[i..], m);
      assert data[i..][f.size..] == data[i + f.size..];
      m, i := f.value, i + f.size;
    }
    return Read(m, i);
  }
}
