/** The label messages on the wire: `Label`, `NumericLabel` and `GlobalLabels`. */
module LabelWire {
  import opened Bits
  import opened Varint
  import opened Wire

  type Bytes = seq<byte>

  datatype Label = Label(key: Bytes, value: Bytes, values: seq<Bytes>, unknown: Bytes)

  /** Doubles are their 64-bit patterns. */
  datatype NumericLabel = NumericLabel(key: Bytes, value: nat, values: seq<nat>, unknown: Bytes)

  datatype GlobalLabels = GlobalLabels(labels: seq<Label>, numericLabels: seq<NumericLabel>, unknown: Bytes)

  function EmptyLabel(): Label { Label([], [], [], []) }
  function EmptyNumeric(): NumericLabel { NumericLabel([], 0, [], []) }
  function EmptyLabels(): GlobalLabels { GlobalLabels([], [], []) }

  // ----- encoding

  /** A string field; the empty string is left out. */
  function StringBytes(tag: byte, b: Bytes): Bytes {
    if b == [] then [] else Delimited(tag, b)
  }

  /** A repeated field of strings or messages; empty elements are kept. */
  function RepeatedBytes(tag: byte, bs: seq<Bytes>): Bytes {
    if bs == [] then [] else Delimited(tag, bs[0]) + RepeatedBytes(tag, bs[1..])
  }

  function LittleEndian(v: nat, n: nat): (r: Bytes)
    ensures |r| == n
  {
    if n == 0 then [] else [v % 256] + LittleEndian(v / 256, n - 1)
  }

  /** `Value != 0` is false for both zeros, and true for a NaN. */
  function IsZero(bits: nat): bool {
    bits == 0 || bits == 0x8000_0000_0000_0000
  }

  function DoubleBytes(tag: byte, v: nat): Bytes {
    if IsZero(v) then [] else [tag] + LittleEndian(v, 8)
  }

  function DoublesBody(vs: seq<nat>): (r: Bytes)
    ensures |r| == 8 * |vs|
  {
    if vs == [] then [] else LittleEndian(vs[0], 8) + DoublesBody(vs[1..])
  }

  function DoublesBytes(tag: byte, vs: seq<nat>): Bytes {
    if vs == [] then [] else Delimited(tag, DoublesBody(vs))
  }

  function EncodedLabel(m: Label): Bytes {
    StringBytes(0x0a, m.key) + (StringBytes(0x12, m.value) + (RepeatedBytes(0x1a, m.values) + m.unknown))
  }

  function EncodedNumeric(m: NumericLabel): Bytes {
    StringBytes(0x0a, m.key) + (DoubleBytes(0x11, m.value) + (DoublesBytes(0x1a, m.values) + m.unknown))
  }

  function EncodedEach(ls: seq<Label>): (r: seq<Bytes>)
    ensures |r| == |ls| && forall i :: 0 <= i < |r| ==> r[i] == EncodedLabel(ls[i])
  {
    seq(|ls|, i requires 0 <= i < |ls| => EncodedLabel(ls[i]))
  }

  function EncodedEachNumeric(ls: seq<NumericLabel>): (r: seq<Bytes>)
    ensures |r| == |ls| && forall i :: 0 <= i < |r| ==> r[i] == EncodedNumeric(ls[i])
  {
    seq(|ls|, i requires 0 <= i < |ls| => EncodedNumeric(ls[i]))
  }

  function Encoded(m: GlobalLabels): Bytes {
    RepeatedBytes(0x0a, EncodedEach(m.labels))
    + (RepeatedBytes(0x12, EncodedEachNumeric(m.numericLabels)) + m.unknown)
  }

  // ----- decoding

  function FromLittleEndian(s: Bytes): nat {
    if s == [] then 0 else s[0] + 256 * FromLittleEndian(s[1..])
  }

  function ReadFixed64(s: Bytes): Read<nat> {
    if |s| < 8 then Failed(UnexpectedEOF) else Read(FromLittleEndian(s[..8]), 8)
  }

  /** Packed doubles until at least `left` bytes are used. */
  function ReadFixed64s(s: Bytes, left: int): Read<seq<nat>>
    decreases |s|
  {
    if left <= 0 then Read([], 0)
    else if |s| < 8 then Failed(UnexpectedEOF)
    else
      var rest := ReadFixed64s(s[8..], left - 8);
      if rest.Failed? then rest else Read([FromLittleEndian(s[..8])] + rest.value, rest.size + 8)
  }

  function ReadDoubles(at: nat, s: Bytes, wireType: nat): Read<seq<nat>> {
    match wireType
    case 1 =>
      var r := ReadFixed64(s);
      if r.Failed? then Failed(r.error) else Read([r.value], r.size)
    case 2 =>
      var l := ReadLength(at, s);
      if l.Failed? then Failed(l.error) else ReadFixed64s(s[l.size..], l.value).After(l.size)
    case _ => Failed(WrongWireType)
  }

  function ReadString(at: nat, s: Bytes, wireType: nat): Read<Bytes> {
    if wireType != 2 then Failed(WrongWireType) else ReadBytes(at, s)
  }

  function DecodeLabelField(at: nat, s: Bytes, m: Label): Read<Label> {
    var t := ReadTag(s);
    if t.Failed? then Failed(t.error)
    else
      ReadWithin(s, 0, 0, 64);
      if t.value.field > 3 then
        var r := ReadUnknown(at, s);
        if r.Failed? then Failed(r.error) else Read(m.(unknown := m.unknown + r.value), r.size)
      else
        var r := ReadString(at + t.size, s[t.size..], t.value.wireType);
        if r.Failed? then Failed(r.error)
        else
          var m' := match t.value.field
            case 1 => m.(key := r.value)
            case 2 => m.(value := r.value)
            case _ => m.(values := m.values + [r.value]);
          Read(m', t.size + r.size)
  }

  function DecodeNumericField(at: nat, s: Bytes, m: NumericLabel): Read<NumericLabel> {
    var t := ReadTag(s);
    if t.Failed? then Failed(t.error)
    else
      ReadWithin(s, 0, 0, 64);
      var rest := s[t.size..];
      match t.value.field
      case 1 =>
        var r := ReadString(at + t.size, rest, t.value.wireType);
        if r.Failed? then Failed(r.error) else Read(m.(key := r.value), t.size + r.size)
      case 2 =>
        if t.value.wireType != 1 then Failed(WrongWireType)
        else
          var r := ReadFixed64(rest);
          if r.Failed? then Failed(r.error) else Read(m.(value := r.value), t.size + r.size)
      case 3 =>
        var r := ReadDoubles(at + t.size, rest, t.value.wireType);
        if r.Failed? then Failed(r.error) else Read(m.(values := m.values + r.value), t.size + r.size)
      case _ =>
        var r := ReadUnknown(at, s);
        if r.Failed? then Failed(r.error) else Read(m.(unknown := m.unknown + r.value), r.size)
  }

  function DecodeLabelsField(at: nat, s: Bytes, m: GlobalLabels): Read<GlobalLabels> {
    var t := ReadTag(s);
    if t.Failed? then Failed(t.error)
    else
      ReadWithin(s, 0, 0, 64);
      if t.value.field > 2 then
        var r := ReadUnknown(at, s);
        if r.Failed? then Failed(r.error) else Read(m.(unknown := m.unknown + r.value), r.size)
      else
        var r := ReadString(at + t.size, s[t.size..], t.value.wireType);
        if r.Failed? then Failed(r.error)
        else if t.value.field == 1 then
          var l := DecodeAll(DecodeLabelField, 0, r.value, EmptyLabel());
          if l.Failed? then Failed(l.error) else Read(m.(labels := m.labels + [l.value]), t.size + r.size)
        else
          var l := DecodeAll(DecodeNumericField, 0, r.value, EmptyNumeric());
          if l.Failed? then Failed(l.error) else Read(m.(numericLabels := m.numericLabels + [l.value]), t.size + r.size)
  }

  function Decoded(s: Bytes): Read<GlobalLabels> {
    DecodeAll(DecodeLabelsField, 0, s, EmptyLabels())
  }

  // ----- round trips

  ghost predicate EncodableNumeric(m: NumericLabel) {
    Uint64(m.value) && (forall i :: 0 <= i < |m.values| ==> Uint64(m.values[i])) && m.unknown == []
  }

  /** A scalar negative zero is not written, so it is read back as zero. */
  function NormalNumeric(m: NumericLabel): NumericLabel {
    if IsZero(m.value) then m.(value := 0) else m
  }

  lemma ReadsDelimited(at: nat, field: nat, b: Bytes, tail: Bytes)
    requires 1 <= field < 16 && at + |Delimited(8 * field + 2, b)| <= MAX_INT64
    ensures var s := Delimited(8 * field + 2, b) + tail;
            && ReadTag(s) == Read(Tag(field, 2), 1)
            && |s| >= 1
            && ReadLength(at + 1, s[1..]) == Read(|b|, |VarintBytes(|b|)|)
            && ReadBytes(at + 1, s[1..]) == Read(b, |Delimited(8 * field + 2, b)| - 1)
            && s[1..] == VarintBytes(|b|) + (b + tail)
  {
    hide ReadTag, ReadLength, ReadBytes, VarintBytes;
    var l := VarintBytes(|b|);
    DelimitedSize(8 * field + 2, b);
    assert Delimited(8 * field + 2, b) + tail == [8 * field + 2] + (l + (b + tail));
    ReadsTag(field, 2, l + (b + tail));
    ReadsLength(at + 1, b, tail);
    ReadsBytes(at + 1, b, tail);
    assert ([8 * field + 2] + (l + (b + tail)))[1..] == l + (b + tail);
  }

  lemma {:induction false} ReadsLittleEndian(v: nat, n: nat)
    requires v < Pow2(8 * n)
    ensures FromLittleEndian(LittleEndian(v, n)) == v
  {
    if n > 0 {
      Pow2Add(8 * (n - 1), 8);
      SmallPowers();
      hide Pow2;
      ReadsLittleEndian(v / 256, n - 1);
      assert LittleEndian(v, n)[1..] == LittleEndian(v / 256, n - 1);
    }
  }

  lemma ReadsFixed64(v: nat, tail: Bytes)
    requires Uint64(v)
    ensures ReadFixed64(LittleEndian(v, 8) + tail) == Read(v, 8)
    ensures (LittleEndian(v, 8) + tail)[8..] == tail
  {
    LargePowers();
    SmallPowers();
    Pow2Add(63, 1);
    hide Pow2;
    ReadsLittleEndian(v, 8);
    hide LittleEndian, FromLittleEndian;
    assert (LittleEndian(v, 8) + tail)[..8] == LittleEndian(v, 8);
  }

  lemma {:induction false} ReadsFixed64s(vs: seq<nat>, tail: Bytes)
    requires forall i :: 0 <= i < |vs| ==> Uint64(vs[i])
    ensures ReadFixed64s(DoublesBody(vs) + tail, 8 * |vs|) == Read(vs, 8 * |vs|)
  {
    hide LittleEndian, FromLittleEndian;
    if vs != [] {
      var rest := DoublesBody(vs[1..]);
      assert DoublesBody(vs) + tail == LittleEndian(vs[0], 8) + (rest + tail);
      ReadsFixed64(vs[0], rest + tail);
      ReadsFixed64s(vs[1..], tail);
      assert [vs[0]] + vs[1..] == vs;
    }
  }

  // A label

  lemma LabelString(at: nat, field: nat, b: Bytes, tail: Bytes, m: Label)
    requires 1 <= field <= 3 && at + |Delimited(8 * field + 2, b)| <= MAX_INT64
    ensures DecodeLabelField(at, Delimited(8 * field + 2, b) + tail, m)
            == Read(if field == 1 then m.(key := b) else if field == 2 then m.(value := b)
                    else m.(values := m.values + [b]), |Delimited(8 * field + 2, b)|)
  {
    hide ReadTag, ReadLength, ReadBytes, ReadUnknown, Delimited;
    ReadsDelimited(at, field, b, tail);
  }

  lemma LabelStringStep(at: nat, field: nat, b: Bytes, tail: Bytes, m: Label, m': Label)
    requires 1 <= field <= 2 && at + |StringBytes(8 * field + 2, b)| <= MAX_INT64
    requires if field == 1 then m.key == [] && m' == m.(key := b) else m.value == [] && m' == m.(value := b)
    ensures var record := StringBytes(8 * field + 2, b);
            DecodeAll(DecodeLabelField, at, record + tail, m)
            == DecodeAll(DecodeLabelField, at + |record|, tail, m').After(|record|)
  {
    hide DecodeLabelField;
    if b == [] {
      assert [] + tail == tail;
    } else {
      LabelString(at, field, b, tail, m);
      DecodeOne(DecodeLabelField, at, Delimited(8 * field + 2, b), tail, m, m');
    }
  }

  lemma {:induction false} LabelValuesStep(at: nat, bs: seq<Bytes>, tail: Bytes, m: Label)
    requires at + |RepeatedBytes(0x1a, bs)| <= MAX_INT64
    ensures var record := RepeatedBytes(0x1a, bs);
            DecodeAll(DecodeLabelField, at, record + tail, m)
            == DecodeAll(DecodeLabelField, at + |record|, tail, m.(values := m.values + bs)).After(|record|)
    decreases |bs|
  {
    hide DecodeLabelField, Delimited, DecodeAll;
    if bs == [] {
      assert [] + tail == tail && m.values + [] == m.values;
    } else {
      var first, rest := Delimited(0x1a, bs[0]), RepeatedBytes(0x1a, bs[1..]);
      var m' := m.(values := m.values + [bs[0]]);
      assert RepeatedBytes(0x1a, bs) + tail == first + (rest + tail);
      LabelString(at, 3, bs[0], rest + tail, m);
      DelimitedSize(0x1a, bs[0]);
      DecodeOne(DecodeLabelField, at, first, rest + tail, m, m');
      LabelValuesStep(at + |first|, bs[1..], tail, m');
      assert m.values + [bs[0]] + bs[1..] == m.values + bs;
    }
  }

  lemma {:induction false} LabelRoundTrip(m: Label)
    requires m.unknown == [] && |EncodedLabel(m)| <= MAX_INT64
    ensures DecodeAll(DecodeLabelField, 0, EncodedLabel(m), EmptyLabel()) == Read(m, |EncodedLabel(m)|)
  {
    hide DecodeLabelField, DecodeAll, StringBytes, RepeatedBytes;
    var f1, f2, f3 := StringBytes(0x0a, m.key), StringBytes(0x12, m.value), RepeatedBytes(0x1a, m.values);
    var t2 := f3 + m.unknown;
    var t1 := f2 + t2;
    var m1 := EmptyLabel().(key := m.key);
    var m2 := m1.(value := m.value);
    LabelStringStep(0, 1, m.key, t1, EmptyLabel(), m1);
    LabelStringStep(|f1|, 2, m.value, t2, m1, m2);
    LabelValuesStep(|f1| + |f2|, m.values, m.unknown, m2);
    DecodeNone(DecodeLabelField, |f1| + |f2| + |f3|, m);
    assert [] + m.values == m.values;
  }

  // A numeric label

  lemma NumericKey(at: nat, b: Bytes, tail: Bytes, m: NumericLabel)
    requires at + |Delimited(0x0a, b)| <= MAX_INT64
    ensures DecodeNumericField(at, Delimited(0x0a, b) + tail, m) == Read(m.(key := b), |Delimited(0x0a, b)|)
  {
    hide ReadTag, ReadLength, ReadBytes, ReadUnknown, Delimited, ReadDoubles, ReadFixed64;
    ReadsDelimited(at, 1, b, tail);
  }

  lemma NumericKeyStep(at: nat, b: Bytes, tail: Bytes, m: NumericLabel)
    requires at + |StringBytes(0x0a, b)| <= MAX_INT64 && m.key == []
    ensures var record := StringBytes(0x0a, b);
            DecodeAll(DecodeNumericField, at, record + tail, m)
            == DecodeAll(DecodeNumericField, at + |record|, tail, m.(key := b)).After(|record|)
  {
    hide DecodeNumericField, Delimited, DecodeAll;
    if b == [] {
      assert [] + tail == tail;
    } else {
      NumericKey(at, b, tail, m);
      DelimitedSize(0x0a, b);
      DecodeOne(DecodeNumericField, at, Delimited(0x0a, b), tail, m, m.(key := b));
    }
  }

  lemma NumericValueStep(at: nat, v: nat, tail: Bytes, m: NumericLabel)
    requires Uint64(v) && m.value == 0
    ensures var record := DoubleBytes(0x11, v);
            DecodeAll(DecodeNumericField, at, record + tail, m)
            == DecodeAll(DecodeNumericField, at + |record|, tail, m.(value := if IsZero(v) then 0 else v)).After(|record|)
  {
    if IsZero(v) {
      assert [] + tail == tail;
    } else {
      hide ReadTag, ReadString, ReadUnknown, LittleEndian, ReadDoubles, ReadFixed64, DecodeAll;
      var record := [0x11] + LittleEndian(v, 8);
      assert record + tail == [0x11] + (LittleEndian(v, 8) + tail);
      ReadsTag(2, 1, LittleEndian(v, 8) + tail);
      ReadsFixed64(v, tail);
      assert (record + tail)[1..] == LittleEndian(v, 8) + tail;
      DecodeOne(DecodeNumericField, at, record, tail, m, m.(value := v));
    }
  }

  lemma ReadsPackedDoubles(at: nat, vs: seq<nat>, tail: Bytes)
    requires forall i :: 0 <= i < |vs| ==> Uint64(vs[i])
    requires at + |VarintBytes(|DoublesBody(vs)|)| + |DoublesBody(vs)| <= MAX_INT64
    ensures var body := DoublesBody(vs);
            ReadDoubles(at, VarintBytes(|body|) + (body + tail), 2) == Read(vs, |VarintBytes(|body|)| + |body|)
  {
    var body := DoublesBody(vs);
    var l := VarintBytes(|body|);
    hide ReadFixed64, ReadFixed64s, DoublesBody, VarintBytes, ReadLength;
    ReadsLength(at, body, tail);
    ReadsFixed64s(vs, tail);
    assert (l + (body + tail))[|l|..] == body + tail;
  }

  lemma ReadsDoubles(at: nat, vs: seq<nat>, tail: Bytes, m: NumericLabel)
    requires forall i :: 0 <= i < |vs| ==> Uint64(vs[i])
    requires at + |Delimited(0x1a, DoublesBody(vs))| <= MAX_INT64
    ensures DecodeNumericField(at, Delimited(0x1a, DoublesBody(vs)) + tail, m)
            == Read(m.(values := m.values + vs), |Delimited(0x1a, DoublesBody(vs))|)
  {
    hide ReadTag, ReadString, ReadUnknown, ReadFixed64, ReadDoubles, DoublesBody, VarintBytes, ReadLength, Delimited;
    hide ReadBytes;
    var body := DoublesBody(vs);
    DelimitedSize(0x1a, body);
    ReadsDelimited(at, 3, body, tail);
    ReadsPackedDoubles(at + 1, vs, tail);
  }

  lemma NumericValuesStep(at: nat, vs: seq<nat>, tail: Bytes, m: NumericLabel)
    requires (forall i :: 0 <= i < |vs| ==> Uint64(vs[i])) && at + |DoublesBytes(0x1a, vs)| <= MAX_INT64
    ensures var record := DoublesBytes(0x1a, vs);
            DecodeAll(DecodeNumericField, at, record + tail, m)
            == DecodeAll(DecodeNumericField, at + |record|, tail, m.(values := m.values + vs)).After(|record|)
  {
    hide DecodeNumericField, DecodeAll, DoublesBody, Delimited;
    if vs == [] {
      assert [] + tail == tail && m.values + [] == m.values;
    } else {
      ReadsDoubles(at, vs, tail, m);
      DelimitedSize(0x1a, DoublesBody(vs));
      DecodeOne(DecodeNumericField, at, Delimited(0x1a, DoublesBody(vs)), tail, m, m.(values := m.values + vs));
    }
  }

  lemma {:induction false} NumericRoundTrip(m: NumericLabel)
    requires EncodableNumeric(m) && |EncodedNumeric(m)| <= MAX_INT64
    ensures DecodeAll(DecodeNumericField, 0, EncodedNumeric(m), EmptyNumeric())
            == Read(NormalNumeric(m), |EncodedNumeric(m)|)
  {
    hide DecodeNumericField, DecodeAll, StringBytes, DoubleBytes, DoublesBytes;
    var f1, f2, f3 := StringBytes(0x0a, m.key), DoubleBytes(0x11, m.value), DoublesBytes(0x1a, m.values);
    var t2 := f3 + m.unknown;
    var t1 := f2 + t2;
    var m1 := EmptyNumeric().(key := m.key);
    NumericKeyStep(0, m.key, t1, EmptyNumeric());
    NumericValueStep(|f1|, m.value, t2, m1);
    NumericValuesStep(|f1| + |f2|, m.values, m.unknown, m1.(value := NormalNumeric(m).value));
    DecodeNone(DecodeNumericField, |f1| + |f2| + |f3|, NormalNumeric(m));
    assert [] + m.values == m.values;
  }

  // All labels

  /** Label messages as the program makes them: no unknown fields, 64-bit patterns, and a size that a
      slice can have. */
  ghost predicate Encodable(m: GlobalLabels) {
    && (forall i :: 0 <= i < |m.labels| ==> m.labels[i].unknown == [])
    && (forall i :: 0 <= i < |m.numericLabels| ==> EncodableNumeric(m.numericLabels[i]))
    && m.unknown == [] && |Encoded(m)| <= MAX_INT64
  }

  function NormalEach(ls: seq<NumericLabel>): (r: seq<NumericLabel>)
    ensures |r| == |ls| && forall i :: 0 <= i < |r| ==> r[i] == NormalNumeric(ls[i])
  {
    seq(|ls|, i requires 0 <= i < |ls| => NormalNumeric(ls[i]))
  }

  function Normal(m: GlobalLabels): GlobalLabels {
    m.(numericLabels := NormalEach(m.numericLabels))
  }

  lemma ReadsLabel(at: nat, l: Label, tail: Bytes, m: GlobalLabels)
    requires l.unknown == [] && at + |Delimited(0x0a, EncodedLabel(l))| <= MAX_INT64
    ensures DecodeLabelsField(at, Delimited(0x0a, EncodedLabel(l)) + tail, m)
            == Read(m.(labels := m.labels + [l]), |Delimited(0x0a, EncodedLabel(l))|)
  {
    hide ReadTag, ReadLength, ReadBytes, ReadUnknown, Delimited, DecodeAll, EncodedLabel;
    ReadsDelimited(at, 1, EncodedLabel(l), tail);
    DelimitedSize(0x0a, EncodedLabel(l));
    LabelRoundTrip(l);
  }

  lemma ReadsNumeric(at: nat, l: NumericLabel, tail: Bytes, m: GlobalLabels)
    requires EncodableNumeric(l) && at + |Delimited(0x12, EncodedNumeric(l))| <= MAX_INT64
    ensures DecodeLabelsField(at, Delimited(0x12, EncodedNumeric(l)) + tail, m)
            == Read(m.(numericLabels := m.numericLabels + [NormalNumeric(l)]), |Delimited(0x12, EncodedNumeric(l))|)
  {
    hide ReadTag, ReadLength, ReadBytes, ReadUnknown, Delimited, DecodeAll, EncodedNumeric;
    ReadsDelimited(at, 2, EncodedNumeric(l), tail);
    DelimitedSize(0x12, EncodedNumeric(l));
    NumericRoundTrip(l);
  }

  lemma LabelsCons(ls: seq<Label>, tail: Bytes)
    requires ls != []
    ensures RepeatedBytes(0x0a, EncodedEach(ls)) + tail
            == Delimited(0x0a, EncodedLabel(ls[0])) + (RepeatedBytes(0x0a, EncodedEach(ls[1..])) + tail)
  {
    hide Delimited, EncodedLabel;
    assert EncodedEach(ls)[1..] == EncodedEach(ls[1..]);
  }

  lemma {:induction false} LabelsStep(at: nat, ls: seq<Label>, tail: Bytes, m: GlobalLabels)
    requires forall i :: 0 <= i < |ls| ==> ls[i].unknown == []
    requires at + |RepeatedBytes(0x0a, EncodedEach(ls))| <= MAX_INT64
    ensures var s := RepeatedBytes(0x0a, EncodedEach(ls));
            DecodeAll(DecodeLabelsField, at, s + tail, m)
            == DecodeAll(DecodeLabelsField, at + |s|, tail, m.(labels := m.labels + ls)).After(|s|)
    decreases |ls|
  {
    hide DecodeLabelsField, DecodeAll, Delimited, EncodedLabel;
    if ls == [] {
      assert [] + tail == tail && m.labels + [] == m.labels;
    } else {
      LabelsCons(ls, tail);
      LabelsCons(ls, []);
      hide RepeatedBytes, EncodedEach;
      var first, rest := Delimited(0x0a, EncodedLabel(ls[0])), RepeatedBytes(0x0a, EncodedEach(ls[1..]));
      var m' := m.(labels := m.labels + [ls[0]]);
      ReadsLabel(at, ls[0], rest + tail, m);
      DelimitedSize(0x0a, EncodedLabel(ls[0]));
      DecodeOne(DecodeLabelsField, at, first, rest + tail, m, m');
      LabelsStep(at + |first|, ls[1..], tail, m');
      Assoc(m.labels, [ls[0]], ls[1..]);
      assert [ls[0]] + ls[1..] == ls;
    }
  }

  lemma NumericsCons(ls: seq<NumericLabel>, tail: Bytes)
    requires ls != []
    ensures RepeatedBytes(0x12, EncodedEachNumeric(ls)) + tail
            == Delimited(0x12, EncodedNumeric(ls[0])) + (RepeatedBytes(0x12, EncodedEachNumeric(ls[1..])) + tail)
    ensures NormalEach(ls) == [NormalNumeric(ls[0])] + NormalEach(ls[1..])
  {
    hide Delimited, EncodedNumeric, NormalNumeric;
    assert EncodedEachNumeric(ls)[1..] == EncodedEachNumeric(ls[1..]);
  }

  lemma {:induction false} NumericsStep(at: nat, ls: seq<NumericLabel>, tail: Bytes, m: GlobalLabels)
    requires forall i :: 0 <= i < |ls| ==> EncodableNumeric(ls[i])
    requires at + |RepeatedBytes(0x12, EncodedEachNumeric(ls))| <= MAX_INT64
    ensures var s := RepeatedBytes(0x12, EncodedEachNumeric(ls));
            DecodeAll(DecodeLabelsField, at, s + tail, m)
            == DecodeAll(DecodeLabelsField, at + |s|, tail, m.(numericLabels := m.numericLabels + NormalEach(ls))).After(|s|)
    decreases |ls|
  {
    hide DecodeLabelsField, DecodeAll, Delimited, EncodableNumeric, EncodedNumeric, NormalNumeric;
    if ls == [] {
      assert [] + tail == tail && m.numericLabels + [] == m.numericLabels;
    } else {
      NumericsCons(ls, tail);
      NumericsCons(ls, []);
      hide RepeatedBytes, EncodedEachNumeric, NormalEach;
      var first, rest := Delimited(0x12, EncodedNumeric(ls[0])), RepeatedBytes(0x12, EncodedEachNumeric(ls[1..]));
      var x := NormalNumeric(ls[0]);
      var m' := m.(numericLabels := m.numericLabels + [x]);
      ReadsNumeric(at, ls[0], rest + tail, m);
      DelimitedSize(0x12, EncodedNumeric(ls[0]));
      DecodeOne(DecodeLabelsField, at, first, rest + tail, m, m');
      NumericsStep(at + |first|, ls[1..], tail, m');
      Assoc(m.numericLabels, [x], NormalEach(ls[1..]));
    }
  }

  /** Decoding gives back every label, in order, up to the sign of a scalar zero. */
  lemma {:induction false} RoundTrip(m: GlobalLabels)
    requires Encodable(m)
    ensures Decoded(Encoded(m)) == Read(Normal(m), |Encoded(m)|)
  {
    hide DecodeLabelsField, DecodeAll, RepeatedBytes, NormalNumeric, EncodableNumeric;
    var f1, f2 := RepeatedBytes(0x0a, EncodedEach(m.labels)), RepeatedBytes(0x12, EncodedEachNumeric(m.numericLabels));
    LabelsStep(0, m.labels, f2 + m.unknown, EmptyLabels());
    NumericsStep(|f1|, m.numericLabels, m.unknown, EmptyLabels().(labels := m.labels));
    DecodeNone(DecodeLabelsField, |f1| + |f2|, Normal(m));
    assert [] + m.labels == m.labels && [] + NormalEach(m.numericLabels) == NormalEach(m.numericLabels);
  }

  /** The encoding does not see the sign of a scalar zero. */
  lemma {:induction false} EncodedNormal(m: GlobalLabels)
    ensures Encoded(Normal(m)) == Encoded(m)
  {
    hide StringBytes, DoublesBytes, RepeatedBytes;
    assert EncodedEachNumeric(NormalEach(m.numericLabels)) == EncodedEachNumeric(m.numericLabels);
  }
}
