/** The generated `HDRHistogram` code: sizing, backward buffer filling and the decoding loop. */
module HdrMarshal {
  import opened Bits
  import opened Varint
  import opened Wire
  import opened WireLoops
  import opened HdrWire

  // ----- size

  method PackedSize(xs: seq<int>) returns (l: nat)
    ensures l == |PackedBody(xs)|
  {
    l := 0;
    for i := 0 to |xs|
      invariant l + |PackedBody(xs[i..])| == |PackedBody(xs)|
    {
      SovIsLength(ToUint64(xs[i]));
      assert xs[i..][0] == xs[i] && xs[i..][1..] == xs[i + 1..];
      l := l + Sov(ToUint64(xs[i]));
    }
  }

  method SizeVT(m: Message) returns (n: nat)
    ensures n == |Encoded(m)|
  {
    hide PackedBody, VarintBytes, Sov;
    SovIsLength(ToUint64(m.lowest));
    SovIsLength(ToUint64(m.highest));
    SovIsLength(ToUint64(m.significant));
    n := 0;
    if m.lowest != 0 {
      n := n + 1 + Sov(ToUint64(m.lowest));
    }
    if m.highest != 0 {
      n := n + 1 + Sov(ToUint64(m.highest));
    }
    if m.significant != 0 {
      n := n + 1 + Sov(ToUint64(m.significant));
    }
    if |m.counts| > 0 {
      var l := PackedSize(m.counts);
      SovIsLength(l);
      n := n + 1 + Sov(l) + l;
    }
    if |m.buckets| > 0 {
      var l := PackedSize(m.buckets);
      SovIsLength(l);
      n := n + 1 + Sov(l) + l;
    }
    n := n + |m.unknown|;
  }

  // ----- backward marshaller

  method PutScalar(data: array<byte>, i: nat, tag: byte, v: int) returns (at: nat)
    requires |ScalarBytes(tag, v)| <= i <= data.Length
    modifies data
    ensures Prepended(data, at, ScalarBytes(tag, v), i)
  {
    hide VarintBytes, Sov, ToUint64;
    if v == 0 {
      return i;
    }
    SovIsLength(ToUint64(v));
    ghost var rest := data[i..];
    at := EncodeVarint(data, i, ToUint64(v));
    at := PutTag(data, at, tag);
    Assoc([tag], VarintBytes(ToUint64(v)), rest);
  }

  /** The packed elements, written forward into the space reserved for them. */
  method PutElements(data: array<byte>, i: nat, xs: seq<int>)
    requires i + |PackedBody(xs)| <= data.Length
    modifies data
    ensures forall j :: i <= j < i + |PackedBody(xs)| ==> data[j] == PackedBody(xs)[j - i]
    ensures forall j :: 0 <= j < i || i + |PackedBody(xs)| <= j < data.Length ==> data[j] == old(data[j])
  {
    ghost var full := PackedBody(xs);
    assert PackedBody([]) == [] && xs[0..] == xs;
    hide PackedBody, VarintBytes, Sov, ToUint64;
    var j := i;
    for k := 0 to |xs|
      invariant i <= j <= i + |full| && full[j - i..] == PackedBody(xs[k..])
      invariant forall t :: i <= t < j ==> data[t] == full[t - i]
      invariant forall t :: 0 <= t < i || i + |full| <= t < data.Length ==> data[t] == old(data[t])
    {
      PackedSplits(full, j - i, xs, k);
      SovIsLength(ToUint64(xs[k]));
      j := WriteVarint(data, j, ToUint64(xs[k]));
    }
    assert xs[|xs|..] == [];
    assert j == i + |full|;
  }

  lemma PackedSplits(full: seq<byte>, at: nat, xs: seq<int>, k: nat)
    requires at <= |full| && k < |xs| && full[at..] == PackedBody(xs[k..])
    ensures var v := VarintBytes(ToUint64(xs[k]));
            && at + |v| <= |full| && full[at + |v|..] == PackedBody(xs[k + 1..])
            && forall t :: at <= t < at + |v| ==> full[t] == v[t - at]
  {
    hide VarintBytes, ToUint64;
    var v := VarintBytes(ToUint64(xs[k]));
    assert xs[k..][0] == xs[k] && xs[k..][1..] == xs[k + 1..];
    assert full[at..] == v + PackedBody(xs[k + 1..]);
    assert full[at + |v|..] == full[at..][|v|..];
    forall t | at <= t < at + |v|
      ensures full[t] == v[t - at]
    {
      assert full[at..][t - at] == v[t - at];
    }
  }

  method PutPacked(data: array<byte>, i: nat, tag: byte, xs: seq<int>) returns (at: nat)
    requires |PackedBytes(tag, xs)| <= i <= data.Length
    modifies data
    ensures Prepended(data, at, PackedBytes(tag, xs), i)
  {
    if |xs| == 0 {
      return i;
    }
    DelimitedSize(tag, PackedBody(xs));
    hide Delimited, PackedBody, VarintBytes;
    ghost var rest, body := data[i..], PackedBody(xs);
    at := PutBody(data, i, xs);
    at := PutHeader(data, at, tag, PackedBody(xs));
    assert data[at..] == Delimited(tag, body) + rest;
  }

  /** The elements in the space that their size reserves before `i`. */
  method PutBody(data: array<byte>, i: nat, xs: seq<int>) returns (at: nat)
    requires |PackedBody(xs)| <= i <= data.Length
    modifies data
    ensures at + |PackedBody(xs)| == i && data[at..i] == PackedBody(xs) && data[i..] == old(data[i..])
    ensures forall j :: 0 <= j < at ==> data[j] == old(data[j])
  {
    hide PackedBody;
    var pksize := PackedSize(xs);
    at := i - pksize;
    PutElements(data, at, xs);
  }

  /** The marshaller fills exactly the last SizeVT bytes of the buffer, with the encoding. */
  method MarshalToSizedBufferVT(m: Message, data: array<byte>) returns (n: nat)
    requires |Encoded(m)| <= data.Length
    modifies data
    ensures n == |Encoded(m)|
    ensures data[data.Length - n..] == Encoded(m)
    ensures data[..data.Length - n] == old(data[..data.Length - n])
  {
    hide ScalarBytes, PackedBytes;
    var i := data.Length;
    i := PutBytes(data, i, m.unknown);
    ghost var t := m.unknown;
    assert data[i..] == t;
    i := PutPacked(data, i, 0x2a, m.buckets);
    t := PackedBytes(0x2a, m.buckets) + t;
    assert data[i..] == t;
    i := PutPacked(data, i, 0x22, m.counts);
    t := PackedBytes(0x22, m.counts) + t;
    assert data[i..] == t;
    i := PutScalar(data, i, 0x18, m.significant);
    t := ScalarBytes(0x18, m.significant) + t;
    assert data[i..] == t;
    i := PutScalar(data, i, 0x10, m.highest);
    t := ScalarBytes(0x10, m.highest) + t;
    assert data[i..] == t;
    i := PutScalar(data, i, 0x08, m.lowest);
    n := data.Length - i;
  }

  method MarshalVT(m: Message) returns (data: array<byte>)
    ensures fresh(data) && data[..] == Encoded(m)
  {
    var size := SizeVT(m);
    data := new byte[size];
    var n := MarshalToSizedBufferVT(m, data);
    assert data[..] == data[data.Length - n..];
  }

  // ----- decoding loop

  /** A packed run: elements are read while the index is below the end of the field. */
  method DecodePacked(data: seq<byte>, start: nat, packedLen: nat, width: nat) returns (r: Read<seq<int>>)
    requires start <= |data|
    ensures r == ReadPacked(data[start..], packedLen, width)
  {
    hide ReadVarint, Signed;
    var i: nat, xs: seq<int> := start, [];
    ghost var all := ReadPacked(data[start..], packedLen, width);
    assert all.Read? ==> [] + all.value == all.value;
    while i < start + packedLen
      invariant start <= i <= |data|
      invariant ReadPacked(data[start..], packedLen, width)
                == Following(xs, i - start, ReadPacked(data[i..], start + packedLen - i, width))
      decreases start + packedLen - i
    {
      var v := DecodeVarint(data, i, width);
      if v.Failed? {
        return Failed(v.error);
      }
      assert data[i..][v.size..] == data[i + v.size..];
      FollowingStep(xs, i - start, Signed(v.value, width), v.size,
                    ReadPacked(data[i + v.size..], start + packedLen - i - v.size, width));
      xs := xs + [Signed(v.value, width)];
      i := i + v.size;
    }
    assert xs + [] == xs;
    return Read(xs, i - start);
  }

  method DecodeInts(data: seq<byte>, i: nat, wireType: nat, width: nat) returns (r: Read<seq<int>>)
    requires i <= |data|
    ensures r == ReadInts(i, data[i..], wireType, width)
  {
    hide ReadVarint, ToInt64, Signed, ReadPacked;
    if wireType == 0 {
      var v := DecodeVarint(data, i, width);
      return if v.Failed? then Failed(v.error) else Read([Signed(v.value, width)], v.size);
    }
    if wireType != 2 {
      return Failed(WrongWireType);
    }
    var l := DecodeVarint(data, i, 64);
    if l.Failed? {
      return Failed(l.error);
    }
    var packedLen := ToInt64(l.value);
    if packedLen < 0 {
      return Failed(InvalidLength);
    }
    if i + l.size + packedLen > MAX_INT64 {
      return Failed(InvalidLength);
    }
    if i + l.size + packedLen > |data| {
      return Failed(UnexpectedEOF);
    }
    assert data[i..][l.size..] == data[i + l.size..];
    var xs := DecodePacked(data, i + l.size, packedLen, width);
    return xs.After(l.size);
  }

  method DecodeInt64(data: seq<byte>, i: nat, wireType: nat) returns (r: Read<int>)
    requires i <= |data|
    ensures r == ReadInt64(data[i..], wireType)
  {
    if wireType != 0 {
      return Failed(WrongWireType);
    }
    var v := DecodeVarint(data, i, 64);
    return if v.Failed? then Failed(v.error) else Read(ToInt64(v.value), v.size);
  }

  /** The body of the decoding loop: one field at `i`. */
  method UnmarshalField(data: seq<byte>, i: nat, m: Message) returns (r: Read<Message>)
    requires i <= |data|
    ensures r == DecodeField(i, data[i..], m)
  {
    hide ReadVarint, ToInt64, ToInt32, ReadInts, ReadInt64, Skip;
    var t := DecodeVarint(data, i, 64);
    if t.Failed? {
      return Failed(t.error);
    }
    var field, wireType := ToInt32(t.value / 8), t.value % 8;
    if wireType == 4 {
      return Failed(EndGroup);
    }
    if field <= 0 {
      return Failed(IllegalTag);
    }
    var at := i + t.size;
    assert data[i..][t.size..] == data[at..];
    if field <= 3 {
      var v := DecodeInt64(data, at, wireType);
      if v.Failed? {
        return Failed(v.error);
      }
      return Read(if field == 1 then m.(lowest := v.value)
                  else if field == 2 then m.(highest := v.value)
                  else m.(significant := v.value), t.size + v.size);
    }
    if field <= 5 {
      var xs := DecodeInts(data, at, wireType, if field == 4 then 64 else 32);
      if xs.Failed? {
        return Failed(xs.error);
      }
      return Read(if field == 4 then m.(counts := m.counts + xs.value) else m.(buckets := m.buckets + xs.value),
                  t.size + xs.size);
    }
    var skippy := SkipRecord(data, i);
    if skippy.Failed? {
      return Failed(skippy.error);
    }
    if i + skippy.size > MAX_INT64 {
      return Failed(InvalidLength);
    }
    if i + skippy.size > |data| {
      return Failed(UnexpectedEOF);
    }
    assert data[i..][..skippy.size] == data[i..i + skippy.size];
    return Read(m.(unknown := m.unknown + data[i..i + skippy.size]), skippy.size);
  }

  /** The decoder, into any message. */
  method UnmarshalVT(data: seq<byte>, into: Message) returns (r: Read<Message>)
    ensures r == Decoded(data, into)
  {
    hide DecodeField;
    var m, i := into, 0;
    assert data[0..] == data;
    while i < |data|
      invariant 0 <= i <= |data|
      invariant Decoded(data, into) == DecodedFrom(i, data[i..], m).After(i)
    {
      var f := UnmarshalField(data, i, m);
      if f.Failed? {
        return Failed(f.error);
      }
      FieldExtent(i, data[i..], m);
      assert data[i..][f.size..] == data[i + f.size..];
      m, i := f.value, i + f.size;
    }
    return Read(m, i);
  }

  /** What MarshalVT writes, UnmarshalVT reads back into a reset message. */
  method MarshalUnmarshal(m: Message) returns (r: Read<Message>)
    requires Encodable(m)
    ensures r.Read? && r.value == m
  {
    hide Encodable, Encoded, DecodedFrom;
    var data := MarshalVT(m);
    r := UnmarshalVT(data[..], Empty());
    RoundTrip(m);
  }
}
