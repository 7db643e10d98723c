/** Records of the Protocol Buffers wire format: tags, length-delimited values, packed varints and the
    skipping of unknown fields, as the generated decoders read them. */
module Wire {
  import opened Bits
  import opened Varint

  datatype Tag = Tag(field: int, wireType: nat)

  function ReadUint64(s: seq<byte>): Read<nat> {
    ReadVarint(s, 0, 0, 64)
  }

  /** A tag is a varint: the low three bits are the wire type, the rest an int32 field number. */
  function ReadTag(s: seq<byte>): Read<Tag> {
    var r := ReadUint64(s);
    if r.Failed? then Failed(r.error)
    else
      var field, wireType := ToInt32(r.value / 8), r.value % 8;
      if wireType == 4 then Failed(EndGroup)
      else if field <= 0 then Failed(IllegalTag)
      else Read(Tag(field, wireType), r.size)
  }

  /** The length of a delimited value at index `at`, checked against the bytes that remain. An index that
      would pass the largest int64 wraps around and is refused as negative. */
  function ReadLength(at: nat, s: seq<byte>): Read<nat> {
    var r := ReadUint64(s);
    if r.Failed? then r
    else
      var length := ToInt64(r.value);
      if length < 0 then Failed(InvalidLength)
      else if at + r.size + length > MAX_INT64 then Failed(InvalidLength)
      else if r.size + length > |s| then Failed(UnexpectedEOF)
      else Read(length, r.size)
  }

  function ReadBytes(at: nat, s: seq<byte>): Read<seq<byte>> {
    var r := ReadLength(at, s);
    if r.Failed? then Failed(r.error)
    else Read(s[r.size..r.size + r.value], r.size + r.value)
  }

  function Signed(u: nat, width: nat): int {
    if width == 32 then ToInt32(u) else ToInt64(u)
  }

  /** Varints until at least `left` bytes are used; the last one may run past the packed length. */
  function ReadPacked(s: seq<byte>, left: int, width: nat): Read<seq<int>>
    decreases |s|
  {
    if left <= 0 then Read([], 0)
    else
      var r := ReadVarint(s, 0, 0, width);
      ReadWithin(s, 0, 0, width);
      if r.Failed? then Failed(r.error)
      else
        var rest := ReadPacked(s[r.size..], left - r.size, width);
        if rest.Failed? then rest else Read([Signed(r.value, width)] + rest.value, rest.size + r.size)
  }

  /** One field of `skip`: its extent, and by how much it changes the number of open groups. */
  function SkipField(s: seq<byte>): Read<int> {
    var r := ReadUint64(s);
    if r.Failed? then Failed(r.error)
    else
      ReadWithin(s, 0, 0, 64);
      var rest := s[r.size..];
      match r.value % 8
      case 0 =>
        var v := ReadUint64(rest);
        if v.Failed? then Failed(v.error) else Read(0, r.size + v.size)
      case 1 => Read(0, r.size + 8)
      case 2 =>
        var l := ReadUint64(rest);
        if l.Failed? then Failed(l.error)
        else if ToInt64(l.value) < 0 then Failed(InvalidLength)
        else Read(0, r.size + l.size + ToInt64(l.value))
      case 3 => Read(1, r.size)
      case 4 => Read(-1, r.size)
      case 5 => Read(0, r.size + 4)
      case _ => Failed(IllegalWireType)
  }

  lemma SkipFieldCoversTag(s: seq<byte>)
    ensures SkipField(s).Read? ==> ReadUint64(s).Read? && 1 <= ReadUint64(s).size <= SkipField(s).size
  {
    hide ReadVarint, ToInt64;
    ReadWithin(s, 0, 0, 64);
  }

  /** `skip`: the extent of the first record of `s`, with `depth` groups open and `pos` bytes skipped. */
  function Skip(pos: nat, s: seq<byte>, depth: nat): Read<()>
    decreases |s|
  {
    if s == [] then Failed(UnexpectedEOF)
    else
      SkipFieldCoversTag(s);
      var f := SkipField(s);
      if f.Failed? then Failed(f.error)
      else if depth + f.value < 0 then Failed(UnexpectedEndOfGroup)
      else if pos + f.size > MAX_INT64 then Failed(InvalidLength)
      else if depth + f.value == 0 then Read((), f.size)
      else if f.size >= |s| then Failed(UnexpectedEOF)
      else Skip(pos + f.size, s[f.size..], depth + f.value).After(f.size)
  }

  // ----- reading depends only on the bytes read

  lemma {:induction false} VarintLocal(p: seq<byte>, x: seq<byte>, y: seq<byte>, shift: nat, acc: nat, width: nat)
    requires ReadVarint(p + x, shift, acc, width).Read? && ReadVarint(p + x, shift, acc, width).size <= |p|
    ensures ReadVarint(p + y, shift, acc, width) == ReadVarint(p + x, shift, acc, width)
    decreases |p|
  {
    hide Pow2;
    ReadWithin(p + x, shift, acc, width);
    assert (p + x)[0] == p[0] == (p + y)[0];
    if p[0] >= 128 {
      var acc' := (acc + p[0] % 128 * Pow2(shift)) % Pow2(width);
      assert (p + x)[1..] == p[1..] + x && (p + y)[1..] == p[1..] + y;
      VarintLocal(p[1..], x, y, shift + 7, acc', width);
    }
  }

  lemma Uint64Local(p: seq<byte>, x: seq<byte>, y: seq<byte>)
    requires ReadUint64(p + x).Read? && ReadUint64(p + x).size <= |p|
    ensures ReadUint64(p + y) == ReadUint64(p + x)
  {
    VarintLocal(p, x, y, 0, 0, 64);
  }

  lemma DropPrefix(p: seq<byte>, x: seq<byte>, n: nat)
    requires n <= |p|
    ensures (p + x)[n..] == p[n..] + x
  {
  }

  lemma SkipFieldLocal(p: seq<byte>, x: seq<byte>, y: seq<byte>)
    requires SkipField(p + x).Read? && SkipField(p + x).size <= |p|
    ensures SkipField(p + y) == SkipField(p + x)
  {
    hide ReadVarint, ToInt64;
    ReadWithin(p + x, 0, 0, 64);
    var r := ReadUint64(p + x);
    Uint64Local(p, x, y);
    DropPrefix(p, x, r.size);
    DropPrefix(p, y, r.size);
    if r.value % 8 == 0 || r.value % 8 == 2 {
      Uint64Local(p[r.size..], x, y);
    }
  }

  /** A record that ends within `p` is skipped alike whatever follows `p`. */
  lemma {:induction false} SkipLocal(pos: nat, p: seq<byte>, x: seq<byte>, y: seq<byte>, depth: nat)
    requires Skip(pos, p + x, depth).Read? && Skip(pos, p + x, depth).size <= |p|
    ensures Skip(pos, p + y, depth) == Skip(pos, p + x, depth)
    decreases |p|
  {
    hide SkipField;
    SkipFieldCoversTag(p + x);
    var f := SkipField(p + x);
    SkipFieldLocal(p, x, y);
    if depth + f.value > 0 {
      SkipPositive(pos + f.size, (p + x)[f.size..], depth + f.value);
      DropPrefix(p, x, f.size);
      DropPrefix(p, y, f.size);
      SkipLocal(pos + f.size, p[f.size..], x, y, depth + f.value);
    }
  }

  lemma SkipPositive(pos: nat, s: seq<byte>, depth: nat)
    ensures Skip(pos, s, depth).Read? ==> Skip(pos, s, depth).size >= 1
  {
    hide SkipField;
    SkipFieldCoversTag(s);
  }

  // ----- reading what was written

  lemma ReadsUint64(v: nat, tail: seq<byte>)
    requires Uint64(v)
    ensures ReadUint64(VarintBytes(v) + tail) == Read(v, |VarintBytes(v)|)
  {
    hide ReadVarint;
    VarintRoundTrip(v, tail);
    SovIsLength(v);
  }

  lemma ReadsTag(field: nat, wireType: nat, tail: seq<byte>)
    requires 1 <= field < 16 && wireType < 4
    ensures ReadTag([8 * field + wireType] + tail) == Read(Tag(field, wireType), 1)
  {
    var v := 8 * field + wireType;
    hide ReadUint64;
    assert VarintBytes(v) == [v];
    ReadsUint64(v, tail);
  }

  lemma ReadsLength(at: nat, body: seq<byte>, tail: seq<byte>)
    requires at + |VarintBytes(|body|)| + |body| <= MAX_INT64
    ensures ReadLength(at, VarintBytes(|body|) + (body + tail)) == Read(|body|, |VarintBytes(|body|)|)
  {
    hide ReadUint64, VarintBytes;
    ReadsUint64(|body|, body + tail);
  }

  lemma ReadsBytes(at: nat, body: seq<byte>, tail: seq<byte>)
    requires at + |VarintBytes(|body|)| + |body| <= MAX_INT64
    ensures ReadBytes(at, VarintBytes(|body|) + (body + tail)) == Read(body, |VarintBytes(|body|)| + |body|)
  {
    hide ReadLength, VarintBytes;
    ReadsLength(at, body, tail);
    var l := VarintBytes(|body|);
    assert (l + (body + tail))[|l|..|l| + |body|] == body;
  }

  lemma Assoc<T>(x: seq<T>, y: seq<T>, z: seq<T>)
    ensures x + y + z == x + (y + z)
  {
  }

  /** A tag, the length and the bytes. */
  function Delimited(tag: byte, b: seq<byte>): seq<byte> {
    [tag] + (VarintBytes(|b|) + b)
  }

  lemma DelimitedSize(tag: byte, b: seq<byte>)
    ensures |Delimited(tag, b)| == 1 + |VarintBytes(|b|)| + |b| >= 2
  {
  }

  function PackedBody(xs: seq<int>): (r: seq<byte>) {
    if xs == [] then [] else VarintBytes(ToUint64(xs[0])) + PackedBody(xs[1..])
  }

  ghost predicate Fits(x: int, width: nat) {
    if width == 32 then Int32(x) else Int64(x)
  }

  lemma ReadsSigned(x: int, width: nat, tail: seq<byte>)
    requires Fits(x, width) && (width == 32 || width == 64)
    ensures var r := ReadVarint(VarintBytes(ToUint64(x)) + tail, 0, 0, width);
            r.Read? && Signed(r.value, width) == x && r.size == |VarintBytes(ToUint64(x))|
  {
    hide ReadVarint, VarintBytes, ToInt32, ToInt64;
    VarintRoundTrip(ToUint64(x), tail);
    SovIsLength(ToUint64(x));
    SignExtends(x);
  }

  /** Packed elements are read back one by one, negative ones included. */
  lemma {:induction false} ReadsPacked(xs: seq<int>, width: nat, tail: seq<byte>)
    requires width == 32 || width == 64
    requires forall i :: 0 <= i < |xs| ==> Fits(xs[i], width)
    ensures ReadPacked(PackedBody(xs) + tail, |PackedBody(xs)|, width) == Read(xs, |PackedBody(xs)|)
  {
    hide ReadVarint, VarintBytes, ToUint64, Signed;
    if xs != [] {
      var first, body := VarintBytes(ToUint64(xs[0])), PackedBody(xs[1..]);
      ReadsPacked(xs[1..], width, tail);
      ReadsSigned(xs[0], width, body + tail);
      assert PackedBody(xs) + tail == first + (body + tail);
      assert (first + (body + tail))[|first|..] == body + tail;
      assert [xs[0]] + xs[1..] == xs;
    }
  }

  // ----- the decoding loop

  /** Fields one after the other until the bytes are used up; `step` reads the field at index `at` into the
      message. */
  function DecodeAll<M>(step: (nat, seq<byte>, M) -> Read<M>, at: nat, s: seq<byte>, m: M): Read<M>
    decreases |s|
  {
    if s == [] then Read(m, 0)
    else
      var r := step(at, s, m);
      if r.Failed? then r
      else if !(0 < r.size <= |s|) then Failed(UnexpectedEOF)
      else DecodeAll(step, at + r.size, s[r.size..], r.value).After(r.size)
  }

  lemma DecodeNone<M>(step: (nat, seq<byte>, M) -> Read<M>, at: nat, m: M)
    ensures DecodeAll(step, at, [], m) == Read(m, 0)
  {
  }

  /** A record that the step reads in full is consumed, whatever follows. */
  lemma DecodeOne<M>(step: (nat, seq<byte>, M) -> Read<M>, at: nat, record: seq<byte>, tail: seq<byte>, m: M, m': M)
    requires record != [] && step(at, record + tail, m) == Read(m', |record|)
    ensures DecodeAll(step, at, record + tail, m) == DecodeAll(step, at + |record|, tail, m').After(|record|)
  {
    assert (record + tail)[|record|..] == tail;
  }

  // ----- unknown fields

  /** The bytes of the first record of `s`. */
  function WholeRecord(s: seq<byte>): Read<seq<byte>> {
    var r := Skip(0, s, 0);
    if r.Failed? then Failed(r.error)
    else if r.size > |s| then Failed(UnexpectedEOF)
    else Read(s[..r.size], r.size)
  }

  /** The bytes of a field at index `at` that the decoder does not know, kept as they are. */
  function ReadUnknown(at: nat, s: seq<byte>): Read<seq<byte>> {
    var r := Skip(0, s, 0);
    if r.Failed? then Failed(r.error)
    else if at + r.size > MAX_INT64 then Failed(InvalidLength)
    else WholeRecord(s)
  }

  lemma UnknownExtent(at: nat, s: seq<byte>)
    ensures WholeRecord(s).Read? ==> 1 <= WholeRecord(s).size <= |s| && WholeRecord(s).value == s[..WholeRecord(s).size]
    ensures ReadUnknown(at, s).Read? ==> ReadUnknown(at, s) == WholeRecord(s)
    ensures WholeRecord(s).Read? && at + |s| <= MAX_INT64 ==> ReadUnknown(at, s) == WholeRecord(s)
  {
    SkipPositive(0, s, 0);
  }

  /** `u` consists of whole records with field numbers above the `known` ones. */
  ghost predicate Unknowns(known: nat, u: seq<byte>)
    decreases |u|
  {
    u == []
    || (IsUnknown(known, u) && (SkipPositive(0, u, 0); Unknowns(known, u[WholeRecord(u).size..])))
  }

  ghost predicate IsUnknown(known: nat, s: seq<byte>) {
    ReadTag(s).Read? && ReadTag(s).value.field > known && WholeRecord(s).Read?
  }

  lemma SkipCoversTag(pos: nat, s: seq<byte>, depth: nat)
    ensures Skip(pos, s, depth).Read? ==> ReadUint64(s).Read? && 1 <= ReadUint64(s).size <= Skip(pos, s, depth).size
  {
    hide ReadVarint, ToInt64;
    ReadWithin(s, 0, 0, 64);
    SkipFieldCoversTag(s);
    hide SkipField;
  }

  /** A record read from any input is the same record when it stands before other bytes. */
  lemma RecordLocal(s: seq<byte>, y: seq<byte>)
    requires ReadTag(s).Read? && WholeRecord(s).Read?
    ensures var u := WholeRecord(s).value;
            && ReadTag(u + y) == ReadTag(s)
            && WholeRecord(u + y) == WholeRecord(s)
            && 1 <= |u| <= |s| && u == s[..|u|]
  {
    hide ReadUint64, Skip;
    var n := WholeRecord(s).size;
    var u := s[..n];
    assert s == u + s[n..];
    SkipCoversTag(0, s, 0);
    Uint64Local(u, s[n..], y);
    SkipLocal(0, u, s[n..], y, 0);
    assert (u + y)[..n] == u;
  }

  lemma UnknownsCons(known: nat, s: seq<byte>, rest: seq<byte>)
    requires IsUnknown(known, s) && Unknowns(known, rest)
    ensures Unknowns(known, WholeRecord(s).value + rest)
  {
    RecordLocal(s, rest);
    hide ReadTag, Skip;
    var u := WholeRecord(s).value;
    assert (u + rest)[|u|..] == rest;
  }

  lemma {:induction false} UnknownsAppend(known: nat, u: seq<byte>, s: seq<byte>)
    requires Unknowns(known, u) && IsUnknown(known, s)
    ensures Unknowns(known, u + WholeRecord(s).value)
    decreases |u|
  {
    hide ReadTag, Skip;
    var v := WholeRecord(s).value;
    if u == [] {
      UnknownsCons(known, s, []);
      assert v + [] == v == u + v;
    } else {
      SkipPositive(0, u, 0);
      var n := WholeRecord(u).size;
      UnknownsAppend(known, u[n..], s);
      UnknownsCons(known, u, u[n..] + v);
      assert u + v == u[..n] + (u[n..] + v);
    }
  }
}
