/** The loops that all generated marshallers and decoders share. */
module WireLoops {
  import opened Bits
  import opened Varint
  import opened Wire

  /** The bytes from `i` on are `record` followed by what was there, and nothing before `i` changed. */
  twostate predicate Prepended(data: array<byte>, i: nat, record: seq<byte>, before: nat)
    requires before <= data.Length
    reads data
  {
    && i + |record| == before
    && data[i..] == record + old(data[before..])
    && forall j :: 0 <= j < i ==> data[j] == old(data[j])
  }

  method PutTag(data: array<byte>, i: nat, tag: byte) returns (at: nat)
    requires 1 <= i <= data.Length
    modifies data
    ensures Prepended(data, at, [tag], i)
  {
    at := i - 1;
    data[at] := tag;
  }

  /** `copy` of a slice into the buffer. */
  method PutBytes(data: array<byte>, i: nat, u: seq<byte>) returns (at: nat)
    requires |u| <= i <= data.Length
    modifies data
    ensures Prepended(data, at, u, i)
  {
    at := i - |u|;
    for k := 0 to |u|
      invariant forall j :: at <= j < at + k ==> data[j] == u[j - at]
      invariant forall j :: 0 <= j < at || i <= j < data.Length ==> data[j] == old(data[j])
    {
      data[at + k] := u[k];
    }
  }

  lemma DelimitedLength(tag: byte, b: seq<byte>)
    ensures |Delimited(tag, b)| == 1 + |b| + Sov(|b|)
  {
    SovIsLength(|b|);
  }

  lemma DelimitedBefore(tag: byte, b: seq<byte>, rest: seq<byte>)
    ensures [tag] + (VarintBytes(|b|) + (b + rest)) == Delimited(tag, b) + rest
  {
    hide VarintBytes;
    Assoc(VarintBytes(|b|), b, rest);
    Assoc([tag], VarintBytes(|b|) + b, rest);
  }

  /** The length and the tag in front of a value that already stands in the buffer. */
  method PutHeader(data: array<byte>, i: nat, tag: byte, b: seq<byte>) returns (at: nat)
    requires i + |b| <= data.Length && data[i..i + |b|] == b && |Delimited(tag, b)| <= i + |b|
    modifies data
    ensures at + |Delimited(tag, b)| == i + |b|
    ensures data[at..] == Delimited(tag, b) + old(data[i + |b|..])
    ensures forall j :: 0 <= j < at ==> data[j] == old(data[j])
  {
    SovIsLength(|b|);
    hide Sov, VarintBytes;
    ghost var rest := data[i + |b|..];
    assert data[i..] == b + rest;
    var l := EncodeVarint(data, i, |b|);
    at := PutTag(data, l, tag);
    DelimitedBefore(tag, b, rest);
  }

  lemma SkipUnfolds(pos: nat, s: seq<byte>, depth: nat)
    requires s != []
    ensures var f := SkipField(s);
            Skip(pos, s, depth)
            == if f.Failed? then Failed(f.error)
               else if depth + f.value < 0 then Failed(UnexpectedEndOfGroup)
               else if pos + f.size > MAX_INT64 then Failed(InvalidLength)
               else if depth + f.value == 0 then Read((), f.size)
               else if f.size >= |s| then Failed(UnexpectedEOF)
               else Skip(pos + f.size, s[f.size..], depth + f.value).After(f.size)
  {
    hide SkipField;
    SkipFieldCoversTag(s);
  }

  /** `skip`. */
  method SkipRecord(data: seq<byte>, start: nat) returns (r: Read<()>)
    requires start <= |data|
    ensures r == Skip(0, data[start..], 0)
  {
    hide SkipField, Skip;
    var i: nat, depth: nat := start, 0;
    while i < |data|
      invariant start <= i <= |data|
      invariant Skip(0, data[start..], 0) == Skip(i - start, data[i..], depth).After(i - start)
    {
      SkipFieldCoversTag(data[i..]);
      SkipUnfolds(i - start, data[i..], depth);
      var f := SkipOne(data, i);
      if f.Failed? {
        return Failed(f.error);
      }
      if depth + f.value < 0 {
        return Failed(UnexpectedEndOfGroup);
      }
      depth := depth + f.value;
      if i - start + f.size > MAX_INT64 {
        return Failed(InvalidLength);
      }
      if depth == 0 {
        return Read((), i - start + f.size);
      }
      if i + f.size >= |data| {
        return Failed(UnexpectedEOF);
      }
      assert data[i..][f.size..] == data[i + f.size..];
      i := i + f.size;
    }
    SkipNone(i - start, data[i..], depth);
    return Failed(UnexpectedEOF);
  }

  lemma SkipNone(pos: nat, s: seq<byte>, depth: nat)
    requires s == []
    ensures Skip(pos, s, depth) == Failed(UnexpectedEOF)
  {
  }

  method SkipOne(data: seq<byte>, i: nat) returns (f: Read<int>)
    requires i <= |data|
    ensures f == SkipField(data[i..])
  {
    hide ReadVarint, ToInt64;
    var r := DecodeVarint(data, i, 64);
    if r.Failed? {
      return Failed(r.error);
    }
    assert data[i..][r.size..] == data[i + r.size..];
    var wireType := r.value % 8;
    if wireType == 0 {
      var v := DecodeVarint(data, i + r.size, 64);
      f := if v.Failed? then Failed(v.error) else Read(0, r.size + v.size);
    } else if wireType == 1 {
      f := Read(0, r.size + 8);
    } else if wireType == 2 {
      var l := DecodeVarint(data, i + r.size, 64);
      if l.Failed? {
        return Failed(l.error);
      }
      if ToInt64(l.value) < 0 {
        return Failed(InvalidLength);
      }
      f := Read(0, r.size + l.size + ToInt64(l.value));
    } else if wireType == 3 {
      f := Read(1, r.size);
    } else if wireType == 4 {
      f := Read(-1, r.size);
    } else if wireType == 5 {
      f := Read(0, r.size + 4);
    } else {
      f := Failed(IllegalWireType);
    }
  }

  /** Elements already read, followed by those still to read. */
  ghost function Following<T>(xs: seq<T>, size: nat, rest: Read<seq<T>>): Read<seq<T>> {
    if rest.Failed? then rest else Read(xs + rest.value, size + rest.size)
  }

  lemma FollowingStep<T>(xs: seq<T>, size: nat, x: T, n: nat, rest: Read<seq<T>>)
    ensures Following(xs, size, if rest.Failed? then rest else Read([x] + rest.value, rest.size + n))
            == Following(xs + [x], size + n, rest)
  {
    if rest.Read? {
      assert xs + ([x] + rest.value) == xs + [x] + rest.value;
    }
  }
}
