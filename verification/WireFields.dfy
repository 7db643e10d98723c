/** What the reading loops make of any bytes: exactly which varints are refused, and that every well-formed field,
    groups in groups included, is skipped to its end. */
module WireFields {
  import opened Bits
  import opened Varint
  import opened Wire

  // ----- varints

  /** The number of bytes with the high bit set before the first without it. */
  ghost function Leading(s: seq<byte>): nat {
    if s == [] || s[0] < 128 then 0 else 1 + Leading(s[1..])
  }

  /** Seven bits of each byte, from the position `7 * k` up. */
  ghost function Digits(s: seq<byte>, k: nat): nat {
    if s == [] then 0 else s[0] % 128 * Pow2(7 * k) + Digits(s[1..], k + 1)
  }

  lemma {:induction false} LeadingWithin(s: seq<byte>)
    ensures Leading(s) <= |s|
  {
    if s != [] {
      LeadingWithin(s[1..]);
    }
  }

  /** What fits in `width` bits. */
  ghost function Wrapped(x: nat, width: nat): (r: nat) {
    x % Pow2(width)
  }

  lemma WrapAdds(a: nat, b: nat, width: nat)
    ensures Wrapped(Wrapped(a, width) + b, width) == Wrapped(a + b, width)
  {
    hide Pow2;
    ModAdds(a, b, Pow2(width));
  }

  ghost function Digit(s: seq<byte>, k: nat): nat
    requires s != []
  {
    s[0] % 128 * Pow2(7 * k)
  }

  /** One turn of the reading loop. */
  lemma ReadsByte(s: seq<byte>, k: nat, acc: nat, width: nat)
    requires k < 10 && s != []
    ensures var acc' := Wrapped(acc + Digit(s, k), width);
            ReadVarint(s, 7 * k, acc, width)
            == if s[0] < 128 then Read(acc', 1) else ReadVarint(s[1..], 7 * (k + 1), acc', width).After(1)
  {
    hide Pow2;
    assert 7 * (k + 1) == 7 * k + 7;
  }

  lemma DigitsFirst(s: seq<byte>, n: nat, k: nat)
    requires n < |s|
    ensures Digits(s[..n + 1], k) == Digit(s, k) + Digits(s[1..][..n], k + 1)
  {
    hide Pow2;
    assert s[..n + 1][1..] == s[1..][..n] && s[..n + 1][0] == s[0];
  }

  lemma NoDigits(k: nat)
    ensures Digits([], k) == 0
  {
  }

  lemma OverLimit(s: seq<byte>, acc: nat, width: nat)
    ensures ReadVarint(s, 70, acc, width) == Failed(IntOverflow)
  {
  }

  lemma NothingRead(k: nat, acc: nat, width: nat)
    requires k < 10
    ensures ReadVarint([], 7 * k, acc, width) == Failed(UnexpectedEOF)
  {
  }

  lemma {:induction false} ReadsFrom(s: seq<byte>, k: nat, acc: nat, width: nat)
    requires k <= 10
    ensures var n := Leading(s);
            && n <= |s|
            && ReadVarint(s, 7 * k, acc, width)
               == if k + n >= 10 then Failed(IntOverflow)
                  else if n == |s| then Failed(UnexpectedEOF)
                  else Read(Wrapped(acc + Digits(s[..n + 1], k), width), n + 1)
    decreases |s|
  {
    LeadingWithin(s);
    hide ReadVarint, Digits, Digit, Wrapped;
    if k == 10 {
      OverLimit(s, acc, width);
    } else if s == [] {
      NothingRead(k, acc, width);
    } else {
      var n := Leading(s);
      ReadsByte(s, k, acc, width);
      if s[0] < 128 {
        DigitsFirst(s, 0, k);
        NoDigits(k + 1);
        assert s[1..][..0] == [];
      } else {
        ReadsFrom(s[1..], k + 1, Wrapped(acc + Digit(s, k), width), width);
        if k + n < 10 && n < |s| {
          DigitsFirst(s, n, k);
          WrapAdds(acc + Digit(s, k), Digits(s[1..][..n], k + 1), width);
        }
      }
    }
  }

  /** Over all bytes: ten bytes with the high bit set overflow, fewer without an end are cut short, and anything
      else is the number that the seven bits of each byte make up, modulo the width. */
  lemma {:induction false} VarintOutcome(s: seq<byte>, width: nat)
    ensures var n := Leading(s);
            && n <= |s|
            && ReadVarint(s, 0, 0, width)
               == if n >= 10 then Failed(IntOverflow)
                  else if n == |s| then Failed(UnexpectedEOF)
                  else Read(Wrapped(Digits(s[..n + 1], 0), width), n + 1)
  {
    hide Wrapped;
    ReadsFrom(s, 0, 0, width);
  }

  // ----- fields

  datatype Field =
    | VarintField(number: nat, value: nat)
    | Fixed64Field(number: nat, bytes: seq<byte>)
    | BytesField(number: nat, bytes: seq<byte>)
    | GroupField(number: nat, fields: seq<Field>)
    | Fixed32Field(number: nat, bytes: seq<byte>)

  ghost predicate WellFormed(f: Field)
    decreases f
  {
    && Uint64(8 * f.number + 7)
    && match f
       case VarintField(_, value) => Uint64(value)
       case Fixed64Field(_, bytes) => |bytes| == 8
       case BytesField(_, bytes) => |bytes| <= MAX_INT64
       case GroupField(_, fields) => forall i :: 0 <= i < |fields| ==> WellFormed(fields[i])
       case Fixed32Field(_, bytes) => |bytes| == 4
  }

  ghost function FieldBytes(f: Field): seq<byte>
    decreases f
  {
    match f
    case VarintField(n, value) => VarintBytes(8 * n) + VarintBytes(value)
    case Fixed64Field(n, bytes) => VarintBytes(8 * n + 1) + bytes
    case BytesField(n, bytes) => VarintBytes(8 * n + 2) + (VarintBytes(|bytes|) + bytes)
    case GroupField(n, fields) => VarintBytes(8 * n + 3) + (FieldsBytes(f, fields) + VarintBytes(8 * n + 4))
    case Fixed32Field(n, bytes) => VarintBytes(8 * n + 5) + bytes
  }

  ghost function FieldsBytes(f: Field, fs: seq<Field>): seq<byte>
    requires forall i :: 0 <= i < |fs| ==> fs[i] < f
    decreases f, |fs|
  {
    if fs == [] then [] else FieldBytes(fs[0]) + FieldsBytes(f, fs[1..])
  }

  /** A tag and what follows it. */
  lemma SkipsTagged(tag: nat, body: seq<byte>, tail: seq<byte>)
    requires Uint64(tag)
    ensures var s := VarintBytes(tag) + body + tail;
            && ReadUint64(s) == Read(tag, |VarintBytes(tag)|)
            && s[|VarintBytes(tag)|..] == body + tail
  {
    hide VarintBytes, ReadUint64;
    ReadsUint64(tag, body + tail);
    Assoc(VarintBytes(tag), body, tail);
  }

  lemma SkipsVarint(n: nat, value: nat, tail: seq<byte>)
    requires Uint64(8 * n + 7) && Uint64(value)
    ensures SkipField(VarintBytes(8 * n) + VarintBytes(value) + tail) == Read(0, |VarintBytes(8 * n)| + |VarintBytes(value)|)
  {
    hide VarintBytes, ReadUint64;
    SkipsTagged(8 * n, VarintBytes(value), tail);
    ReadsUint64(value, tail);
  }

  lemma SkipsFixed(n: nat, wireType: nat, bytes: seq<byte>, tail: seq<byte>)
    requires Uint64(8 * n + 7) && ((wireType == 1 && |bytes| == 8) || (wireType == 5 && |bytes| == 4))
    ensures SkipField(VarintBytes(8 * n + wireType) + bytes + tail) == Read(0, |VarintBytes(8 * n + wireType)| + |bytes|)
  {
    hide VarintBytes, ReadUint64;
    SkipsTagged(8 * n + wireType, bytes, tail);
  }

  lemma SkipsBytes(n: nat, bytes: seq<byte>, tail: seq<byte>)
    requires Uint64(8 * n + 7) && |bytes| <= MAX_INT64
    ensures SkipField(VarintBytes(8 * n + 2) + (VarintBytes(|bytes|) + bytes) + tail)
            == Read(0, |VarintBytes(8 * n + 2)| + |VarintBytes(|bytes|)| + |bytes|)
  {
    hide VarintBytes, ReadUint64;
    SkipsTagged(8 * n + 2, VarintBytes(|bytes|) + bytes, tail);
    Assoc(VarintBytes(|bytes|), bytes, tail);
    ReadsUint64(|bytes|, bytes + tail);
  }

  /** The extent of one field that is not a group. */
  lemma SkipsPlain(f: Field, tail: seq<byte>)
    requires WellFormed(f) && !f.GroupField?
    ensures SkipField(FieldBytes(f) + tail) == Read(0, |FieldBytes(f)|)
  {
    hide VarintBytes, SkipField;
    match f
    case VarintField(n, value) => SkipsVarint(n, value, tail);
    case Fixed64Field(n, bytes) => SkipsFixed(n, 1, bytes, tail);
    case BytesField(n, bytes) => SkipsBytes(n, bytes, tail);
    case Fixed32Field(n, bytes) => SkipsFixed(n, 5, bytes, tail);
  }

  lemma SkipsGroupTag(n: nat, tail: seq<byte>)
    requires Uint64(8 * n + 7)
    ensures SkipField(VarintBytes(8 * n + 3) + tail) == Read(1, |VarintBytes(8 * n + 3)|)
    ensures SkipField(VarintBytes(8 * n + 4) + tail) == Read(-1, |VarintBytes(8 * n + 4)|)
  {
    hide VarintBytes, ReadUint64;
    ReadsUint64(8 * n + 3, tail);
    ReadsUint64(8 * n + 4, tail);
  }

  /** One field that leaves groups open is passed over. */
  lemma SkipStep(pos: nat, record: seq<byte>, rest: seq<byte>, depth: nat, change: int)
    requires SkipField(record + rest) == Read(change, |record|) && record != [] && rest != []
    requires pos + |record| <= MAX_INT64 && depth + change > 0
    ensures Skip(pos, record + rest, depth) == Skip(pos + |record|, rest, depth + change).After(|record|)
  {
    hide SkipField;
    assert (record + rest)[|record|..] == rest;
  }

  lemma SkipEnd(pos: nat, record: seq<byte>, rest: seq<byte>, depth: nat, change: int)
    requires SkipField(record + rest) == Read(change, |record|) && record != []
    requires pos + |record| <= MAX_INT64 && depth + change == 0
    ensures Skip(pos, record + rest, depth) == Read((), |record|)
  {
    hide SkipField;
  }

  lemma FieldNotEmpty(f: Field)
    ensures FieldBytes(f) != []
  {
  }

  lemma GroupBytes(f: Field, rest: seq<byte>)
    requires f.GroupField?
    ensures var a, b, c := VarintBytes(8 * f.number + 3), FieldsBytes(f, f.fields), VarintBytes(8 * f.number + 4);
            |FieldBytes(f)| == |a| + |b| + |c| && FieldBytes(f) + rest == a + (b + (c + rest))
  {
    var a, b, c := VarintBytes(8 * f.number + 3), FieldsBytes(f, f.fields), VarintBytes(8 * f.number + 4);
    Assoc(a, b + c, rest);
    Assoc(b, c, rest);
  }

  /** Inside an open group every field is passed over. */
  lemma {:induction false} SkipsInside(f: Field, pos: nat, rest: seq<byte>, depth: nat)
    requires WellFormed(f) && depth > 0 && rest != [] && pos + |FieldBytes(f)| <= MAX_INT64
    ensures Skip(pos, FieldBytes(f) + rest, depth) == Skip(pos + |FieldBytes(f)|, rest, depth).After(|FieldBytes(f)|)
    decreases f, 1, 0
  {
    FieldNotEmpty(f);
    hide Skip, SkipField, VarintBytes, FieldBytes, FieldsBytes;
    if f.GroupField? {
      var a, b, c := VarintBytes(8 * f.number + 3), FieldsBytes(f, f.fields), VarintBytes(8 * f.number + 4);
      GroupBytes(f, rest);
      SkipsGroupTag(f.number, b + (c + rest));
      SkipsGroupTag(f.number, rest);
      SkipStep(pos, a, b + (c + rest), depth, 1);
      SkipsEach(f, f.fields, pos + |a|, c + rest, depth + 1);
      SkipStep(pos + |a| + |b|, c, rest, depth + 1, -1);
    } else {
      SkipsPlain(f, rest);
      SkipStep(pos, FieldBytes(f), rest, depth, 0);
    }
  }

  lemma {:induction false} SkipsEach(f: Field, fs: seq<Field>, pos: nat, rest: seq<byte>, depth: nat)
    requires forall i :: 0 <= i < |fs| ==> fs[i] < f && WellFormed(fs[i])
    requires depth > 0 && rest != [] && pos + |FieldsBytes(f, fs)| <= MAX_INT64
    ensures Skip(pos, FieldsBytes(f, fs) + rest, depth)
            == Skip(pos + |FieldsBytes(f, fs)|, rest, depth).After(|FieldsBytes(f, fs)|)
    decreases f, 0, |fs|
  {
    hide Skip, FieldBytes;
    if fs == [] {
      assert [] + rest == rest;
    } else {
      var a, b := FieldBytes(fs[0]), FieldsBytes(f, fs[1..]);
      Assoc(a, b, rest);
      SkipsInside(fs[0], pos, b + rest, depth);
      SkipsEach(f, fs[1..], pos + |a|, rest, depth);
    }
  }

  /** Every well-formed field is skipped exactly to its end, whatever follows. */
  lemma {:induction false} SkipsField(f: Field, tail: seq<byte>)
    requires WellFormed(f) && |FieldBytes(f)| <= MAX_INT64
    ensures Skip(0, FieldBytes(f) + tail, 0) == Read((), |FieldBytes(f)|)
  {
    FieldNotEmpty(f);
    hide Skip, SkipField, VarintBytes, FieldBytes, FieldsBytes;
    if f.GroupField? {
      var a, b, c := VarintBytes(8 * f.number + 3), FieldsBytes(f, f.fields), VarintBytes(8 * f.number + 4);
      GroupBytes(f, tail);
      SkipsGroupTag(f.number, b + (c + tail));
      SkipsGroupTag(f.number, tail);
      SkipStep(0, a, b + (c + tail), 0, 1);
      SkipsEach(f, f.fields, |a|, c + tail, 1);
      SkipEnd(|a| + |b|, c, tail, 1, -1);
    } else {
      SkipsPlain(f, tail);
      SkipEnd(0, FieldBytes(f), tail, 0, 0);
    }
  }
}
