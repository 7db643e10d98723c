/** Base 128 varints of the Protocol Buffers wire format: size, backward writer and reading loop. */
module Varint {
  import opened Bits

  type byte = b: int | 0 <= b < 256

  datatype DecodeError =
    | IntOverflow | UnexpectedEOF | InvalidLength | UnexpectedEndOfGroup
    | EndGroup | IllegalTag | WrongWireType | IllegalWireType

  /** A decoded value and the number of bytes it took, or an error. */
  datatype Read<+T> = Read(value: T, size: nat) | Failed(error: DecodeError) {
    /** The same read, started `n` bytes earlier. */
    function After(n: nat): Read<T> {
      if Read? then Read(value, size + n) else this
    }
  }

  ghost predicate Uint64(v: int) { 0 <= v < 0x1_0000_0000_0000_0000 }
  ghost predicate Int64(v: int) { -0x8000_0000_0000_0000 <= v < 0x8000_0000_0000_0000 }
  ghost predicate Int32(v: int) { -0x8000_0000 <= v < 0x8000_0000 }

  // ----- two's complement conversions

  /** `uint64(v)` for an int32 or int64: negative numbers are sign-extended. */
  function ToUint64(v: int): (u: nat)
    ensures Uint64(u)
  {
    v % 0x1_0000_0000_0000_0000
  }

  function ToInt64(u: nat): int {
    if u % 0x1_0000_0000_0000_0000 >= 0x8000_0000_0000_0000
    then u % 0x1_0000_0000_0000_0000 - 0x1_0000_0000_0000_0000
    else u % 0x1_0000_0000_0000_0000
  }

  function ToInt32(u: nat): int {
    if u % 0x1_0000_0000 >= 0x8000_0000 then u % 0x1_0000_0000 - 0x1_0000_0000 else u % 0x1_0000_0000
  }

  /** Sign extension to 64 bits and truncation to the field's width give the number back. */
  lemma {:induction false} SignExtends(v: int)
    requires Int64(v)
    ensures ToInt64(ToUint64(v)) == v
    ensures Int32(v) ==> ToInt32(ToUint64(v) % 0x1_0000_0000) == v
  {
    assert 0x1_0000_0000_0000_0000 == 0x1_0000_0000 * 0x1_0000_0000;
    assert ToUint64(v) == if v < 0 then v + 0x1_0000_0000_0000_0000 else v;
    if Int32(v) && v < 0 {
      var m := 0x1_0000_0000;
      assert ToUint64(v) == (m - 1) * m + (v + m);
    }
  }

  // ----- size and bytes

  /** `sov`: seven bits per byte of the highest bit set, at least one byte. */
  function Sov(x: nat): nat {
    (BitLen(if x % 2 == 0 then x + 1 else x) + 6) / 7
  }

  /** Seven bits at a time, lowest first; the high bit says that more follow. */
  function VarintBytes(v: nat): (r: seq<byte>)
    ensures |r| >= 1
  {
    if v >= 128 then [v % 128 + 128] + VarintBytes(v / 128) else [v]
  }

  lemma BitLenShift7(v: nat)
    requires v >= 128
    ensures BitLen(v) == 7 + BitLen(v / 128)
  {
    assert v / 2 / 2 == v / 4 && v / 4 / 2 == v / 8 && v / 8 / 2 == v / 16;
    assert v / 16 / 2 == v / 32 && v / 32 / 2 == v / 64 && v / 64 / 2 == v / 128;
    assert BitLen(v) == 1 + BitLen(v / 2) == 2 + BitLen(v / 4) == 3 + BitLen(v / 8) == 4 + BitLen(v / 16);
    assert BitLen(v / 16) == 1 + BitLen(v / 32) == 2 + BitLen(v / 64) == 3 + BitLen(v / 128);
  }

  lemma BitLenLowBit(v: nat)
    requires v >= 2 && v % 2 == 0
    ensures BitLen(v + 1) == BitLen(v)
  {
    assert (v + 1) / 2 == v / 2;
  }

  lemma SovSmall(v: nat)
    requires v < 128
    ensures Sov(v) == 1
  {
    var n := if v % 2 == 0 then v + 1 else v;
    BitLenBounds(n);
    SmallPowers();
    if BitLen(n) > 7 {
      Pow2Monotone(7, BitLen(n) - 1);
    }
  }

  lemma SovShift(v: nat)
    requires v >= 128
    ensures Sov(v) == 1 + Sov(v / 128)
  {
    BitLenShift7(v);
    LowBitSet(v);
    LowBitSet(v / 128);
    hide BitLen;
  }

  lemma LowBitSet(v: nat)
    requires v >= 1
    ensures BitLen(if v % 2 == 0 then v + 1 else v) == BitLen(v)
  {
    if v % 2 == 0 {
      BitLenLowBit(v);
    }
  }

  /** For every number, `sov` is the number of bytes that the writer produces. */
  lemma {:induction false} SovIsLength(v: nat)
    ensures |VarintBytes(v)| == Sov(v)
  {
    if v < 128 {
      SovSmall(v);
    } else {
      SovIsLength(v / 128);
      SovShift(v);
      hide Sov;
    }
  }

  lemma {:induction false} VarintLength(v: nat, n: nat)
    requires v < Pow2(7 * n) && n >= 1
    ensures |VarintBytes(v)| <= n
  {
    SmallPowers();
    if v >= 128 {
      if n == 1 {
        assert false;
      }
      Pow2Add(7 * (n - 1), 7);
      VarintLength(v / 128, n - 1);
    }
  }

  /** The writing loop, forward from `at`. */
  method WriteVarint(data: array<byte>, at: nat, num: nat) returns (next: nat)
    requires at + Sov(num) <= data.Length
    modifies data
    ensures next == at + Sov(num)
    ensures |VarintBytes(num)| == Sov(num) && forall j :: at <= j < next ==> data[j] == VarintBytes(num)[j - at]
    ensures forall j :: 0 <= j < at || next <= j < data.Length ==> data[j] == old(data[j])
  {
    SovIsLength(num);
    hide Sov, VarintBytes;
    var v := num;
    next := at;
    ghost var full := VarintBytes(num);
    while v >= 128
      invariant at <= next < at + |full| && full[next - at..] == VarintBytes(v)
      invariant forall j :: at <= j < next ==> data[j] == full[j - at]
      invariant forall j :: 0 <= j < at || next <= j < data.Length ==> data[j] == old(data[j])
      decreases v
    {
      VarintSplits(full, next - at, v);
      data[next] := v % 128 + 128;
      v := v / 128;
      next := next + 1;
    }
    VarintSplits(full, next - at, v);
    data[next] := v;
    next := next + 1;
  }

  lemma VarintSplits(full: seq<byte>, k: nat, v: nat)
    requires k <= |full| && full[k..] == VarintBytes(v)
    ensures k < |full| && full[k] == (if v >= 128 then v % 128 + 128 else v)
    ensures if v >= 128 then k + 1 < |full| && full[k + 1..] == VarintBytes(v / 128) else k + 1 == |full|
  {
    assert full[k..][0] == full[k];
    if v >= 128 {
      assert full[k + 1..] == full[k..][1..] == VarintBytes(v / 128);
    }
  }

  /** `encodeVarint`: fills exactly the `sov` bytes that end at `offset`. */
  method EncodeVarint(data: array<byte>, offset: int, v: nat) returns (base: nat)
    requires Sov(v) <= offset <= data.Length
    modifies data
    ensures base == offset - Sov(v)
    ensures forall j :: 0 <= j < base ==> data[j] == old(data[j])
    ensures data[base..] == VarintBytes(v) + old(data[offset..])
  {
    base := offset - Sov(v);
    var _ := WriteVarint(data, base, v);
    assert data[base..offset] == VarintBytes(v);
    assert data[offset..] == old(data[offset..]);
    assert data[base..] == data[base..offset] + data[offset..];
  }

  // ----- reading

  /** One varint from the front of `s`, accumulated in a variable of `width` bits. The seven bits of
      each byte land above those read before, so the accumulating OR is a sum. */
  function ReadVarint(s: seq<byte>, shift: nat, acc: nat, width: nat): Read<nat> {
    if shift >= 64 then Failed(IntOverflow)
    else if s == [] then Failed(UnexpectedEOF)
    else
      var acc' := (acc + s[0] % 128 * Pow2(shift)) % Pow2(width);
      if s[0] < 128 then Read(acc', 1) else ReadVarint(s[1..], shift + 7, acc', width).After(1)
  }

  lemma {:induction false} ReadWithin(s: seq<byte>, shift: nat, acc: nat, width: nat)
    ensures var r := ReadVarint(s, shift, acc, width);
            r.Read? ==> 1 <= r.size <= |s|
    decreases |s|
  {
    hide Pow2;
    if shift < 64 && s != [] && s[0] >= 128 {
      var acc' := (acc + s[0] % 128 * Pow2(shift)) % Pow2(width);
      ReadWithin(s[1..], shift + 7, acc', width);
    }
  }

  lemma ModAdds(a: nat, b: nat, m: nat)
    requires m > 0
    ensures (a % m + b) % m == (a + b) % m
  {
    var q := a / m;
    assert a == q * m + a % m;
    ModShift(a % m + b, q, m);
  }

  lemma {:induction false} ModShift(x: nat, q: nat, m: nat)
    requires m > 0
    ensures (x + q * m) % m == x % m
  {
    if q > 0 {
      ModShift(x, q - 1, m);
      var y := x + (q - 1) * m;
      assert x + q * m == y + m;
      ModStep(y, m);
    }
  }

  lemma ModStep(y: nat, m: nat)
    requires m > 0
    ensures (y + m) % m == y % m
  {
    var q, r := y / m, y % m;
    assert y + m == (q + 1) * m + r;
    DivUnique(y + m, m, q + 1);
    assert (y + m) / m == q + 1;
  }

  /** The reading loop undoes the writer, in any accumulator width, and stops at the last byte written. */
  lemma {:induction false} ReadsWritten(v: nat, tail: seq<byte>, shift: nat, acc: nat, width: nat)
    requires shift < 64 && v < Pow2(64 - shift)
    ensures ReadVarint(VarintBytes(v) + tail, shift, acc, width)
            == Read((acc + v * Pow2(shift)) % Pow2(width), |VarintBytes(v)|)
    decreases v
  {
    hide Pow2;
    if v >= 128 {
      ShiftLeaves(v, shift);
      var acc' := (acc + v % 128 * Pow2(shift)) % Pow2(width);
      ReadsWritten(v / 128, tail, shift + 7, acc', width);
      ReadsDigit(v, tail, shift, acc, width);
    } else {
      assert (VarintBytes(v) + tail)[0] == v;
    }
  }

  lemma ReadsDigit(v: nat, tail: seq<byte>, shift: nat, acc: nat, width: nat)
    requires shift < 64 && v >= 128
    ensures var acc' := (acc + v % 128 * Pow2(shift)) % Pow2(width);
            && ReadVarint(VarintBytes(v) + tail, shift, acc, width)
               == ReadVarint(VarintBytes(v / 128) + tail, shift + 7, acc', width).After(1)
            && (acc' + v / 128 * Pow2(shift + 7)) % Pow2(width) == (acc + v * Pow2(shift)) % Pow2(width)
  {
    hide Pow2, ReadVarint;
    DigitAdds(v, shift, acc, Pow2(width));
    ReadsOne(v % 128, VarintBytes(v / 128) + tail, shift, acc, width);
    DigitFirst(v, tail);
  }

  lemma DigitFirst(v: nat, tail: seq<byte>)
    requires v >= 128
    ensures VarintBytes(v) + tail == [v % 128 + 128] + (VarintBytes(v / 128) + tail)
  {
  }

  lemma ReadsOne(digit: nat, rest: seq<byte>, shift: nat, acc: nat, width: nat)
    requires digit < 128 && shift < 64
    ensures ReadVarint([digit + 128] + rest, shift, acc, width)
            == ReadVarint(rest, shift + 7, (acc + digit * Pow2(shift)) % Pow2(width), width).After(1)
  {
    hide Pow2;
    assert ([digit + 128] + rest)[1..] == rest;
  }

  lemma DigitAdds(v: nat, shift: nat, acc: nat, m: nat)
    requires m > 0
    ensures ((acc + v % 128 * Pow2(shift)) % m + v / 128 * Pow2(shift + 7)) % m == (acc + v * Pow2(shift)) % m
  {
    hide Pow2;
    Pow2Add(shift, 7);
    SmallPowers();
    var p, hi, lo := Pow2(shift), v / 128, v % 128;
    ModAdds(acc + lo * p, hi * Pow2(shift + 7), m);
    SplitDigits(hi, lo, p);
    assert v == hi * 128 + lo;
  }

  lemma SplitDigits(hi: nat, lo: nat, p: nat)
    ensures lo * p + hi * (p * 128) == (hi * 128 + lo) * p
  {
  }

  lemma ShiftLeaves(v: nat, shift: nat)
    requires shift < 64 && 128 <= v < Pow2(64 - shift)
    ensures shift + 7 < 64 && v / 128 < Pow2(64 - (shift + 7))
  {
    SmallPowers();
    if shift + 7 >= 64 {
      Pow2Monotone(64 - shift, 7);
    } else {
      Pow2Add(64 - (shift + 7), 7);
    }
  }

  /** Every uint64 is read back, in full or truncated to 32 bits. */
  lemma {:induction false} VarintRoundTrip(v: nat, tail: seq<byte>)
    requires Uint64(v)
    ensures ReadVarint(VarintBytes(v) + tail, 0, 0, 64) == Read(v, Sov(v))
    ensures ReadVarint(VarintBytes(v) + tail, 0, 0, 32) == Read(v % 0x1_0000_0000, Sov(v))
  {
    hide Pow2, ReadVarint, VarintBytes, Sov;
    SmallPowers();
    LargePowers();
    Pow2Add(63, 1);
    ReadsWritten(v, tail, 0, 0, 64);
    ReadsWritten(v, tail, 0, 0, 32);
    SovIsLength(v);
  }

  /** The reading loop. */
  method DecodeVarint(data: seq<byte>, iNdEx: nat, width: nat) returns (r: Read<nat>)
    requires iNdEx <= |data|
    ensures r == ReadVarint(data[iNdEx..], 0, 0, width)
    ensures r.Read? ==> 1 <= r.size <= |data| - iNdEx
  {
    hide Pow2;
    ReadWithin(data[iNdEx..], 0, 0, width);
    var i: nat, shift: nat, acc: nat := iNdEx, 0, 0;
    while true
      invariant iNdEx <= i <= |data|
      invariant ReadVarint(data[iNdEx..], 0, 0, width) == ReadVarint(data[i..], shift, acc, width).After(i - iNdEx)
      decreases |data| - i
    {
      if shift >= 64 {
        return Failed(IntOverflow);
      }
      if i >= |data| {
        return Failed(UnexpectedEOF);
      }
      var b := data[i];
      assert data[i..][0] == b && data[i..][1..] == data[i + 1..];
      i := i + 1;
      acc := (acc + b % 128 * Pow2(shift)) % Pow2(width);
      if b < 128 {
        return Read(acc, i - iNdEx);
      }
      shift := shift + 7;
    }
  }
}
