/** The database key: interval, processing time, ID and partition in 28 big-endian bytes. */
module KeyCodec {
  import opened Bits
  import opened Histograms
  import opened Varint
  import opened ByteOrder

  const ENCODED_SIZE := 28
  const ID_SIZE := 16

  /** `CombinedMetricsKey` as it is encoded: the interval in whole seconds, the processing time in Unix
      seconds. */
  datatype Key = Key(interval: nat, time: int, id: seq<byte>, partition: nat)

  /** The keys whose fields fit their encoded widths: all of Go's types, with intervals below 2^16 seconds. */
  ghost predicate ValidKey(k: Key) {
    k.interval < 0x1_0000 && Int64(k.time) && |k.id| == ID_SIZE && k.partition < 0x1_0000
  }

  /** `n` bytes of `v`, the highest first; higher digits are cut off. */
  function BigEndian(v: nat, n: nat): (r: seq<byte>)
    ensures |r| == n
  {
    if n == 0 then [] else BigEndian(v / 256, n - 1) + [v % 256]
  }

  function FromBigEndian(s: seq<byte>): nat {
    if s == [] then 0 else 256 * FromBigEndian(s[..|s| - 1]) + s[|s| - 1]
  }

  function Encode(k: Key): (r: seq<byte>)
    ensures |r| == 12 + |k.id|
  {
    BigEndian(k.interval, 2) + (BigEndian(ToUint64(k.time), 8) + (k.id + BigEndian(k.partition, 2)))
  }

  lemma {:induction false} BigEndianReads(v: nat, n: nat)
    requires v < Pow2(8 * n)
    ensures FromBigEndian(BigEndian(v, n)) == v
  {
    if n > 0 {
      Pow2Add(8 * (n - 1), 8);
      SmallPowers();
      hide Pow2;
      BigEndianReads(v / 256, n - 1);
      var r := BigEndian(v, n);
      assert r[..n - 1] == BigEndian(v / 256, n - 1);
    }
  }

  lemma WidthPowers()
    ensures Pow2(8 * 2) == 0x1_0000 && Pow2(8 * 8) == 0x1_0000_0000_0000_0000
  {
    SmallPowers();
    Pow2Add(8, 8);
    LargePowers();
    Pow2Add(63, 1);
  }

  /** On numbers that fit, big-endian bytes compare as the numbers do. */
  lemma {:induction false} BigEndianOrders(v: nat, w: nat, n: nat)
    requires v < Pow2(8 * n) && w < Pow2(8 * n)
    ensures Less(BigEndian(v, n), BigEndian(w, n)) <==> v < w
    ensures BigEndian(v, n) == BigEndian(w, n) <==> v == w
  {
    hide Pow2, FromBigEndian, Less;
    SmallPowers();
    BigEndianReads(v, n);
    BigEndianReads(w, n);
    if n == 0 {
      LessIrreflexive([]);
    } else {
      Pow2Add(8 * (n - 1), 8);
      BigEndianOrders(v / 256, w / 256, n - 1);
      LessConcat(BigEndian(v / 256, n - 1), [v % 256], BigEndian(w / 256, n - 1), [w % 256]);
      LessSingle(v % 256, w % 256);
    }
  }

  lemma LessSingle(a: byte, b: byte)
    ensures Less([a], [b]) <==> a < b
  {
  }

  // ----- the codec

  /** `MarshalBinaryToSizedBuffer`: refuses a buffer of any other size. */
  method MarshalBinaryToSizedBuffer(k: Key, data: array<byte>) returns (ok: bool)
    requires |k.id| == ID_SIZE
    modifies data
    ensures ok <==> data.Length == ENCODED_SIZE
    ensures ok ==> data[..] == Encode(k)
    ensures !ok ==> data[..] == old(data[..])
  {
    if data.Length != ENCODED_SIZE {
      return false;
    }
    hide BigEndian;
    var offset := 0;
    PutAt(data, offset, BigEndian(k.interval, 2));
    offset := offset + 2;
    PutAt(data, offset, BigEndian(ToUint64(k.time), 8));
    offset := offset + 8;
    PutAt(data, offset, k.id);
    offset := offset + 16;
    PutAt(data, offset, BigEndian(k.partition, 2));
    Assembled(data[..], k);
    return true;
  }

  method PutAt(data: array<byte>, offset: nat, b: seq<byte>)
    requires offset + |b| <= data.Length
    modifies data
    ensures data[offset..offset + |b|] == b
    ensures forall j :: 0 <= j < offset || offset + |b| <= j < data.Length ==> data[j] == old(data[j])
  {
    for i := 0 to |b|
      invariant forall j :: offset <= j < offset + i ==> data[j] == b[j - offset]
      invariant forall j :: 0 <= j < offset || offset + |b| <= j < data.Length ==> data[j] == old(data[j])
    {
      data[offset + i] := b[i];
    }
  }

  lemma Assembled(s: seq<byte>, k: Key)
    requires |s| == ENCODED_SIZE && |k.id| == ID_SIZE
    requires s[0..2] == BigEndian(k.interval, 2) && s[2..10] == BigEndian(ToUint64(k.time), 8)
    requires s[10..26] == k.id && s[26..28] == BigEndian(k.partition, 2)
    ensures s == Encode(k)
  {
    hide BigEndian;
    assert s == s[0..2] + (s[2..10] + (s[10..26] + s[26..28]));
  }

  lemma Parts(k: Key)
    requires |k.id| == ID_SIZE
    ensures var s := Encode(k);
            && s[0..2] == BigEndian(k.interval, 2) && s[2..10] == BigEndian(ToUint64(k.time), 8)
            && s[10..26] == k.id && s[26..28] == BigEndian(k.partition, 2)
  {
    hide BigEndian;
    var a, b, c, d := BigEndian(k.interval, 2), BigEndian(ToUint64(k.time), 8), k.id, BigEndian(k.partition, 2);
    assert (a + (b + (c + d)))[2..10] == b && (a + (b + (c + d)))[10..26] == c && (a + (b + (c + d)))[26..28] == d;
  }

  datatype Unmarshalled = Unmarshalled(key: Key) | TooShort | Panics

  /** The bytes from `from` to `to`, or none where the data ends before. Go checks a slice with an upper bound
      against the capacity, so within a longer array the panic may come only from the next read, which is
      checked against the length; the outcome is the same. */
  function Slice(data: seq<byte>, from: nat, to: nat): Option<seq<byte>>
    requires from <= to
  {
    if to <= |data| then Some(data[from..to]) else None
  }

  /** `UnmarshalBinary`: fewer than 12 bytes are refused, and bytes past the 28th are ignored. From 12 to
      27 bytes pass the length check, and then a slice or a 16-bit read past the end panics. */
  method UnmarshalBinary(data: seq<byte>) returns (r: Unmarshalled)
    ensures r.TooShort? <==> |data| < 12
    ensures r.Panics? <==> 12 <= |data| < ENCODED_SIZE
    ensures forall k, tail :: ValidKey(k) && data == Encode(k) + tail ==> r == Unmarshalled(k)
  {
    if |data| < 12 {
      return TooShort;
    }
    hide BigEndian, FromBigEndian, ToInt64;
    var interval, time := data[0..2], data[2..10];
    var id := Slice(data, 10, 10 + ID_SIZE);
    if id.None? {
      return Panics;
    }
    var partition := Slice(data, 10 + ID_SIZE, ENCODED_SIZE);
    if partition.None? {
      return Panics;
    }
    r := Unmarshalled(Key(FromBigEndian(interval), ToInt64(FromBigEndian(time)), id.value, FromBigEndian(partition.value)));
    forall k, tail | ValidKey(k) && data == Encode(k) + tail
      ensures r == Unmarshalled(k)
    {
      assert data[0..2] == Encode(k)[0..2] && data[2..10] == Encode(k)[2..10];
      assert data[10..26] == Encode(k)[10..26] && data[26..28] == Encode(k)[26..28];
      Reads(k);
    }
  }

  lemma Reads(k: Key)
    requires ValidKey(k)
    ensures var s := Encode(k);
            k == Key(FromBigEndian(s[0..2]), ToInt64(FromBigEndian(s[2..10])), s[10..26], FromBigEndian(s[26..28]))
  {
    hide BigEndian, FromBigEndian, ToInt64;
    Parts(k);
    WidthPowers();
    hide Pow2;
    BigEndianReads(k.interval, 2);
    BigEndianReads(ToUint64(k.time), 8);
    BigEndianReads(k.partition, 2);
    SignExtends(k.time);
  }

  /** Different keys have different encodings. */
  lemma {:induction false} EncodeInjective(k: Key, l: Key)
    requires ValidKey(k) && ValidKey(l) && Encode(k) == Encode(l)
    ensures k == l
  {
    hide Encode;
    Reads(k);
    Reads(l);
  }

  /** `GetEncodedCombinedMetricsKeyWithoutPartitionID`: the encoding of the key in partition 0. */
  lemma {:induction false} WithoutPartition(k: Key)
    requires |k.id| == ID_SIZE
    ensures Encode(k)[..26] + [0, 0] == Encode(k.(partition := 0))
  {
    Parts(k);
    var s := Encode(k)[..26] + [0, 0];
    assert BigEndian(0, 2) == [0, 0] by {
      assert BigEndian(0, 0) == [] && BigEndian(0, 1) == [0];
    }
    hide BigEndian;
    assert s[0..2] == Encode(k)[0..2] && s[2..10] == Encode(k)[2..10] && s[10..26] == Encode(k)[10..26];
    Assembled(s, k.(partition := 0));
  }

  // ----- order

  /** Keys in order of interval, time, ID and partition. */
  ghost predicate Before(k: Key, l: Key) {
    k.interval < l.interval
    || (k.interval == l.interval
        && (k.time < l.time
            || (k.time == l.time && (Less(k.id, l.id) || (k.id == l.id && k.partition < l.partition)))))
  }

  /** The order that the bytes have: times as unsigned numbers. */
  ghost predicate BytesBefore(k: Key, l: Key) {
    Before(k.(time := ToUint64(k.time)), l.(time := ToUint64(l.time)))
  }

  lemma BytesOrder(k: Key, l: Key)
    requires ValidKey(k) && ValidKey(l)
    ensures Less(Encode(k), Encode(l)) <==> BytesBefore(k, l)
  {
    hide BigEndian, Less, ToUint64;
    WidthPowers();
    hide Pow2;
    var kt, lt := ToUint64(k.time), ToUint64(l.time);
    BigEndianOrders(k.interval, l.interval, 2);
    BigEndianOrders(kt, lt, 8);
    BigEndianOrders(k.partition, l.partition, 2);
    var k3, l3 := BigEndian(k.partition, 2), BigEndian(l.partition, 2);
    var k2, l2 := k.id + k3, l.id + l3;
    var k1, l1 := BigEndian(kt, 8) + k2, BigEndian(lt, 8) + l2;
    LessConcat(BigEndian(k.interval, 2), k1, BigEndian(l.interval, 2), l1);
    LessConcat(BigEndian(kt, 8), k2, BigEndian(lt, 8), l2);
    LessConcat(k.id, k3, l.id, l3);
  }

  /** Unsigned times compare as the signed ones exactly when both lie on the same side of the epoch. */
  lemma UnsignedOrder(a: int, b: int)
    requires Int64(a) && Int64(b)
    ensures (a < 0 <==> b < 0) ==> (ToUint64(a) < ToUint64(b) <==> a < b)
    ensures a < 0 <= b ==> ToUint64(b) < ToUint64(a)
    ensures ToUint64(a) == ToUint64(b) <==> a == b
  {
    SignExtends(a);
    SignExtends(b);
    assert ToUint64(a) == if a < 0 then a + 0x1_0000_0000_0000_0000 else a;
    assert ToUint64(b) == if b < 0 then b + 0x1_0000_0000_0000_0000 else b;
  }

  /** For all keys, byte order is the order on interval, time, ID and partition exactly when the intervals
      differ or both times lie on the same side of the Unix epoch. */
  lemma {:induction false} OrderPreservedIff(k: Key, l: Key)
    requires ValidKey(k) && ValidKey(l)
    ensures (Less(Encode(k), Encode(l)) <==> Before(k, l))
            <==> (k.interval != l.interval || (k.time < 0 <==> l.time < 0))
  {
    hide Encode, Less, ToUint64;
    BytesOrder(k, l);
    UnsignedOrder(k.time, l.time);
    UnsignedOrder(l.time, k.time);
  }

  /** In particular for times from the epoch on. */
  lemma OrderPreserved(k: Key, l: Key)
    requires ValidKey(k) && ValidKey(l) && k.time >= 0 && l.time >= 0
    ensures Less(Encode(k), Encode(l)) <==> Before(k, l)
  {
    hide Encode, Less;
    OrderPreservedIff(k, l);
  }

  /** A time before the epoch sorts after every later one of the same interval. */
  lemma {:induction false} NegativeTimesSortLast(k: Key, l: Key)
    requires ValidKey(k) && ValidKey(l) && k.interval == l.interval && k.time < 0 <= l.time
    ensures Less(Encode(l), Encode(k)) && !Less(Encode(k), Encode(l))
  {
    hide Encode, Less, ToUint64;
    BytesOrder(k, l);
    BytesOrder(l, k);
    UnsignedOrder(k.time, l.time);
  }

  // ----- harvest ranges

  /** The bound that a harvest encodes: zero ID and partition. */
  function Bound(interval: nat, time: int): Key {
    Key(interval, time, seq(ID_SIZE, _ => 0), 0)
  }

  lemma {:induction false} ZeroIsLeast(id: seq<byte>, zero: seq<byte>)
    requires |id| == |zero| && forall i :: 0 <= i < |zero| ==> zero[i] == 0
    ensures !Less(id, zero)
  {
    if id != [] {
      ZeroIsLeast(id[1..], zero[1..]);
    }
  }

  /** The range from one bound to the other holds exactly the keys of that interval and those times. */
  lemma {:induction false} RangeIsWindow(k: Key, interval: nat, start: int, end: int)
    requires ValidKey(k) && k.time >= 0 && interval < 0x1_0000
    requires 0 <= start && 0 <= end && Int64(start) && Int64(end)
    ensures (!Less(Encode(k), Encode(Bound(interval, start))) && Less(Encode(k), Encode(Bound(interval, end))))
            <==> (k.interval == interval && start <= k.time < end)
  {
    hide Encode, Less;
    var zero := seq(ID_SIZE, _ => 0);
    ZeroIsLeast(k.id, zero);
    OrderPreserved(k, Bound(interval, start));
    OrderPreserved(k, Bound(interval, end));
  }
}
