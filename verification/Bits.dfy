/** Powers of two, bit lengths and division facts that the index arithmetic and the wire format rest on. */
module Bits {

  const MAX_INT64 := 0x7FFF_FFFF_FFFF_FFFF

  function Pow2(n: nat): (p: nat)
    ensures p >= 1
  {
    if n == 0 then 1 else 2 * Pow2(n - 1)
  }

  /** `bits.Len64`: the number of bits needed to write `n`. */
  function BitLen(n: nat): nat {
    if n == 0 then 0 else 1 + BitLen(n / 2)
  }

  lemma {:induction false} Pow2Monotone(m: nat, n: nat)
    requires m <= n
    ensures Pow2(m) <= Pow2(n)
  {
    if m < n {
      Pow2Monotone(m, n - 1);
    }
  }

  lemma {:induction false} Pow2Add(m: nat, n: nat)
    ensures Pow2(m + n) == Pow2(m) * Pow2(n)
  {
    if n > 0 {
      Pow2Add(m, n - 1);
      assert Pow2(m + n) == 2 * Pow2(m + (n - 1));
    }
  }

  lemma {:induction false} BitLenBounds(n: nat)
    requires n > 0
    ensures BitLen(n) >= 1 && Pow2(BitLen(n) - 1) <= n < Pow2(BitLen(n))
  {
    if n > 1 {
      BitLenBounds(n / 2);
    } else {
      assert BitLen(0) == 0;
    }
  }

  lemma BitLenUnique(n: nat, k: nat)
    requires Pow2(k) <= n < Pow2(k + 1)
    ensures BitLen(n) == k + 1
  {
    BitLenBounds(n);
    var l := BitLen(n);
    if l < k + 1 {
      Pow2Monotone(l, k);
    } else if l > k + 1 {
      Pow2Monotone(k + 1, l - 1);
    }
  }

  lemma SmallPowers()
    ensures Pow2(0) == 1 && Pow2(1) == 2 && Pow2(7) == 128 && Pow2(8) == 256
  {
  }

  lemma LargePowers()
    ensures Pow2(31) == 0x8000_0000 && Pow2(32) == 0x1_0000_0000
    ensures Pow2(62) == 0x4000_0000_0000_0000 && Pow2(63) == MAX_INT64 + 1
  {
    SmallPowers();
    Pow2Add(8, 8);
    Pow2Add(16, 8);
    Pow2Add(24, 7);
    Pow2Add(31, 1);
    Pow2Add(31, 31);
    Pow2Add(62, 1);
  }

  lemma MulLe(a: int, b: int, p: nat)
    requires a <= b
    ensures a * p <= b * p
  {
  }

  lemma DivMonotone(v: nat, w: nat, p: nat)
    requires p >= 1 && v <= w
    ensures v / p <= w / p
  {
    var a, b := v / p, w / p;
    assert a * p <= v && w < (b + 1) * p;
    if a > b {
      MulLe(b + 1, a, p);
    }
  }

  lemma DivBounds(v: nat, p: nat)
    requires p >= 1
    ensures (v / p) * p <= v < (v / p) * p + p
  {
  }

  lemma DivUnique(v: nat, p: nat, s: nat)
    requires p >= 1 && s * p <= v < (s + 1) * p
    ensures v / p == s
  {
    var q := v / p;
    assert q * p <= v < (q + 1) * p;
    if q < s {
      MulLe(q + 1, s, p);
    } else if q > s {
      MulLe(s + 1, q, p);
    }
  }

  lemma DivMod(x: nat, m: nat, q: nat, r: nat)
    requires m > 0 && x == q * m + r && r < m
    ensures x % m == r
  {
    assert (q + 1) * m == q * m + m;
    DivUnique(x, m, q);
  }

  /** `v >> n`. */
  function ShiftRight(v: nat, n: nat): nat {
    if n == 0 then v else ShiftRight(v / 2, n - 1)
  }

  lemma {:induction false} ShiftTwice(v: nat, a: nat, b: nat)
    ensures ShiftRight(ShiftRight(v, a), b) == ShiftRight(v, a + b)
  {
    if a > 0 {
      ShiftTwice(v / 2, a - 1, b);
    }
  }

  lemma ShiftBytes(v: nat)
    ensures ShiftRight(v, 0) == v && ShiftRight(v, 7) == v / 128 && ShiftRight(v, 8) == v / 256
  {
    assert v / 2 / 2 == v / 4 && v / 4 / 2 == v / 8 && v / 8 / 2 == v / 16 && v / 16 / 2 == v / 32;
    assert v / 32 / 2 == v / 64 && v / 64 / 2 == v / 128 && v / 128 / 2 == v / 256;
    assert ShiftRight(v, 8) == ShiftRight(v / 2, 7) == ShiftRight(v / 4, 6) == ShiftRight(v / 8, 5) == ShiftRight(v / 16, 4);
    assert ShiftRight(v / 16, 4) == ShiftRight(v / 32, 3) == ShiftRight(v / 64, 2) == ShiftRight(v / 128, 1) == v / 256;
    assert ShiftRight(v, 7) == ShiftRight(v / 2, 6) == ShiftRight(v / 4, 5) == ShiftRight(v / 8, 4) == ShiftRight(v / 16, 3);
    assert ShiftRight(v / 16, 3) == ShiftRight(v / 32, 2) == ShiftRight(v / 64, 1) == v / 128;
  }
}
