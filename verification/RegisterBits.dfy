/**
 The bits of a 16-bit machine register, read from either end.
 */
module RegisterBits {
  import opened Gf2

  function Mask(i: nat): (m: bv16)
    requires i < 16
  {
    if i == 0 then 1 else Mask(i - 1) << 1
  }

  lemma Masks()
    ensures Mask(0) == 0x0001 && Mask(1) == 0x0002 && Mask(2) == 0x0004 && Mask(3) == 0x0008
    ensures Mask(4) == 0x0010 && Mask(5) == 0x0020 && Mask(6) == 0x0040 && Mask(7) == 0x0080
    ensures Mask(8) == 0x0100 && Mask(9) == 0x0200 && Mask(10) == 0x0400 && Mask(11) == 0x0800
    ensures Mask(12) == 0x1000 && Mask(13) == 0x2000 && Mask(14) == 0x4000 && Mask(15) == 0x8000
  {
  }

  predicate Has(r: bv16, i: nat)
    requires i < 16
  {
    r & Mask(i) != 0
  }

  lemma MaskIsPower(i: nat)
    requires i < 16
    ensures Mask(i) != 0 && Mask(i) & (Mask(i) - 1) == 0
    ensures i < 15 ==> Mask(i) & 0x8000 == 0
  {
    Masks();
  }

  lemma MaskedXor(r: bv16, s: bv16, m: bv16)
    requires m != 0 && m & (m - 1) == 0
    ensures ((r ^ s) & m != 0) == ((r & m != 0) != (s & m != 0))
  {
    assert (r ^ s) & m == (r & m) ^ (s & m);
    assert r & m == 0 || r & m == m;
    assert s & m == 0 || s & m == m;
  }

  lemma MaskedShift(r: bv16, m: bv16)
    requires m & 0x8000 == 0
    ensures ((r << 1) & (m << 1) != 0) == (r & m != 0)
    ensures ((r >> 1) & m != 0) == (r & (m << 1) != 0)
    ensures (r << 1) & 1 == 0 && (r >> 1) & 0x8000 == 0
  {
    assert (r << 1) & (m << 1) == (r & m) << 1;
    assert (r >> 1) & m == (r & (m << 1)) >> 1;
  }

  lemma HasXor(r: bv16, s: bv16, i: nat)
    requires i < 16
    ensures Has(r ^ s, i) == (Has(r, i) != Has(s, i))
  {
    MaskIsPower(i);
    MaskedXor(r, s, Mask(i));
  }

  lemma HasShiftLeft(r: bv16, i: nat)
    requires 0 < i < 16
    ensures Has(r << 1, i) == Has(r, i - 1)
  {
    MaskIsPower(i - 1);
    var m := Mask(i - 1);
    assert Mask(i) == m << 1;
    assert ((r << 1) & (m << 1) != 0) == (r & m != 0) by { MaskedShift(r, m); }
  }

  lemma HasShiftRight(r: bv16, i: nat)
    requires i < 15
    ensures Has(r >> 1, i) == Has(r, i + 1)
  {
    MaskIsPower(i);
    var m := Mask(i);
    assert Mask(i + 1) == m << 1;
    assert ((r >> 1) & m != 0) == (r & (m << 1) != 0) by { MaskedShift(r, m); }
  }

  lemma LowBitCleared(r: bv16)
    ensures !Has(r << 1, 0)
  {
  }

  lemma TopBitCleared(r: bv16)
    ensures !Has(r >> 1, 15)
  {
    assert Mask(15) == 0x8000 by { Masks(); }
  }

  /** The n low bits of r, highest first. */
  function HighFirst(r: bv16, n: nat): (b: Bits)
    requires n <= 16
    ensures |b| == n
  {
    seq(n, i requires 0 <= i < n => Has(r, n - 1 - i))
  }

  /** The n low bits of r, lowest first. */
  function LowFirst(r: bv16, n: nat): (b: Bits)
    requires n <= 16
    ensures |b| == n
  {
    seq(n, i requires 0 <= i < n => Has(r, i))
  }

  lemma SameBits(r: bv16, s: bv16)
    requires r == s
    ensures HighFirst(r, 16) == HighFirst(s, 16) && LowFirst(r, 16) == LowFirst(s, 16)
  {
  }

  lemma FirstXor(r: bv16, s: bv16, n: nat)
    requires n <= 16
    ensures HighFirst(r ^ s, n) == Xor(HighFirst(r, n), HighFirst(s, n))
    ensures LowFirst(r ^ s, n) == Xor(LowFirst(r, n), LowFirst(s, n))
  {
    forall i | 0 <= i < n ensures Has(r ^ s, i) == (Has(r, i) != Has(s, i)) { HasXor(r, s, i); }
  }

  lemma BitsOfSum(t: bv16, r: bv16, s: bv16)
    requires t == r ^ s
    ensures HighFirst(t, 16) == Xor(HighFirst(r, 16), HighFirst(s, 16))
    ensures LowFirst(t, 16) == Xor(LowFirst(r, 16), LowFirst(s, 16))
  {
    FirstXor(r, s, 16);
    SameBits(t, r ^ s);
  }

  lemma HighFirstShift(r: bv16)
    ensures HighFirst(r << 1, 16) == HighFirst(r, 16)[1..] + [false]
  {
    LowBitCleared(r);
    var left := r << 1;
    forall i | 0 < i < 16 ensures Has(left, i) == Has(r, i - 1) { HasShiftLeft(r, i); }
    ElementsShifted(HighFirst(left, 16), HighFirst(r, 16));
  }

  lemma LowFirstShift(r: bv16)
    ensures LowFirst(r >> 1, 16) == LowFirst(r, 16)[1..] + [false]
  {
    TopBitCleared(r);
    var right := r >> 1;
    forall i | 0 <= i < 15 ensures Has(right, i) == Has(r, i + 1) { HasShiftRight(r, i); }
    ElementsShifted(LowFirst(right, 16), LowFirst(r, 16));
  }

  lemma ElementsShifted(a: Bits, b: Bits)
    requires |a| == |b| == 16
    requires forall i | 0 <= i < 15 :: a[i] == b[i + 1]
    requires !a[15]
    ensures a == b[1..] + [false]
  {
  }

  lemma NoBits(r: bv16)
    requires forall i | 0 <= i < 16 :: !Has(r, i)
    ensures r == 0
  {
    Masks();
    assert !Has(r, 0) && !Has(r, 1) && !Has(r, 2) && !Has(r, 3);
    assert !Has(r, 4) && !Has(r, 5) && !Has(r, 6) && !Has(r, 7);
    assert !Has(r, 8) && !Has(r, 9) && !Has(r, 10) && !Has(r, 11);
    assert !Has(r, 12) && !Has(r, 13) && !Has(r, 14) && !Has(r, 15);
  }

  lemma ZeroBits(r: bv16)
    ensures HighFirst(r, 16) == Zeros(16) <==> r == 0
    ensures LowFirst(r, 16) == Zeros(16) <==> r == 0
  {
    var h, l := HighFirst(r, 16), LowFirst(r, 16);
    assert forall i | 0 <= i < 16 :: l[i] == Has(r, i) && h[15 - i] == l[i];
    if h == Zeros(16) || l == Zeros(16) {
      NoBits(r);
    }
    if r == 0 {
      assert forall i | 0 <= i < 16 :: !Has(r, i);
    }
  }

  /** Equal bits mean equal registers. */
  lemma BitsInjective(r: bv16, s: bv16)
    ensures HighFirst(r, 16) == HighFirst(s, 16) <==> r == s
    ensures LowFirst(r, 16) == LowFirst(s, 16) <==> r == s
  {
    FirstXor(r, s, 16);
    ZeroBits(r ^ s);
    XorIsZero(HighFirst(r, 16), HighFirst(s, 16));
    XorIsZero(LowFirst(r, 16), LowFirst(s, 16));
    assert r ^ s == 0 <==> r == s;
  }

  lemma ByteMask(b: bv8, m: bv16)
    requires m & 0xFF00 == 0
    ensures (b as bv16 << 8) & (m << 8) == (b as bv16 & m) << 8
    ensures (b as bv16 << 8) & m == 0 && b as bv16 & (m << 8) == 0
    ensures (b as bv16 & m) << 8 == 0 <==> b as bv16 & m == 0
  {
  }

  lemma HasByte(b: bv8, i: nat)
    requires i < 8
    ensures Has(b as bv16 << 8, i + 8) == Has(b as bv16, i)
    ensures !Has(b as bv16 << 8, i) && !Has(b as bv16, i + 8)
  {
    var m := Mask(i);
    assert Mask(i + 8) == m << 8 && m & 0xFF00 == 0 by { Masks(); }
    ByteMask(b, m);
  }

  /** A byte placed in the half of the register that the first eight clocks consume. */
  lemma BytePlaced(b: bv8)
    ensures HighFirst(b as bv16 << 8, 16) == HighFirst(b as bv16, 8) + Zeros(8)
    ensures LowFirst(b as bv16, 16) == LowFirst(b as bv16, 8) + Zeros(8)
  {
    var x, y := b as bv16 << 8, b as bv16;
    forall i | 8 <= i < 16 ensures Has(x, i) == Has(y, i - 8) && !Has(y, i) {
      HasByte(b, i - 8);
    }
    forall i | 0 <= i < 8 ensures !Has(x, i) {
      HasByte(b, i);
    }
  }
}
