/**
 Bit operations on unsigned words as arithmetic, bit by bit, and how they go
 together with byte swapping and with contiguous masks.
 */
module BitOps {
  import opened Bytes

  datatype Op = And | Or

  type bit = b: int | 0 <= b < 2

  function Pow2(k: nat): (p: nat)
    ensures p > 0
  {
    if k == 0 then 1 else 2 * Pow2(k - 1)
  }

  function OnBits(op: Op, a: bit, b: bit): bit {
    if op == And then a * b else if a + b > 0 then 1 else 0
  }

  /** x op y in this many bits. */
  function Bitwise(op: Op, x: nat, y: nat, width: nat): (r: nat)
    ensures r < Pow2(width)
  {
    if width == 0 then 0 else 2 * Bitwise(op, x / 2, y / 2, width - 1) + OnBits(op, x % 2, y % 2)
  }

  lemma Powers()
    ensures Pow2(8) == 0x100 && Pow2(16) == 0x1_0000 && Pow2(32) == 0x1_0000_0000
  {
    assert Pow2(4) == 16;
    PowerSum(4, 4);
    PowerSum(8, 8);
    PowerSum(16, 16);
  }

  lemma {:induction false} PowerSum(j: nat, k: nat)
    ensures Pow2(j + k) == Pow2(j) * Pow2(k)
  {
    if k > 0 {
      PowerSum(j, k - 1);
      Twice(Pow2(j), Pow2(k - 1));
    }
  }

  lemma Twice(a: nat, b: nat)
    ensures a * (2 * b) == 2 * (a * b)
  {
  }

  function Bitwise32(op: Op, x: uint32, y: uint32): uint32 {
    Powers();
    Bitwise(op, x, y, 32)
  }

  function Not32(x: uint32): uint32 {
    0xFFFF_FFFF - x
  }

  // Parts of a word

  lemma Half(hi: nat, p: nat, lo: nat)
    ensures (hi * (2 * p) + lo) / 2 == hi * p + lo / 2 && (hi * (2 * p) + lo) % 2 == lo % 2
  {
    Twice(hi, p);
  }

  /** High and low bits do not mix. */
  lemma {:induction false} SplitBits(op: Op, x: nat, a: nat, y: nat, b: nat, k: nat, j: nat)
    requires a < Pow2(j) && b < Pow2(j)
    ensures Bitwise(op, x * Pow2(j) + a, y * Pow2(j) + b, k + j)
         == Bitwise(op, x, y, k) * Pow2(j) + Bitwise(op, a, b, j)
  {
    hide OnBits;
    if j > 0 {
      var p := Pow2(j - 1);
      Half(x, p, a);
      Half(y, p, b);
      SplitBits(op, x, a / 2, y, b / 2, k, j - 1);
      Twice(Bitwise(op, x, y, k), p);
    }
  }

  lemma {:induction false} WithZero(op: Op, x: nat, width: nat)
    requires x < Pow2(width)
    ensures Bitwise(op, x, 0, width) == Bitwise(op, 0, x, width) == if op == Or then x else 0
  {
    if width > 0 {
      WithZero(op, x / 2, width - 1);
    }
  }

  lemma {:induction false} WithOnes(x: nat, width: nat)
    requires x < Pow2(width)
    ensures Bitwise(And, x, Pow2(width) - 1, width) == x
  {
    if width > 0 {
      assert (Pow2(width) - 1) / 2 == Pow2(width - 1) - 1 && (Pow2(width) - 1) % 2 == 1;
      WithOnes(x / 2, width - 1);
    }
  }

  /** The multiple of p at or below x. */
  function RoundedDown(x: nat, p: nat): nat
    requires p > 0
  {
    x - x % p
  }

  /** Masking with n ones and k zeroes takes off what is below the ones. */
  lemma MaskedNumber(x: nat, n: nat, k: nat)
    requires x < Pow2(n + k)
    ensures Pow2(n + k) >= Pow2(k) && Bitwise(And, x, Pow2(n + k) - Pow2(k), n + k) == RoundedDown(x, Pow2(k))
  {
    hide Bitwise, Pow2;
    var p, q, r := Pow2(k), x / Pow2(k), x % Pow2(k);
    PowerSum(n, k);
    DivMod(x, p);
    QuotientBelow(x, p, Pow2(n));
    OneLess(Pow2(n), p);
    SplitBits(And, q, r, Pow2(n) - 1, 0, n, k);
    WithOnes(q, n);
    WithZero(And, r, k);
  }

  lemma DivMod(x: nat, p: nat)
    requires p > 0
    ensures x == x / p * p + x % p && x % p < p
  {
  }

  lemma OneLess(m: nat, p: nat)
    requires m > 0
    ensures (m - 1) * p + 0 == m * p - p >= 0
  {
  }

  lemma QuotientBelow(x: nat, p: nat, m: nat)
    requires p > 0 && x < m * p
    ensures x / p < m
  {
    assert x == (x / p) * p + x % p;
    Cancel(p, x / p, m);
  }

  lemma Cancel(p: int, a: int, b: int)
    requires p > 0 && a * p < b * p
    ensures a < b
  {
    assert p * (b - a) == b * p - a * p;
  }

  /** A number below the zeroes of another can be added by or. */
  lemma OrBelow(q: nat, i: nat, n: nat, k: nat)
    requires q < Pow2(n) && i < Pow2(k)
    ensures Bitwise(Or, q * Pow2(k), i, n + k) == q * Pow2(k) + i
  {
    hide Bitwise, Pow2;
    SplitBits(Or, q, 0, 0, i, n, k);
    WithZero(Or, q, n);
    WithZero(Or, i, k);
  }

  // Byte order

  lemma WordBits(op: Op, h: byte, l: byte, g: byte, m: byte)
    ensures Bitwise(op, h, g, 8) < 0x100 && Bitwise(op, l, m, 8) < 0x100
    ensures Bitwise(op, Word(h, l), Word(g, m), 16) == Word(Bitwise(op, h, g, 8), Bitwise(op, l, m, 8))
  {
    hide Bitwise, Pow2;
    Powers();
    SplitBits(op, h, l, g, m, 8, 8);
  }

  lemma DoubleWordBits(op: Op, h: uint16, l: uint16, g: uint16, m: uint16)
    ensures Bitwise(op, h, g, 16) < 0x1_0000 && Bitwise(op, l, m, 16) < 0x1_0000
    ensures Bitwise32(op, DoubleWord(h, l), DoubleWord(g, m))
         == DoubleWord(Bitwise(op, h, g, 16), Bitwise(op, l, m, 16))
  {
    hide Bitwise, Pow2;
    Powers();
    SplitBits(op, h, l, g, m, 16, 16);
  }

  lemma Swap16Bits(op: Op, x: uint16, y: uint16, r: uint16)
    requires r == Bitwise(op, x, y, 16)
    ensures Swap16(r) == Bitwise(op, Swap16(x), Swap16(y), 16)
  {
    hide Bitwise;
    var h, l, g, m := x / 0x100, x % 0x100, y / 0x100, y % 0x100;
    WordBits(op, h, l, g, m);
    WordBits(op, l, h, m, g);
    assert x == Word(h, l) && y == Word(g, m);
    WordHalves(Bitwise(op, h, g, 8), Bitwise(op, l, m, 8));
  }

  lemma Swap32Bits(op: Op, x: uint32, y: uint32)
    ensures Swap32(Bitwise32(op, x, y)) == Bitwise32(op, Swap32(x), Swap32(y))
  {
    hide Bitwise;
    var h, l, g, m := x / 0x1_0000, x % 0x1_0000, y / 0x1_0000, y % 0x1_0000;
    DoubleWordBits(op, h, l, g, m);
    var high, low := Bitwise(op, h, g, 16), Bitwise(op, l, m, 16);
    Swap16Bits(op, h, g, high);
    Swap16Bits(op, l, m, low);
    DoubleWordBits(op, Swap16(l), Swap16(h), Swap16(m), Swap16(g));
    assert x == DoubleWord(h, l) && y == DoubleWord(g, m);
    DoubleWordHalves(high, low);
  }

  /** and, or and not may be done before or after the conversion of the byte order. */
  lemma HtonlBits(order: ByteOrder, op: Op, x: uint32, y: uint32)
    ensures Htonl(order, Bitwise32(op, x, y)) == Bitwise32(op, Htonl(order, x), Htonl(order, y))
  {
    Swap32Bits(op, x, y);
  }

  lemma HtonlNot(order: ByteOrder, x: uint32)
    ensures Htonl(order, Not32(x)) == Not32(Htonl(order, x))
  {
    hide Swap16;
    var h, l := x / 0x1_0000, x % 0x1_0000;
    Swap16Not(h);
    Swap16Not(l);
    assert Not32(x) == DoubleWord(0xFFFF - h, 0xFFFF - l);
    DoubleWordHalves(0xFFFF - h, 0xFFFF - l);
  }

  lemma Swap16Not(v: uint16)
    ensures Swap16(0xFFFF - v) == 0xFFFF - Swap16(v)
  {
    var h, l := v / 0x100, v % 0x100;
    assert 0xFFFF - v == Word(0xFF - h, 0xFF - l);
    WordHalves(0xFF - h, 0xFF - l);
  }
}
