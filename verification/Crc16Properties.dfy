/**
 What the two CRCs of src/crc16.cpp guarantee, for messages of every length.
 */
module Crc16Properties {
  import opened Gf2
  import opened RegisterBits
  import opened CrcBitwise
  import ModbusTable

  /** r is the remainder of d divided by g. */
  ghost predicate IsRemainder(d: Bits, g: Bits, r: Bits)
    requires |g| == |r| + 1 <= |d| + 1
  {
    exists q: Bits :: |q| + |r| == |d| && IsDivision(d, g, q, r)
  }

  lemma RunIsTheRemainder(g: Bits, r: Bits, m: Bits, s: Bits)
    requires IsGenerator(g) && |g| == |r| + 1 && |s| == |r|
    ensures IsRemainder(Dividend(r, m), g, s) <==> s == Run(g, r, m)
  {
    var d := Dividend(r, m);
    RunDivides(g, r, m);
    if IsRemainder(d, g, s) {
      var q: Bits :| |q| + |s| == |d| && IsDivision(d, g, q, s);
      DivisionUnique(d, g, q, s, Quotient(g, r, m), Run(g, r, m));
    }
  }

  /** The Modbus CRC is the one register that is the remainder of the message
      times x^16, with the initial ones added to its first 16 bits. */
  lemma ModbusIsRemainder(data: seq<bv8>, s: bv16)
    ensures IsRemainder(Dividend(LowFirst(0xFFFF, 16), LowStream(data)), MODBUS, LowFirst(s, 16))
       <==> s == ModbusCrc(0xFFFF, data)
  {
    ModbusGenerator();
    RunIsTheRemainder(MODBUS, LowFirst(0xFFFF, 16), LowStream(data), LowFirst(s, 16));
    ModbusCrcIsRun(0xFFFF, data);
    BitsInjective(s, ModbusCrc(0xFFFF, data));
  }

  /** The CCITT CRC is the one register that is the remainder of M(x) * x^16
      modulo x^16 + x^12 + x^5 + 1. */
  lemma CcittIsRemainder(data: seq<bv8>, s: bv16)
    ensures IsRemainder(HighStream(data) + Zeros(16), CCITT, HighFirst(s, 16))
       <==> s == CcittCrc(0, data)
  {
    CcittGenerator();
    ZeroBits(0);
    DividendFromZero(HighStream(data));
    RunIsTheRemainder(CCITT, Zeros(16), HighStream(data), HighFirst(s, 16));
    CcittCrcIsRun(0, data);
    BitsInjective(s, CcittCrc(0, data));
  }

  lemma DividendFromZero(m: Bits)
    ensures Dividend(Zeros(16), m) == m + Zeros(16)
  {
    assert Zeros(16) + Zeros(|m|) == Zeros(16 + |m|);
    XorZeros(m + Zeros(16));
  }

  // Continuing a CRC

  lemma SplitLast(a: seq<bv8>, b: seq<bv8>)
    requires b != []
    ensures b == b[..|b| - 1] + [b[|b| - 1]]
    ensures a + b == (a + b[..|b| - 1]) + [b[|b| - 1]]
  {
  }

  lemma ConcatAssoc(x: Bits, y: Bits, z: Bits)
    ensures (x + y) + z == x + (y + z)
  {
  }

  lemma {:induction false} LowStreamConcat(a: seq<bv8>, b: seq<bv8>)
    ensures LowStream(a + b) == LowStream(a) + LowStream(b)
  {
    if b == [] {
      assert a + b == a;
    } else {
      var init, last := b[..|b| - 1], b[|b| - 1];
      LowStreamConcat(a, init);
      SplitLast(a, b);
      StreamSnoc(a + init, last);
      StreamSnoc(init, last);
      ConcatAssoc(LowStream(a), LowStream(init), LowFirst(last as bv16, 8));
    }
  }

  lemma {:induction false} HighStreamConcat(a: seq<bv8>, b: seq<bv8>)
    ensures HighStream(a + b) == HighStream(a) + HighStream(b)
  {
    if b == [] {
      assert a + b == a;
    } else {
      var init, last := b[..|b| - 1], b[|b| - 1];
      HighStreamConcat(a, init);
      SplitLast(a, b);
      StreamSnoc(a + init, last);
      StreamSnoc(init, last);
      ConcatAssoc(HighStream(a), HighStream(init), HighFirst(last as bv16, 8));
    }
  }

  lemma ModbusConcat(r: bv16, a: seq<bv8>, b: seq<bv8>)
    ensures ModbusCrc(r, a + b) == ModbusCrc(ModbusCrc(r, a), b)
  {
    var t, u := ModbusCrc(r, a + b), ModbusCrc(ModbusCrc(r, a), b);
    assert LowFirst(t, 16) == LowFirst(u, 16) by {
      ModbusCrcIsRun(r, a);
      ModbusCrcIsRun(r, a + b);
      ModbusCrcIsRun(ModbusCrc(r, a), b);
      LowStreamConcat(a, b);
      RunConcat(MODBUS, LowFirst(r, 16), LowStream(a), LowStream(b));
    }
    BitsInjective(t, u);
  }

  lemma CcittConcat(r: bv16, a: seq<bv8>, b: seq<bv8>)
    ensures CcittCrc(r, a + b) == CcittCrc(CcittCrc(r, a), b)
  {
    var t, u := CcittCrc(r, a + b), CcittCrc(CcittCrc(r, a), b);
    assert HighFirst(t, 16) == HighFirst(u, 16) by {
      CcittCrcIsRun(r, a);
      CcittCrcIsRun(r, a + b);
      CcittCrcIsRun(CcittCrc(r, a), b);
      HighStreamConcat(a, b);
      RunConcat(CCITT, HighFirst(r, 16), HighStream(a), HighStream(b));
    }
    BitsInjective(t, u);
  }

  // Linearity

  function XorBytes(a: seq<bv8>, b: seq<bv8>): (c: seq<bv8>)
    requires |a| == |b|
    ensures |c| == |a|
  {
    if a == [] then [] else XorBytes(a[..|a| - 1], b[..|b| - 1]) + [a[|a| - 1] ^ b[|b| - 1]]
  }

  lemma ByteBitsXor(x: bv8, y: bv8)
    ensures LowFirst((x ^ y) as bv16, 8) == Xor(LowFirst(x as bv16, 8), LowFirst(y as bv16, 8))
    ensures HighFirst((x ^ y) as bv16, 8) == Xor(HighFirst(x as bv16, 8), HighFirst(y as bv16, 8))
  {
    BitsOfByteSum((x ^ y) as bv16, x as bv16, y as bv16);
  }

  lemma BitsOfByteSum(t: bv16, r: bv16, s: bv16)
    requires t == r ^ s
    ensures LowFirst(t, 8) == Xor(LowFirst(r, 8), LowFirst(s, 8))
    ensures HighFirst(t, 8) == Xor(HighFirst(r, 8), HighFirst(s, 8))
  {
    FirstXor(r, s, 8);
  }

  lemma {:induction false} LowStreamXor(a: seq<bv8>, b: seq<bv8>)
    requires |a| == |b|
    ensures LowStream(XorBytes(a, b)) == Xor(LowStream(a), LowStream(b))
  {
    if a != [] {
      var a', b', x, y := a[..|a| - 1], b[..|b| - 1], a[|a| - 1], b[|b| - 1];
      LowStreamXor(a', b');
      LowStreamXorLast(a', b', x, y);
      SplitLast([], a);
      SplitLast([], b);
    }
  }

  lemma LowStreamXorLast(a: seq<bv8>, b: seq<bv8>, x: bv8, y: bv8)
    requires |a| == |b|
    ensures LowStream(XorBytes(a, b) + [x ^ y]) == LowStream(XorBytes(a, b)) + LowFirst((x ^ y) as bv16, 8)
    ensures Xor(LowStream(a + [x]), LowStream(b + [y]))
         == Xor(LowStream(a), LowStream(b)) + LowFirst((x ^ y) as bv16, 8)
  {
    StreamSnoc(XorBytes(a, b), x ^ y);
    StreamSnoc(a, x);
    StreamSnoc(b, y);
    XorConcat(LowStream(a), LowFirst(x as bv16, 8), LowStream(b), LowFirst(y as bv16, 8));
    ByteBitsXor(x, y);
  }

  lemma {:induction false} HighStreamXor(a: seq<bv8>, b: seq<bv8>)
    requires |a| == |b|
    ensures HighStream(XorBytes(a, b)) == Xor(HighStream(a), HighStream(b))
  {
    if a != [] {
      var a', b', x, y := a[..|a| - 1], b[..|b| - 1], a[|a| - 1], b[|b| - 1];
      HighStreamXor(a', b');
      HighStreamXorLast(a', b', x, y);
      SplitLast([], a);
      SplitLast([], b);
    }
  }

  lemma HighStreamXorLast(a: seq<bv8>, b: seq<bv8>, x: bv8, y: bv8)
    requires |a| == |b|
    ensures HighStream(XorBytes(a, b) + [x ^ y]) == HighStream(XorBytes(a, b)) + HighFirst((x ^ y) as bv16, 8)
    ensures Xor(HighStream(a + [x]), HighStream(b + [y]))
         == Xor(HighStream(a), HighStream(b)) + HighFirst((x ^ y) as bv16, 8)
  {
    StreamSnoc(XorBytes(a, b), x ^ y);
    StreamSnoc(a, x);
    StreamSnoc(b, y);
    XorConcat(HighStream(a), HighFirst(x as bv16, 8), HighStream(b), HighFirst(y as bv16, 8));
    ByteBitsXor(x, y);
  }

  lemma ModbusSum(r: bv16, s: bv16, q: bv16, a: seq<bv8>, b: seq<bv8>, c: seq<bv8>)
    requires |a| == |b| && q == r ^ s && c == XorBytes(a, b)
    ensures LowFirst(ModbusCrc(q, c), 16) == Xor(LowFirst(ModbusCrc(r, a), 16), LowFirst(ModbusCrc(s, b), 16))
  {
    hide ModbusCrc, Run, LowFirst, LowStream, XorBytes, Xor;
    BitsOfSum(q, r, s);
    LowStreamXor(a, b);
    ModbusCrcIsRun(r, a);
    ModbusCrcIsRun(s, b);
    ModbusCrcIsRun(q, c);
    RunLinear(MODBUS, LowFirst(r, 16), LowFirst(s, 16), LowStream(a), LowStream(b));
  }

  lemma CcittSum(r: bv16, s: bv16, q: bv16, a: seq<bv8>, b: seq<bv8>, c: seq<bv8>)
    requires |a| == |b| && q == r ^ s && c == XorBytes(a, b)
    ensures HighFirst(CcittCrc(q, c), 16) == Xor(HighFirst(CcittCrc(r, a), 16), HighFirst(CcittCrc(s, b), 16))
  {
    hide CcittCrc, Run, HighFirst, HighStream, XorBytes, Xor;
    BitsOfSum(q, r, s);
    HighStreamXor(a, b);
    CcittCrcIsRun(r, a);
    CcittCrcIsRun(s, b);
    CcittCrcIsRun(q, c);
    RunLinear(CCITT, HighFirst(r, 16), HighFirst(s, 16), HighStream(a), HighStream(b));
  }

  /** Both CRCs are linear in register and message together; with register 0
      the CCITT CRC is linear and with 0xFFFF the Modbus CRC is affine. */
  lemma ModbusLinear(r: bv16, s: bv16, a: seq<bv8>, b: seq<bv8>)
    requires |a| == |b|
    ensures ModbusCrc(r ^ s, XorBytes(a, b)) == ModbusCrc(r, a) ^ ModbusCrc(s, b)
  {
    hide ModbusCrc, LowFirst, XorBytes, Xor;
    ModbusSum(r, s, r ^ s, a, b, XorBytes(a, b));
    LowSumInjective(ModbusCrc(r ^ s, XorBytes(a, b)), ModbusCrc(r, a), ModbusCrc(s, b));
  }

  lemma CcittLinear(r: bv16, s: bv16, a: seq<bv8>, b: seq<bv8>)
    requires |a| == |b|
    ensures CcittCrc(r ^ s, XorBytes(a, b)) == CcittCrc(r, a) ^ CcittCrc(s, b)
  {
    hide CcittCrc, HighFirst, XorBytes, Xor;
    CcittSum(r, s, r ^ s, a, b, XorBytes(a, b));
    HighSumInjective(CcittCrc(r ^ s, XorBytes(a, b)), CcittCrc(r, a), CcittCrc(s, b));
  }

  lemma LowSumInjective(t: bv16, u: bv16, v: bv16)
    requires LowFirst(t, 16) == Xor(LowFirst(u, 16), LowFirst(v, 16))
    ensures t == u ^ v
  {
    FirstXor(u, v, 16);
    BitsInjective(t, u ^ v);
  }

  lemma HighSumInjective(t: bv16, u: bv16, v: bv16)
    requires HighFirst(t, 16) == Xor(HighFirst(u, 16), HighFirst(v, 16))
    ensures t == u ^ v
  {
    FirstXor(u, v, 16);
    BitsInjective(t, u ^ v);
  }

  // Residue

  lemma LowByteUnderMask(hi: bv8, lo: bv8, m: bv16)
    requires m & 0xFF00 == 0
    ensures ((hi as bv16 << 8) | lo as bv16) & m == lo as bv16 & m
  {
  }

  lemma HighByteUnderMask(hi: bv8, lo: bv8, m: bv16)
    requires m & 0xFF00 == 0
    ensures (((hi as bv16 << 8) | lo as bv16) & (m << 8) == 0) <==> hi as bv16 & m == 0
  {
  }

  lemma LowByteBit(hi: bv8, lo: bv8, i: nat)
    requires i < 8
    ensures Has((hi as bv16 << 8) | lo as bv16, i) == Has(lo as bv16, i)
  {
    assert Mask(i) & 0xFF00 == 0 by { Masks(); }
    LowByteUnderMask(hi, lo, Mask(i));
  }

  lemma HighByteBit(hi: bv8, lo: bv8, i: nat)
    requires i < 8
    ensures Has((hi as bv16 << 8) | lo as bv16, i + 8) == Has(hi as bv16, i)
  {
    assert Mask(i + 8) == Mask(i) << 8 && Mask(i) & 0xFF00 == 0 by { Masks(); }
    hide Mask;
    HighByteUnderMask(hi, lo, Mask(i));
  }

  lemma TwoBytes(hi: bv8, lo: bv8)
    ensures LowFirst((hi as bv16 << 8) | lo as bv16, 16) == LowFirst(lo as bv16, 8) + LowFirst(hi as bv16, 8)
    ensures HighFirst((hi as bv16 << 8) | lo as bv16, 16) == HighFirst(hi as bv16, 8) + HighFirst(lo as bv16, 8)
  {
    var w, h, l := (hi as bv16 << 8) | lo as bv16, hi as bv16, lo as bv16;
    forall i | 0 <= i < 8 ensures Has(w, i) == Has(l, i) {
      LowByteBit(hi, lo, i);
    }
    forall i | 8 <= i < 16 ensures Has(w, i) == Has(h, i - 8) {
      HighByteBit(hi, lo, i - 8);
    }
  }

  /** A Modbus frame checks to 0 exactly when its last two bytes are the CRC of
      the rest, low byte first. */
  lemma ModbusResidue(r: bv16, data: seq<bv8>, lo: bv8, hi: bv8)
    ensures ModbusCrc(r, data + [lo, hi]) == 0 <==> (hi as bv16 << 8) | lo as bv16 == ModbusCrc(r, data)
  {
    var s, w := ModbusCrc(r, data), (hi as bv16 << 8) | lo as bv16;
    var t := ModbusCrc(s, [lo, hi]);
    ModbusConcat(r, data, [lo, hi]);
    assert LowFirst(t, 16) == Zeros(16) <==> LowFirst(s, 16) == LowFirst(w, 16) by {
      ModbusCrcIsRun(s, [lo, hi]);
      TwoByteStream(lo, hi);
      TwoBytes(hi, lo);
      ModbusGenerator();
      RunToZero(MODBUS, LowFirst(s, 16), LowFirst(w, 16));
    }
    ZeroBits(t);
    BitsInjective(s, w);
  }

  /** A CCITT frame checks to 0 exactly when its last two bytes are the CRC of
      the rest, high byte first. */
  lemma CcittResidue(r: bv16, data: seq<bv8>, hi: bv8, lo: bv8)
    ensures CcittCrc(r, data + [hi, lo]) == 0 <==> (hi as bv16 << 8) | lo as bv16 == CcittCrc(r, data)
  {
    var s, w := CcittCrc(r, data), (hi as bv16 << 8) | lo as bv16;
    var t := CcittCrc(s, [hi, lo]);
    CcittConcat(r, data, [hi, lo]);
    assert HighFirst(t, 16) == Zeros(16) <==> HighFirst(s, 16) == HighFirst(w, 16) by {
      CcittCrcIsRun(s, [hi, lo]);
      TwoByteStream(hi, lo);
      TwoBytes(hi, lo);
      CcittGenerator();
      RunToZero(CCITT, HighFirst(s, 16), HighFirst(w, 16));
    }
    ZeroBits(t);
    BitsInjective(s, w);
  }

  lemma TwoByteStream(x: bv8, y: bv8)
    ensures LowStream([x, y]) == LowFirst(x as bv16, 8) + LowFirst(y as bv16, 8)
    ensures HighStream([x, y]) == HighFirst(x as bv16, 8) + HighFirst(y as bv16, 8)
  {
    assert [] + [x] == [x] && [x] + [y] == [x, y];
    assert LowStream([]) == [] && HighStream([]) == [];
    hide LowStream, HighStream, LowFirst, HighFirst;
    StreamSnoc([], x);
    StreamSnoc([x], y);
  }

  // Error detection

  lemma ByteBitsInjective(x: bv8, y: bv8)
    ensures LowFirst(x as bv16, 8) == LowFirst(y as bv16, 8) ==> x == y
    ensures HighFirst(x as bv16, 8) == HighFirst(y as bv16, 8) ==> x == y
  {
    BytePlaced(x);
    BytePlaced(y);
    BitsInjective(x as bv16, y as bv16);
    BitsInjective(x as bv16 << 8, y as bv16 << 8);
    assert x as bv16 == y as bv16 ==> x == y;
    assert x as bv16 << 8 == y as bv16 << 8 ==> x == y;
  }

  lemma ConcatInjective(x: Bits, y: Bits, u: Bits, v: Bits)
    requires |x| == |u| && x + y == u + v
    ensures x == u && y == v
  {
    assert (x + y)[..|x|] == x && (u + v)[..|x|] == u;
    assert (x + y)[|x|..] == y && (u + v)[|x|..] == v;
  }

  /** A bit stream determines its message. */
  lemma {:induction false} LowStreamInjective(a: seq<bv8>, b: seq<bv8>)
    requires |a| == |b| && LowStream(a) == LowStream(b)
    ensures a == b
  {
    if a != [] {
      var a', b', x, y := a[..|a| - 1], b[..|b| - 1], a[|a| - 1], b[|b| - 1];
      ConcatInjective(LowStream(a'), LowFirst(x as bv16, 8), LowStream(b'), LowFirst(y as bv16, 8));
      LowStreamInjective(a', b');
      ByteBitsInjective(x, y);
      SplitLast([], a);
      SplitLast([], b);
    }
  }

  /** A bit stream determines its message. */
  lemma {:induction false} HighStreamInjective(a: seq<bv8>, b: seq<bv8>)
    requires |a| == |b| && HighStream(a) == HighStream(b)
    ensures a == b
  {
    if a != [] {
      var a', b', x, y := a[..|a| - 1], b[..|b| - 1], a[|a| - 1], b[|b| - 1];
      ConcatInjective(HighStream(a'), HighFirst(x as bv16, 8), HighStream(b'), HighFirst(y as bv16, 8));
      HighStreamInjective(a', b');
      ByteBitsInjective(x, y);
      SplitLast([], a);
      SplitLast([], b);
    }
  }

  /** Two messages that differ within one burst of at most 16 bits, in the order
      the CRC consumes bits, have different Modbus CRCs. */
  lemma ModbusDetectsBurst(r: bv16, a: seq<bv8>, b: seq<bv8>, i: nat, j: nat)
    requires |a| == |b| && a != b
    requires DifferWithin(LowStream(a), LowStream(b), i, j) && j - i <= 16
    ensures ModbusCrc(r, a) != ModbusCrc(r, b)
  {
    if LowStream(a) == LowStream(b) {
      LowStreamInjective(a, b);
    }
    ModbusGenerator();
    BurstDetected(MODBUS, LowFirst(r, 16), LowStream(a), LowStream(b), i, j);
    ModbusCrcIsRun(r, a);
    ModbusCrcIsRun(r, b);
  }

  lemma CcittDetectsBurst(r: bv16, a: seq<bv8>, b: seq<bv8>, i: nat, j: nat)
    requires |a| == |b| && a != b
    requires DifferWithin(HighStream(a), HighStream(b), i, j) && j - i <= 16
    ensures CcittCrc(r, a) != CcittCrc(r, b)
  {
    if HighStream(a) == HighStream(b) {
      HighStreamInjective(a, b);
    }
    CcittGenerator();
    BurstDetected(CCITT, HighFirst(r, 16), HighStream(a), HighStream(b), i, j);
    CcittCrcIsRun(r, a);
    CcittCrcIsRun(r, b);
  }

  /** Two messages that differ in an odd number of bits have different CRCs. */
  lemma ModbusDetectsOdd(r: bv16, a: seq<bv8>, b: seq<bv8>)
    requires |a| == |b| && Parity(Xor(LowStream(a), LowStream(b)))
    ensures ModbusCrc(r, a) != ModbusCrc(r, b)
  {
    ModbusGenerator();
    OddDetected(MODBUS, LowFirst(r, 16), LowStream(a), LowStream(b));
    ModbusCrcIsRun(r, a);
    ModbusCrcIsRun(r, b);
  }

  lemma CcittDetectsOdd(r: bv16, a: seq<bv8>, b: seq<bv8>)
    requires |a| == |b| && Parity(Xor(HighStream(a), HighStream(b)))
    ensures CcittCrc(r, a) != CcittCrc(r, b)
  {
    CcittGenerator();
    OddDetected(CCITT, HighFirst(r, 16), HighStream(a), HighStream(b));
    CcittCrcIsRun(r, a);
    CcittCrcIsRun(r, b);
  }

  /** The parity of the register is the parity of the initial register and all
      message bits. */
  lemma ModbusParity(r: bv16, data: seq<bv8>)
    ensures Parity(LowFirst(ModbusCrc(r, data), 16)) == (Parity(LowFirst(r, 16)) != Parity(LowStream(data)))
  {
    ModbusGenerator();
    ModbusCrcIsRun(r, data);
    RunParity(MODBUS, LowFirst(r, 16), LowStream(data));
  }

  lemma CcittParity(r: bv16, data: seq<bv8>)
    ensures Parity(HighFirst(CcittCrc(r, data), 16)) == (Parity(HighFirst(r, 16)) != Parity(HighStream(data)))
  {
    CcittGenerator();
    CcittCrcIsRun(r, data);
    RunParity(CCITT, HighFirst(r, 16), HighStream(data));
  }

  /** Exactly which errors go unseen: two messages of the same length, at least
      two bytes, share a CRC if and only if the generator divides their difference. */
  lemma ModbusCollision(r: bv16, a: seq<bv8>, b: seq<bv8>)
    requires |a| == |b| >= 2
    ensures ModbusCrc(r, a) == ModbusCrc(r, b) <==> IsMultiple(Xor(LowStream(a), LowStream(b)), MODBUS)
  {
    ModbusGenerator();
    CollisionIffMultiple(MODBUS, LowFirst(r, 16), LowStream(a), LowStream(b));
    ModbusCrcIsRun(r, a);
    ModbusCrcIsRun(r, b);
    BitsInjective(ModbusCrc(r, a), ModbusCrc(r, b));
  }

  lemma CcittCollision(r: bv16, a: seq<bv8>, b: seq<bv8>)
    requires |a| == |b| >= 2
    ensures CcittCrc(r, a) == CcittCrc(r, b) <==> IsMultiple(Xor(HighStream(a), HighStream(b)), CCITT)
  {
    CcittGenerator();
    CollisionIffMultiple(CCITT, HighFirst(r, 16), HighStream(a), HighStream(b));
    CcittCrcIsRun(r, a);
    CcittCrcIsRun(r, b);
    BitsInjective(CcittCrc(r, a), CcittCrc(r, b));
  }

  // The table

  /** Division is linear, and a register is fixed by its bits. */
  lemma EntriesAdd(x: bv16, y: bv16, z: bv16, ex: bv16, ey: bv16, ez: bv16)
    requires z == ModbusTable.Plus(x, y)
    requires ModbusTable.IsEntry(x, ex) && ModbusTable.IsEntry(y, ey) && ModbusTable.IsEntry(z, ez)
    ensures ez == ModbusTable.Plus(ex, ey)
  {
    hide ModbusTable.Plus, LowFirst, Run;
    ModbusTable.EntrySum(x, y, ex, ey);
    BitsInjective(ez, ModbusTable.Plus(ex, ey));
  }

  /** The table pair at x as one register. */
  function Entry(x: bv8): bv16 {
    ModbusTable.Pair(ModbusTable.LoEntry(x), ModbusTable.HiEntry(x))
  }

  lemma EntryDivides(x: bv8, wide: bv16, e: bv16)
    requires wide == x as bv16 && e == Entry(x)
    ensures ModbusTable.IsEntry(wide, e)
  {
    hide ModbusTable.LoEntry, ModbusTable.HiEntry, ModbusTable.Pair, ModbusTable.IsEntry;
    ModbusTable.EntryDivides(x);
  }

  /** The table is linear: its entries at 1, 2, 4, ..., 128 fix all the others. */
  lemma TableIsLinear(x: bv8, y: bv8, z: bv8)
    requires z == x ^ y
    ensures Entry(z) == Entry(x) ^ Entry(y)
  {
    assert ModbusTable.Plus(Entry(x), Entry(y)) == Entry(x) ^ Entry(y);
    ByteSum(x, y, z);
    hide Entry, ModbusTable.IsEntry, ModbusTable.Plus;
    EntryDivides(x, x as bv16, Entry(x));
    EntryDivides(y, y as bv16, Entry(y));
    EntryDivides(z, z as bv16, Entry(z));
    EntriesAdd(x as bv16, y as bv16, z as bv16, Entry(x), Entry(y), Entry(z));
  }

  lemma ByteSum(x: bv8, y: bv8, z: bv8)
    requires z == x ^ y
    ensures z as bv16 == ModbusTable.Plus(x as bv16, y as bv16)
  {
  }
}
