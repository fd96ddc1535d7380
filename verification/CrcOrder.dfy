/**
 The period of x modulo each generator of src/crc16.cpp, and with it exactly
 which two-bit errors the CRCs see.
 */
module CrcOrder {
  import opened Gf2
  import opened Gf2Order
  import opened RegisterBits
  import opened CrcBitwise

  // Products of powers, on 16-bit words with the highest coefficient on top

  /** p holds the coefficients of g below its highest. */
  ghost predicate IsFeedback(g: Bits, p: bv16) {
    |g| == 17 && HighFirst(p, 16) == g[1..]
  }

  function Clock(p: bv16, r: bv16): bv16 {
    if r & 0x8000 != 0 then (r << 1) ^ p else r << 1
  }

  /** One step of Horner's rule: r * x + b if the bit of the other factor is set. */
  function Next(p: bv16, b: bv16, bit: bool, r: bv16): bv16 {
    if bit then Clock(p, r) ^ b else Clock(p, r)
  }

  /** Four steps, for the four low bits of n. */
  function Four(p: bv16, n: bv16, b: bv16, r: bv16): bv16 {
    Next(p, b, n & 1 != 0, Next(p, b, n & 2 != 0, Next(p, b, n & 4 != 0, Next(p, b, n & 8 != 0, r))))
  }

  /** a * b modulo the generator with feedback p. */
  function Product(p: bv16, a: bv16, b: bv16): bv16 {
    Four(p, a, b, Four(p, a >> 4, b, Four(p, a >> 8, b, Four(p, a >> 12, b, 0))))
  }

  lemma ClockIsStep(g: Bits, p: bv16, r: bv16)
    requires IsFeedback(g, p)
    ensures HighFirst(Clock(p, r), 16) == Step(g, HighFirst(r, 16), false)
  {
    HighFirstShift(r);
    FirstXor(r << 1, p, 16);
    TopBit(r);
  }

  lemma TimesNext(g: Bits, front: Bits, bit: bool, b: Bits)
    requires |g| == |b| + 1 > 1
    ensures Times(g, front + [bit], b) == Xor(Step(g, Times(g, front, b), false), if bit then b else Zeros(|b|))
  {
    assert (front + [bit])[..|front|] == front;
  }

  /** r holds the product of front and b so far. */
  ghost predicate Holds(g: Bits, front: Bits, b: bv16, r: bv16)
    requires |g| == 17
  {
    HighFirst(r, 16) == Times(g, front, HighFirst(b, 16))
  }

  lemma NextHolds(g: Bits, p: bv16, front: Bits, b: bv16, bit: bool, r: bv16, after: bv16)
    requires IsFeedback(g, p) && Holds(g, front, b, r) && after == Next(p, b, bit, r)
    ensures Holds(g, front + [bit], b, after)
  {
    var clocked := Clock(p, r);
    NextCases(p, b, bit, r, clocked, after);
    ClockIsStep(g, p, r);
    TimesNext(g, front, bit, HighFirst(b, 16));
    hide Times, Step, HighFirst, Clock, Next;
    if bit {
      BitsOfSum(after, clocked, b);
    } else {
      SameBits(after, clocked);
      XorZeros(HighFirst(after, 16));
    }
  }

  lemma NextCases(p: bv16, b: bv16, bit: bool, r: bv16, clocked: bv16, after: bv16)
    requires clocked == Clock(p, r) && after == Next(p, b, bit, r)
    ensures bit ==> after == clocked ^ b
    ensures !bit ==> after == clocked
  {
    hide Clock;
  }

  lemma LowBit3(n: bv16)
    ensures Has(n, 3) <==> n & 8 != 0
  {
    Masks();
    hide Mask;
  }

  lemma LowBit2(n: bv16)
    ensures Has(n, 2) <==> n & 4 != 0
  {
    Masks();
    hide Mask;
  }

  lemma LowBit1(n: bv16)
    ensures Has(n, 1) <==> n & 2 != 0
  {
    Masks();
    hide Mask;
  }

  lemma LowBit0(n: bv16)
    ensures Has(n, 0) <==> n & 1 != 0
  {
    Masks();
    hide Mask;
  }

  lemma FourHolds(g: Bits, p: bv16, front: Bits, n: bv16, b: bv16, r: bv16, after: bv16)
    requires IsFeedback(g, p) && Holds(g, front, b, r) && after == Four(p, n, b, r)
    ensures Holds(g, front + HighFirst(n, 4), b, after)
  {
    LowBit3(n);
    LowBit2(n);
    LowBit1(n);
    LowBit0(n);
    FourBits(n);
    hide Next, Holds, Has, HighFirst;
    var r3 := Next(p, b, n & 8 != 0, r);
    var r2 := Next(p, b, n & 4 != 0, r3);
    var r1 := Next(p, b, n & 2 != 0, r2);
    var f3 := front + [Has(n, 3)];
    var f2 := f3 + [Has(n, 2)];
    var f1 := f2 + [Has(n, 1)];
    NextHolds(g, p, front, b, Has(n, 3), r, r3);
    NextHolds(g, p, f3, b, Has(n, 2), r3, r2);
    NextHolds(g, p, f2, b, Has(n, 1), r2, r1);
    NextHolds(g, p, f1, b, Has(n, 0), r1, after);
    assert f1 + [Has(n, 0)] == front + HighFirst(n, 4);
  }

  lemma FourBits(n: bv16)
    ensures HighFirst(n, 4) == [Has(n, 3), Has(n, 2), Has(n, 1), Has(n, 0)]
  {
    hide Has;
  }

  lemma ShiftFour(a: bv16, n: bv16, i: nat)
    requires n == a >> 4 && i < 12
    ensures Has(n, i) == Has(a, i + 4)
  {
    var a1 := a >> 1;
    var a2 := a1 >> 1;
    var a3 := a2 >> 1;
    assert n == a3 >> 1;
    hide Has;
    HasShiftRight(a, i + 3);
    HasShiftRight(a1, i + 2);
    HasShiftRight(a2, i + 1);
    HasShiftRight(a3, i);
    SameHas(n, a3 >> 1, i);
  }

  lemma SameHas(r: bv16, s: bv16, i: nat)
    requires r == s && i < 16
    ensures Has(r, i) == Has(s, i)
  {
  }

  /** A nibble further down, with the bits above it. */
  lemma NibbleBelow(a: bv16, n: bv16, k: nat)
    requires n == a >> 4 && k <= 12
    ensures HighFirst(a, k + 4) == HighFirst(n, k) + HighFirst(a, 4)
  {
    forall i | 0 <= i < k
      ensures HighFirst(a, k + 4)[i] == HighFirst(n, k)[i]
    {
      ShiftFour(a, n, k - 1 - i);
    }
    hide Has;
  }

  lemma ProductIsTimes(g: Bits, p: bv16, a: bv16, b: bv16, c: bv16)
    requires IsFeedback(g, p) && c == Product(p, a, b)
    ensures Holds(g, HighFirst(a, 16), b, c)
  {
    ZeroBits(0);
    assert Holds(g, [], b, 0);
    hide Holds, Has;
    var a4, a8, a12 := a >> 4, a >> 8, a >> 12;
    Shifts(a, a4, a8, a12);
    hide Four, HighFirst;
    var r12 := Four(p, a12, b, 0);
    var r8 := Four(p, a8, b, r12);
    var r4 := Four(p, a4, b, r8);
    FourHolds(g, p, [], a12, b, 0, r12);
    assert [] + HighFirst(a12, 4) == HighFirst(a12, 4);
    FourHolds(g, p, HighFirst(a12, 4), a8, b, r12, r8);
    NibbleBelow(a8, a12, 4);
    FourHolds(g, p, HighFirst(a8, 8), a4, b, r8, r4);
    NibbleBelow(a4, a8, 8);
    FourHolds(g, p, HighFirst(a4, 12), a, b, r4, c);
    NibbleBelow(a, a4, 12);
  }

  lemma Shifts(a: bv16, a4: bv16, a8: bv16, a12: bv16)
    requires a4 == a >> 4 && a8 == a >> 8 && a12 == a >> 12
    ensures a8 == a4 >> 4 && a12 == a8 >> 4
  {
  }

  ghost predicate IsPower(g: Bits, n: nat, c: bv16)
    requires |g| > 1
  {
    HighFirst(c, 16) == Power(g, n)
  }

  lemma Multiply(g: Bits, p: bv16, m: nat, n: nat, a: bv16, b: bv16, c: bv16)
    requires IsFeedback(g, p) && IsPower(g, m, a) && IsPower(g, n, b) && c == Product(p, a, b)
    ensures IsPower(g, m + n, c)
  {
    hide Product, HighFirst;
    ProductIsTimes(g, p, a, b, c);
    PowersMultiply(g, m, n);
  }

  // The powers that settle the period: 32767 == 7 * 31 * 151

  /** Powers of x that lead from x^12, x^15 and x^16 to x^32767 by way of x^217,
      x^1057 and x^4681. */
  datatype Powers = Powers(
    x27: bv16, x31: bv16, x62: bv16, x124: bv16, x151: bv16, x186: bv16, x217: bv16,
    x302: bv16, x604: bv16, x906: bv16, x1057: bv16, x1208: bv16, x2416: bv16, x3624: bv16,
    x4681: bv16, x9362: bv16, x18724: bv16, x28086: bv16, x32767: bv16)

  /** Each is the product of two before it. */
  predicate FirstProducts(p: bv16, w: Powers) {
    && w.x27 == Product(p, 0x8000, 0x1000)
    && w.x31 == Product(p, 0x8000, p)
    && w.x62 == Product(p, w.x31, w.x31)
    && w.x124 == Product(p, w.x62, w.x62)
    && w.x151 == Product(p, w.x124, w.x27)
    && w.x186 == Product(p, w.x62, w.x124)
    && w.x217 == Product(p, w.x186, w.x31)
    && w.x302 == Product(p, w.x151, w.x151)
    && w.x604 == Product(p, w.x302, w.x302)
    && w.x906 == Product(p, w.x604, w.x302)
  }

  predicate LastProducts(p: bv16, w: Powers) {
    && w.x1057 == Product(p, w.x906, w.x151)
    && w.x1208 == Product(p, w.x604, w.x604)
    && w.x2416 == Product(p, w.x1208, w.x1208)
    && w.x3624 == Product(p, w.x2416, w.x1208)
    && w.x4681 == Product(p, w.x3624, w.x1057)
    && w.x9362 == Product(p, w.x4681, w.x4681)
    && w.x18724 == Product(p, w.x9362, w.x9362)
    && w.x28086 == Product(p, w.x18724, w.x9362)
    && w.x32767 == Product(p, w.x28086, w.x4681)
  }

  lemma SmallPowers(g: Bits, p: bv16)
    requires IsGenerator(g) && IsFeedback(g, p)
    ensures IsPower(g, 12, 0x1000) && IsPower(g, 15, 0x8000) && IsPower(g, 16, p)
  {
    Masks();
    OneRises(g, 12);
    OneRises(g, 15);
    assert HighFirst(0x1000, 16) == Zeros(3) + ([true] + Zeros(12));
    assert HighFirst(0x8000, 16) == Zeros(0) + ([true] + Zeros(15));
    AfterError(g);
  }

  lemma ChainIsPowers(g: Bits, p: bv16, w: Powers)
    requires IsGenerator(g) && IsFeedback(g, p) && FirstProducts(p, w) && LastProducts(p, w)
    ensures IsPower(g, 217, w.x217) && IsPower(g, 1057, w.x1057)
    ensures IsPower(g, 4681, w.x4681) && IsPower(g, 32767, w.x32767)
  {
    hide Product, IsPower, IsFeedback;
    SmallPowers(g, p);
    Multiply(g, p, 15, 12, 0x8000, 0x1000, w.x27);
    Multiply(g, p, 15, 16, 0x8000, p, w.x31);
    Multiply(g, p, 31, 31, w.x31, w.x31, w.x62);
    Multiply(g, p, 62, 62, w.x62, w.x62, w.x124);
    Multiply(g, p, 124, 27, w.x124, w.x27, w.x151);
    Multiply(g, p, 62, 124, w.x62, w.x124, w.x186);
    Multiply(g, p, 186, 31, w.x186, w.x31, w.x217);
    Multiply(g, p, 151, 151, w.x151, w.x151, w.x302);
    Multiply(g, p, 302, 302, w.x302, w.x302, w.x604);
    Multiply(g, p, 604, 302, w.x604, w.x302, w.x906);
    Multiply(g, p, 906, 151, w.x906, w.x151, w.x1057);
    Multiply(g, p, 604, 604, w.x604, w.x604, w.x1208);
    Multiply(g, p, 1208, 1208, w.x1208, w.x1208, w.x2416);
    Multiply(g, p, 2416, 1208, w.x2416, w.x1208, w.x3624);
    Multiply(g, p, 3624, 1057, w.x3624, w.x1057, w.x4681);
    Multiply(g, p, 4681, 4681, w.x4681, w.x4681, w.x9362);
    Multiply(g, p, 9362, 9362, w.x9362, w.x9362, w.x18724);
    Multiply(g, p, 18724, 9362, w.x18724, w.x9362, w.x28086);
    Multiply(g, p, 28086, 4681, w.x28086, w.x4681, w.x32767);
  }

  const MODBUS_POWERS :=
    Powers(0xB003, 0x8009, 0x8047, 0x9013, 0x8A09, 0x4458, 0xAA7C, 0x81DF, 0x5156, 0x7372,
           0x8273, 0xF711, 0xFF79, 0x78DA, 0x9631, 0x037C, 0x154E, 0x837E, 0x0001)

  const CCITT_POWERS :=
    Powers(0x89A9, 0x1B98, 0x6A10, 0xC6F7, 0xF008, 0xA741, 0x48E3, 0xF10A, 0xE12F, 0x94DE,
           0xF2AF, 0xD60F, 0x6F6E, 0xF712, 0x2C42, 0x8635, 0x5A68, 0x762B, 0x0001)

  lemma ModbusFirst()
    ensures FirstProducts(0x8005, MODBUS_POWERS)
  {
  }

  lemma ModbusLast()
    ensures LastProducts(0x8005, MODBUS_POWERS)
  {
  }

  lemma CcittFirst()
    ensures FirstProducts(0x1021, CCITT_POWERS)
  {
  }

  lemma CcittLast()
    ensures LastProducts(0x1021, CCITT_POWERS)
  {
  }

  lemma OneWord()
    ensures HighFirst(1, 16) == One(16)
  {
    Masks();
    forall i | 0 <= i < 16 ensures HighFirst(1, 16)[i] == One(16)[i] {
      assert HighFirst(1, 16)[i] == Has(1, 15 - i);
    }
  }

  /** x^32767 is 1, and none of the powers that leave out one prime factor is. */
  lemma PeriodsFromPowers(g: Bits, a: bv16, b: bv16, c: bv16)
    requires |g| == 17 && IsPower(g, 217, a) && IsPower(g, 1057, b) && IsPower(g, 4681, c) && IsPower(g, 32767, 1)
    requires a != 1 && b != 1 && c != 1
    ensures Period(g, 32767) && !Period(g, 217) && !Period(g, 1057) && !Period(g, 4681)
  {
    OneWord();
    hide HighFirst, Power;
    BitsInjective(a, 1);
    BitsInjective(b, 1);
    BitsInjective(c, 1);
  }

  // The periods of x are the multiples of 32767

  lemma {:induction false} ScaledGcd(g: Bits, c: nat, a: nat, b: nat)
    requires |g| > 1 && Period(g, c * a) && Period(g, c * b)
    ensures Period(g, c * Gcd(a, b))
    decreases b
  {
    if b > 0 {
      PeriodMultiple(g, c * b, a / b);
      Scaled(a, b, c);
      PeriodSum(g, a / b * (c * b), c * (a % b));
      ScaledGcd(g, c, b, a % b);
    }
  }

  lemma Scaled(a: nat, b: nat, c: nat)
    requires b > 0
    ensures a / b * (c * b) + c * (a % b) == c * a
  {
    assert a == a / b * b + a % b;
    assert a / b * (c * b) == c * (a / b * b);
    assert c * (a / b * b + a % b) == c * (a / b * b) + c * (a % b);
  }

  /** 7, 31 and 151 are prime. */
  lemma PrimeFactors(q: nat, m: nat, n: nat)
    requires (q == 7 || q == 31 || q == 151) && m * n == q
    ensures m == 1 || n == 1
  {
    if m <= 12 {
      SmallFactor(q, m, n);
    } else if n <= 12 {
      SmallFactor(q, n, m);
    } else {
      LargeFactors(m, n);
    }
  }

  lemma LargeFactors(m: nat, n: nat)
    requires m > 12 && n > 12
    ensures m * n >= 169
  {
  }

  lemma SmallFactor(q: nat, m: nat, n: nat)
    requires (q == 7 || q == 31 || q == 151) && m * n == q && m <= 12
    ensures m == 1 || n == 1
  {
    assert m == 0 || m == 1 || m == 2 || m == 3 || m == 4 || m == 5 || m == 6
        || m == 7 || m == 8 || m == 9 || m == 10 || m == 11 || m == 12;
  }

  lemma GcdWithPrime(q: nat, j: nat)
    requires (q == 7 || q == 31 || q == 151) && 0 < j < q
    ensures Gcd(q, j) == 1
  {
    var m, n := GcdDivides(q, j);
    PrimeFactors(q, m, Gcd(q, j));
  }

  lemma CoprimePeriod(g: Bits, c: nat, a: nat, b: nat)
    requires |g| > 1 && Period(g, c * a) && Period(g, c * b) && Gcd(a, b) == 1
    ensures Period(g, c)
  {
    hide Period;
    ScaledGcd(g, c, a, b);
    assert c * 1 == c;
  }

  /** A period is a multiple of q unless 32767 / q is one. */
  lemma PrimeDividesPeriod(g: Bits, q: nat, c: nat, d: nat)
    requires |g| > 1 && (q == 7 || q == 31 || q == 151) && c * q == 32767
    requires Period(g, 32767) && !Period(g, c) && Period(g, d)
    ensures d % q == 0
  {
    hide Period;
    if d % q != 0 {
      GcdWithPrime(q, d % q);
      PeriodMultiple(g, d, c);
      CoprimePeriod(g, c, d, q);
    }
  }

  lemma ProductOfPrimes(d: nat)
    requires d % 7 == 0 && d % 31 == 0 && d % 151 == 0
    ensures d % 32767 == 0
  {
    var a, k, m := d / 7, d / 31, d / 151;
    assert d == 7 * a && d == 31 * k && d == 151 * m;
    var b := 9 * k - 2 * a;
    assert a == 31 * b;
    var c := 135 * m - 194 * b;
    assert b == 151 * c;
    MultipleOf32767(d, c);
  }

  lemma MultipleOf32767(d: nat, c: int)
    requires d == 32767 * c
    ensures d % 32767 == 0
  {
  }

  predicate WholePeriods(d: nat) {
    d % 32767 == 0
  }

  lemma PeriodExactly(g: Bits, d: nat)
    requires |g| > 1 && Period(g, 32767) && !Period(g, 217) && !Period(g, 1057) && !Period(g, 4681)
    ensures Period(g, d) <==> WholePeriods(d)
  {
    if d % 32767 == 0 {
      PeriodMultiple(g, 32767, d / 32767);
    }
    if Period(g, d) {
      PrimeDividesPeriod(g, 7, 4681, d);
      PrimeDividesPeriod(g, 31, 1057, d);
      PrimeDividesPeriod(g, 151, 217, d);
      ProductOfPrimes(d);
    }
  }

  // Two-bit errors and 17-bit bursts

  lemma ModbusPowers()
    ensures |MODBUS| == 17
    ensures IsPower(MODBUS, 217, 0xAA7C) && IsPower(MODBUS, 1057, 0x8273)
    ensures IsPower(MODBUS, 4681, 0x9631) && IsPower(MODBUS, 32767, 1)
  {
    ModbusGenerator();
    ModbusFirst();
    ModbusLast();
    ModbusFeedback();
    hide FirstProducts, LastProducts, IsPower;
    ChainIsPowers(MODBUS, 0x8005, MODBUS_POWERS);
  }

  lemma ModbusPeriod(d: nat)
    ensures |MODBUS| == 17 && (Period(MODBUS, d) <==> WholePeriods(d))
  {
    ModbusPowers();
    hide IsPower, Period, WholePeriods;
    PeriodsFromPowers(MODBUS, 0xAA7C, 0x8273, 0x9631);
    PeriodExactly(MODBUS, d);
  }

  lemma ModbusFeedback()
    ensures HighFirst(0x8005, 16) == MODBUS[1..]
  {
    Masks();
  }

  lemma CcittPowers()
    ensures |CCITT| == 17
    ensures IsPower(CCITT, 217, 0x48E3) && IsPower(CCITT, 1057, 0xF2AF)
    ensures IsPower(CCITT, 4681, 0x2C42) && IsPower(CCITT, 32767, 1)
  {
    CcittGenerator();
    CcittFirst();
    CcittLast();
    FeedbackWords();
    hide FirstProducts, LastProducts, IsPower;
    ChainIsPowers(CCITT, 0x1021, CCITT_POWERS);
  }

  lemma CcittPeriod(d: nat)
    ensures |CCITT| == 17 && (Period(CCITT, d) <==> WholePeriods(d))
  {
    CcittPowers();
    hide IsPower, Period, WholePeriods;
    PeriodsFromPowers(CCITT, 0x48E3, 0xF2AF, 0x2C42);
    PeriodExactly(CCITT, d);
  }

  lemma ModbusSame(r: bv16, a: seq<bv8>, b: seq<bv8>)
    ensures |MODBUS| == 17
    ensures ModbusCrc(r, a) == ModbusCrc(r, b)
       <==> Run(MODBUS, LowFirst(r, 16), LowStream(a)) == Run(MODBUS, LowFirst(r, 16), LowStream(b))
  {
    ModbusGenerator();
    ModbusCrcIsRun(r, a);
    ModbusCrcIsRun(r, b);
    BitsInjective(ModbusCrc(r, a), ModbusCrc(r, b));
  }

  lemma CcittSame(r: bv16, a: seq<bv8>, b: seq<bv8>)
    ensures |CCITT| == 17
    ensures CcittCrc(r, a) == CcittCrc(r, b)
       <==> Run(CCITT, HighFirst(r, 16), HighStream(a)) == Run(CCITT, HighFirst(r, 16), HighStream(b))
  {
    CcittGenerator();
    CcittCrcIsRun(r, a);
    CcittCrcIsRun(r, b);
    BitsInjective(CcittCrc(r, a), CcittCrc(r, b));
  }

  /** Two messages that differ in exactly two bits have the same Modbus CRC if and
      only if 32767 divides the distance d of the bits. */
  lemma ModbusTwoBits(r: bv16, a: seq<bv8>, b: seq<bv8>, i: nat, d: nat)
    requires |a| == |b| && DifferAt(LowStream(a), LowStream(b), i, i + d)
    ensures ModbusCrc(r, a) == ModbusCrc(r, b) <==> WholePeriods(d)
  {
    ModbusGenerator();
    PairCollides(MODBUS, LowFirst(r, 16), LowStream(a), LowStream(b), i, i + d);
    hide DifferAt, LowStream, LowFirst, ModbusCrc, Run, Period, WholePeriods, IsGenerator, Parity;
    ModbusSame(r, a, b);
    ModbusPeriod(d);
  }

  /** The same for the CCITT CRC. */
  lemma CcittTwoBits(r: bv16, a: seq<bv8>, b: seq<bv8>, i: nat, d: nat)
    requires |a| == |b| && DifferAt(HighStream(a), HighStream(b), i, i + d)
    ensures CcittCrc(r, a) == CcittCrc(r, b) <==> WholePeriods(d)
  {
    CcittGenerator();
    PairCollides(CCITT, HighFirst(r, 16), HighStream(a), HighStream(b), i, i + d);
    hide DifferAt, HighStream, HighFirst, CcittCrc, Run, Period, WholePeriods, IsGenerator, Parity;
    CcittSame(r, a, b);
    CcittPeriod(d);
  }

  /** Two messages that differ within 17 consecutive bits have the same Modbus CRC
      if and only if they are equal or differ in exactly the generator's pattern. */
  lemma ModbusBurst17(r: bv16, a: seq<bv8>, b: seq<bv8>, i: nat)
    requires |a| == |b| && DifferWithin(LowStream(a), LowStream(b), i, i + 17)
    ensures ModbusCrc(r, a) == ModbusCrc(r, b)
       <==> LowStream(a) == LowStream(b) || Xor(LowStream(a)[i..i + 17], LowStream(b)[i..i + 17]) == MODBUS
  {
    ModbusGenerator();
    LongerBurst(MODBUS, LowFirst(r, 16), LowStream(a), LowStream(b), i);
    ModbusSame(r, a, b);
  }

  lemma CcittBurst17(r: bv16, a: seq<bv8>, b: seq<bv8>, i: nat)
    requires |a| == |b| && DifferWithin(HighStream(a), HighStream(b), i, i + 17)
    ensures CcittCrc(r, a) == CcittCrc(r, b)
       <==> HighStream(a) == HighStream(b) || Xor(HighStream(a)[i..i + 17], HighStream(b)[i..i + 17]) == CCITT
  {
    CcittGenerator();
    LongerBurst(CCITT, HighFirst(r, 16), HighStream(a), HighStream(b), i);
    CcittSame(r, a, b);
  }

  lemma ThreeBytes(x: bv8, y: bv8, z: bv8)
    ensures LowStream([x, y, z]) == LowFirst(x as bv16, 8) + LowFirst(y as bv16, 8) + LowFirst(z as bv16, 8)
    ensures HighStream([x, y, z]) == HighFirst(x as bv16, 8) + HighFirst(y as bv16, 8) + HighFirst(z as bv16, 8)
  {
    StreamSnoc([], x);
    StreamSnoc([x], y);
    StreamSnoc([x, y], z);
    assert [] + [x] == [x] && [x] + [y] == [x, y] && [x, y] + [z] == [x, y, z];
    ConcatUnits(LowFirst(x as bv16, 8), 0);
    ConcatUnits(HighFirst(x as bv16, 8), 0);
  }

  lemma SilentBytes()
    ensures LowStream([0, 0, 0]) == HighStream([0, 0, 0]) == Zeros(24)
  {
    ThreeBytes(0, 0, 0);
    ZeroBits(0);
    assert LowFirst(0, 8) == HighFirst(0, 8) == Zeros(8);
  }

  lemma PatternBytes()
    ensures LowStream([0x03, 0x40, 0x01]) == MODBUS + Zeros(7)
    ensures HighStream([0x88, 0x10, 0x80]) == CCITT + Zeros(7)
  {
    Masks();
    ThreeBytes(0x03, 0x40, 0x01);
    ThreeBytes(0x88, 0x10, 0x80);
  }

  lemma PatternDiffers(g: Bits, a: Bits, b: Bits)
    requires |g| == 17 && a == Zeros(24) && b == g + Zeros(7)
    ensures DifferWithin(a, b, 0, 17) && Xor(a[0..17], b[0..17]) == g
  {
    assert a[17..] == Zeros(7) == b[17..];
    assert a[0..17] == Zeros(17) && b[0..17] == g;
    XorZeros(g);
  }

  /** Such messages exist, so 16 bits is the longest burst that is always seen. */
  lemma BurstOf17Unseen(r: bv16)
    ensures ModbusCrc(r, [0, 0, 0]) == ModbusCrc(r, [0x03, 0x40, 0x01])
    ensures CcittCrc(r, [0, 0, 0]) == CcittCrc(r, [0x88, 0x10, 0x80])
  {
    SilentBytes();
    PatternBytes();
    PatternDiffers(MODBUS, Zeros(24), MODBUS + Zeros(7));
    PatternDiffers(CCITT, Zeros(24), CCITT + Zeros(7));
    ModbusBurst17(r, [0, 0, 0], [0x03, 0x40, 0x01], 0);
    CcittBurst17(r, [0, 0, 0], [0x88, 0x10, 0x80], 0);
  }
}
