/**
 Powers of x modulo a generator, and what their period says about pairs of bit
 errors: two errors go unseen exactly if their distance is a multiple of it.
 */
module Gf2Order {
  import opened Gf2

  // x^n modulo g

  /** The polynomial 1 in a register of width k. */
  function One(k: nat): (r: Bits)
    requires k > 0
    ensures |r| == k
  {
    Zeros(k - 1) + [true]
  }

  function Power(g: Bits, n: nat): (r: Bits)
    requires |g| > 1
    ensures |r| == |g| - 1
  {
    Run(g, One(|g| - 1), Zeros(n))
  }

  /** a * b modulo g, for a register b, by Horner's rule on the bits of a. */
  function Times(g: Bits, a: Bits, b: Bits): (r: Bits)
    requires |g| == |b| + 1 > 1
    ensures |r| == |b|
  {
    if a == [] then Zeros(|b|)
    else Xor(Step(g, Times(g, a[..|a| - 1], b), false), if a[|a| - 1] then b else Zeros(|b|))
  }

  lemma StepOfSum(g: Bits, r: Bits, s: Bits, n: nat)
    requires |g| == |r| + 1 > 1 && |r| == |s|
    ensures Run(g, Xor(r, s), Zeros(n)) == Xor(Run(g, r, Zeros(n)), Run(g, s, Zeros(n)))
  {
    XorZeros(Zeros(n));
    RunLinear(g, r, s, Zeros(n), Zeros(n));
  }

  lemma StepCommutes(g: Bits, r: Bits, n: nat)
    requires |g| == |r| + 1 > 1
    ensures Run(g, Step(g, r, false), Zeros(n)) == Step(g, Run(g, r, Zeros(n)), false)
  {
    RunFirstZero(g, r, n + 1);
    assert Zeros(n + 1) == Zeros(n) + [false];
    RunConcat(g, r, Zeros(n), [false]);
    RunOfBit(g, Run(g, r, Zeros(n)), false);
  }

  lemma RunOfBit(g: Bits, r: Bits, b: bool)
    requires |g| == |r| + 1 > 1
    ensures Run(g, r, [b]) == Step(g, r, b)
  {
    assert [b][1..] == [];
  }

  /** Multiplying by x^n may be done before or after multiplying by a. */
  lemma {:induction false} TimesThenRun(g: Bits, a: Bits, b: Bits, n: nat)
    requires |g| == |b| + 1 > 1
    ensures Run(g, Times(g, a, b), Zeros(n)) == Times(g, a, Run(g, b, Zeros(n)))
    decreases |a|
  {
    RunZeros(g, |b|, n);
    if a != [] {
      var front, last := a[..|a| - 1], if a[|a| - 1] then b else Zeros(|b|);
      var t := Times(g, front, b);
      StepOfSum(g, Step(g, t, false), last, n);
      StepCommutes(g, t, n);
      TimesThenRun(g, front, b, n);
    }
  }

  lemma {:induction false} TimesOnePrefix(g: Bits, a: Bits, k: nat)
    requires |g| == k + 1 > 1 && |a| <= k
    ensures Times(g, a, One(k)) == Zeros(k - |a|) + a
    decreases |a|
  {
    if a == [] {
      ConcatUnits(Zeros(k), 0);
    } else {
      var front, b := a[..|a| - 1], a[|a| - 1];
      TimesOnePrefix(g, front, k);
      NextBit(g, front, b, k);
      assert a == front + [b];
    }
  }

  lemma NextBit(g: Bits, front: Bits, b: bool, k: nat)
    requires |g| == k + 1 > 1 && |front| < k
    ensures Xor(Step(g, Zeros(k - |front|) + front, false), if b then One(k) else Zeros(k))
         == Zeros(k - |front| - 1) + (front + [b])
  {
    var z := Zeros(k - |front| - 1);
    ZerosCons(k - |front| - 1, front);
    ShiftIn(g, Zeros(k - |front|) + front, z + front);
    hide Step;
    AddLast(z + front, b);
    assert z + front + [b] == z + (front + [b]);
  }

  lemma ShiftIn(g: Bits, before: Bits, rest: Bits)
    requires |g| == |before| + 1 > 1 && before == [false] + rest
    ensures Step(g, before, false) == rest + [false]
  {
    assert before[1..] == rest;
  }

  lemma AddLast(front: Bits, b: bool)
    ensures Xor(front + [false], if b then One(|front| + 1) else Zeros(|front| + 1)) == front + [b]
  {
  }

  lemma TimesOne(g: Bits, r: Bits)
    requires |g| == |r| + 1 > 1
    ensures Times(g, r, One(|r|)) == r
  {
    TimesOnePrefix(g, r, |r|);
    ConcatUnits(r, 0);
  }

  lemma ZerosSum(m: nat, n: nat)
    ensures Zeros(m + n) == Zeros(m) + Zeros(n)
  {
  }

  /** Exponents add when powers are multiplied. */
  lemma PowersMultiply(g: Bits, m: nat, n: nat)
    requires |g| > 1
    ensures Power(g, m + n) == Times(g, Power(g, m), Power(g, n))
  {
    var one := One(|g| - 1);
    ZerosSum(m, n);
    RunConcat(g, one, Zeros(m), Zeros(n));
    TimesOne(g, Power(g, m));
    TimesThenRun(g, Power(g, m), one, n);
  }

  // Periods

  predicate Period(g: Bits, d: nat)
    requires |g| > 1
  {
    Power(g, d) == One(|g| - 1)
  }

  lemma PeriodSum(g: Bits, a: nat, b: nat)
    requires |g| > 1 && Period(g, a)
    ensures Power(g, a + b) == Power(g, b)
  {
    ZerosSum(a, b);
    RunConcat(g, One(|g| - 1), Zeros(a), Zeros(b));
  }

  lemma {:induction false} PeriodMultiple(g: Bits, a: nat, k: nat)
    requires |g| > 1 && Period(g, a)
    ensures Period(g, k * a)
  {
    if k == 0 {
      assert Zeros(0) == [];
    } else {
      PeriodMultiple(g, a, k - 1);
      PeriodSum(g, a, (k - 1) * a);
      assert k * a == a + (k - 1) * a;
    }
  }

  function Gcd(a: nat, b: nat): nat
    decreases b
  {
    if b == 0 then a else Gcd(b, a % b)
  }

  lemma {:induction false} GcdDivides(a: nat, b: nat) returns (p: nat, q: nat)
    ensures a == p * Gcd(a, b) && b == q * Gcd(a, b)
    decreases b
  {
    if b == 0 {
      p, q := 1, 0;
    } else {
      var m, n := GcdDivides(b, a % b);
      Regroup(a, b, m, n, Gcd(a, b));
      p, q := a / b * m + n, m;
    }
  }

  lemma Regroup(a: nat, b: nat, m: nat, n: nat, c: nat)
    requires b > 0 && b == m * c && a % b == n * c
    ensures a == (a / b * m + n) * c
  {
    assert a == a / b * b + a % b;
    assert a / b * (m * c) == (a / b * m) * c;
  }

  // Two errors

  /** The strings differ at positions i and j and nowhere else. */
  predicate DifferAt(a: Bits, b: Bits, i: nat, j: nat)
    requires |a| == |b|
  {
    i < j < |a| && forall n | 0 <= n < |a| :: a[n] != b[n] <==> n == i || n == j
  }

  /** Flipping two bits of a string gives one that differs there, and the only one. */
  lemma TwoFlips(a: Bits, b: Bits, i: nat, j: nat)
    requires i < j < |a| == |b|
    ensures DifferAt(a, b, i, j) <==> b == a[i := !a[i]][j := !a[j]]
  {
  }

  /** The register just after an error bit: x^k modulo g. */
  lemma AfterError(g: Bits)
    requires IsGenerator(g)
    ensures var k := |g| - 1; Step(g, Zeros(k), true) == g[1..] == Power(g, k)
  {
    var k := |g| - 1;
    XorZeros(g[1..]);
    assert Zeros(k)[1..] + [false] == Zeros(k);
    OneRises(g, k - 1);
    ConcatUnits(Zeros(k - 1), 0);
    assert Zeros(k) == Zeros(k - 1) + [false];
    RunConcat(g, One(k), Zeros(k - 1), [false]);
    RunOfBit(g, Power(g, k - 1), false);
    var top := [true] + Zeros(k - 1);
    assert top[1..] + [false] == Zeros(k);
    assert Step(g, top, false) == Xor(Zeros(k), g[1..]);
  }

  lemma {:induction false} OneRises(g: Bits, n: nat)
    requires |g| > 1 && n < |g| - 1
    ensures Power(g, n) == Zeros(|g| - 2 - n) + ([true] + Zeros(n))
  {
    if n > 0 {
      OneRises(g, n - 1);
      var before := Zeros(|g| - 1 - n) + ([true] + Zeros(n - 1));
      assert Zeros(n) == Zeros(n - 1) + [false];
      RunConcat(g, One(|g| - 1), Zeros(n - 1), [false]);
      RunOfBit(g, before, false);
      assert before[1..] + [false] == Zeros(|g| - 2 - n) + ([true] + Zeros(n));
    }
  }

  /** A second error d bits after the first clears the register exactly if d is
      a period. */
  lemma SecondError(g: Bits, d: nat)
    requires IsGenerator(g) && d > 0
    ensures var k := |g| - 1;
      Run(g, Zeros(k), [true] + Zeros(d - 1) + [true]) == Zeros(k) <==> Period(g, d)
  {
    var k, p := |g| - 1, g[1..];
    AfterError(g);
    RunConcat(g, Zeros(k), [true] + Zeros(d - 1), [true]);
    RunConcat(g, Zeros(k), [true], Zeros(d - 1));
    RunOfBit(g, Zeros(k), true);
    var s := Run(g, p, Zeros(d - 1));
    RunOfBit(g, s, true);
    StepWithError(g, s);
    assert Zeros(d) == Zeros(d - 1) + [false];
    RunConcat(g, p, Zeros(d - 1), [false]);
    RunOfBit(g, s, false);
    XorIsZero(Run(g, p, Zeros(d)), p);
    ReturnsAfter(g, d);
  }

  lemma StepWithError(g: Bits, s: Bits)
    requires |g| == |s| + 1 > 1
    ensures Step(g, s, true) == Xor(Step(g, s, false), g[1..])
  {
    XorTwice(s[1..] + [false], g[1..]);
    XorCommutes(s[1..] + [false], g[1..]);
    XorCommutes(Xor(s[1..] + [false], g[1..]), g[1..]);
  }

  lemma ReturnsAfter(g: Bits, d: nat)
    requires IsGenerator(g)
    ensures Run(g, Power(g, |g| - 1), Zeros(d)) == Power(g, |g| - 1) <==> Period(g, d)
  {
    var k, one := |g| - 1, One(|g| - 1);
    ZerosSum(k, d);
    ZerosSum(d, k);
    RunConcat(g, one, Zeros(k), Zeros(d));
    RunConcat(g, one, Zeros(d), Zeros(k));
    if Run(g, Power(g, d), Zeros(k)) == Run(g, one, Zeros(k)) {
      RunInjective(g, Power(g, d), one, Zeros(k));
    }
  }

  /** Only the part of the difference from its first to its last error matters. */
  lemma PaddedError(g: Bits, r: Bits, a: Bits, b: Bits, i: nat, e: Bits, n: nat)
    requires IsGenerator(g) && |r| + 1 == |g| && |a| == |b| && Xor(a, b) == Zeros(i) + (e + Zeros(n))
    ensures Run(g, r, a) == Run(g, r, b) <==> Run(g, Zeros(|r|), e) == Zeros(|r|)
  {
    hide Run, Xor, Zeros;
    RunsAgree(g, r, a, b);
    RunConcat(g, Zeros(|r|), Zeros(i), e + Zeros(n));
    RunZeros(g, |r|, i);
    RunConcat(g, Zeros(|r|), e, Zeros(n));
    RunOfZero(g, Run(g, Zeros(|r|), e), n);
  }

  /** Two messages that differ in two bits leave the same register exactly if
      the distance of the bits is a period of the generator. */
  lemma PairCollides(g: Bits, r: Bits, a: Bits, b: Bits, i: nat, j: nat)
    requires IsGenerator(g) && |r| + 1 == |g| && |a| == |b| && DifferAt(a, b, i, j)
    ensures Run(g, r, a) == Run(g, r, b) <==> Period(g, j - i)
  {
    var e, n := [true] + Zeros(j - i - 1) + [true], |a| - j - 1;
    assert Xor(a, b) == Zeros(i) + (e + Zeros(n));
    PaddedError(g, r, a, b, i, e, n);
    SecondError(g, j - i);
  }

  // One bit more than the register is wide

  /** A burst one bit longer than the register is seen unless it is the
      generator itself: the bound of BurstDetected is tight. */
  lemma LongerBurst(g: Bits, r: Bits, a: Bits, b: Bits, i: nat)
    requires IsGenerator(g) && |r| + 1 == |g| && |a| == |b| && DifferWithin(a, b, i, i + |g|)
    ensures Run(g, r, a) == Run(g, r, b) <==> a == b || Xor(a[i..i + |g|], b[i..i + |g|]) == g
  {
    var e, n := Xor(a[i..i + |g|], b[i..i + |g|]), |a| - (i + |g|);
    XorWithin(a, b, i, i + |g|);
    WithinEqual(a, b, i, i + |g|);
    hide Run, Xor, Zeros, DifferWithin;
    PaddedError(g, r, a, b, i, e, n);
    WidthAndOne(g, e);
  }

  lemma WidthAndOne(g: Bits, e: Bits)
    requires IsGenerator(g) && |e| == |g|
    ensures Run(g, Zeros(|g| - 1), e) == Zeros(|g| - 1) <==> e == Zeros(|g|) || e == g
  {
    hide Run;
    HeadTail(e);
    FirstAndRest(g, e[0], e[1..]);
  }

  lemma FirstAndRest(g: Bits, b: bool, low: Bits)
    requires IsGenerator(g) && |low| + 1 == |g|
    ensures Run(g, Zeros(|low|), [b] + low) == Zeros(|low|) <==> [b] + low == Zeros(|g|) || [b] + low == g
  {
    var zeros := Zeros(|low|);
    assert Step(g, zeros, false) == zeros;
    hide Run, Step, Xor;
    SameHead(b, low, g);
    SameHead(b, low, Zeros(|g|));
    ZerosCons(|low|, []);
    RunConcat(g, zeros, [b], low);
    RunOfBit(g, zeros, b);
    if b {
      AfterError(g);
      RunToZero(g, g[1..], low);
    } else {
      ShortNonZero(g, |low|, low);
    }
  }

  lemma SameHead(b: bool, low: Bits, a: Bits)
    requires |a| == |low| + 1
    ensures [b] + low == a <==> b == a[0] && low == a[1..]
  {
    HeadTail(a);
    assert ([b] + low)[1..] == low;
  }
}
