/**
 Polynomials over GF(2) as bit strings, highest coefficient first, and the
 shift register that divides a message by a generator polynomial.

 Nothing here mentions a table, a byte or a machine word: the module is the
 reference that both CRC routines of src/crc16.cpp are measured against.
 */
module Gf2 {

  type Bits = seq<bool>

  function Zeros(n: nat): (z: Bits)
    ensures |z| == n && forall i | 0 <= i < n :: !z[i]
  {
    seq(n, _ => false)
  }

  /** The sum of two polynomials. */
  function Xor(a: Bits, b: Bits): (c: Bits)
    requires |a| == |b|
    ensures |c| == |a|
    ensures forall i | 0 <= i < |a| :: c[i] == (a[i] != b[i])
  {
    seq(|a|, i requires 0 <= i < |a| => a[i] != b[i])
  }

  /** The polynomial of the given degree whose non-zero exponents are listed. */
  function Poly(degree: nat, exponents: set<nat>): (p: Bits)
    ensures |p| == degree + 1
  {
    seq(degree + 1, i requires 0 <= i <= degree => degree - i in exponents)
  }

  /** c * g * x^n */
  function Term(c: bool, g: Bits, n: nat): (t: Bits)
    ensures |t| == |g| + n
    ensures forall i | 0 <= i < |g| + n :: t[i] == (c && i < |g| && g[i])
  {
    (if c then g else Zeros(|g|)) + Zeros(n)
  }

  /** The product of two polynomials, by the schoolbook method. */
  function Mul(q: Bits, g: Bits): (p: Bits)
    requires |g| > 0
    ensures |p| == |q| + |g| - 1
  {
    if q == [] then Zeros(|g| - 1)
    else Xor(Term(q[0], g, |q| - 1), [false] + Mul(q[1..], g))
  }

  /** d == q * g + r with r of lower degree than g. */
  ghost predicate IsDivision(d: Bits, g: Bits, q: Bits, r: Bits) {
    && |g| == |r| + 1 && |d| == |q| + |r|
    && d == Xor(Mul(q, g), Zeros(|q|) + r)
  }

  /** d is a product q * g. */
  ghost predicate IsMultiple(d: Bits, g: Bits)
    requires 0 < |g| <= |d| + 1
  {
    exists q: Bits :: |q| == |d| + 1 - |g| && Mul(q, g) == d
  }

  /** A generator has leading and constant coefficient 1. */
  predicate IsGenerator(g: Bits) {
    |g| >= 2 && g[0] && g[|g| - 1]
  }

  // The division register

  /** One clock of the register: shift in a zero, subtract the generator when
      the bit leaving the register differs from the message bit. */
  function Step(g: Bits, r: Bits, b: bool): (r': Bits)
    requires |r| + 1 == |g| && |r| > 0
    ensures |r'| == |r|
  {
    var s := r[1..] + [false];
    if r[0] != b then Xor(s, g[1..]) else s
  }

  function Run(g: Bits, r: Bits, m: Bits): (r': Bits)
    requires |r| + 1 == |g| && |r| > 0
    ensures |r'| == |r|
    decreases |m|
  {
    if m == [] then r else Run(g, Step(g, r, m[0]), m[1..])
  }

  /** The feedback bits of a run. */
  function Quotient(g: Bits, r: Bits, m: Bits): (q: Bits)
    requires |r| + 1 == |g| && |r| > 0
    ensures |q| == |m|
    decreases |m|
  {
    if m == [] then [] else [r[0] != m[0]] + Quotient(g, Step(g, r, m[0]), m[1..])
  }

  /** m * x^k + r * x^|m| for a register r of width k: what a run that starts
      at r divides. */
  function Dividend(r: Bits, m: Bits): (d: Bits)
    ensures |d| == |r| + |m|
  {
    Xor(m + Zeros(|r|), r + Zeros(|m|))
  }

  function Parity(a: Bits): bool {
    if a == [] then false else a[0] != Parity(a[1..])
  }

  // Algebra of bit strings

  lemma HeadTail(a: Bits)
    requires a != []
    ensures a == [a[0]] + a[1..]
  {
  }

  lemma ZerosCons(n: nat, a: Bits)
    ensures Zeros(n + 1)[1..] == Zeros(n)
    ensures [false] + (Zeros(n) + a) == Zeros(n + 1) + a
  {
  }

  lemma XorZeros(a: Bits)
    ensures Xor(Zeros(|a|), a) == a == Xor(a, Zeros(|a|))
    ensures Xor(a, a) == Zeros(|a|)
  {
  }

  lemma ConcatUnits(a: Bits, n: nat)
    ensures a + [] == a == [] + a && a + Zeros(0) == a && Zeros(0) + a == a
    ensures n == 0 <==> Zeros(n) == []
  {
  }

  lemma ConsInjective(a: Bits, b: Bits)
    requires [false] + a == [false] + b
    ensures a == b
  {
    assert ([false] + a)[1..] == a && ([false] + b)[1..] == b;
  }

  lemma XorTwice(a: Bits, b: Bits)
    requires |a| == |b|
    ensures Xor(b, Xor(b, a)) == a
  {
  }

  lemma XorAssoc(a: Bits, b: Bits, c: Bits)
    requires |a| == |b| == |c|
    ensures Xor(Xor(a, b), c) == Xor(a, Xor(b, c))
  {
  }

  lemma XorCommutes(a: Bits, b: Bits)
    requires |a| == |b|
    ensures Xor(a, b) == Xor(b, a)
  {
  }

  lemma XorConcat(a: Bits, b: Bits, c: Bits, d: Bits)
    requires |a| == |c| && |b| == |d|
    ensures Xor(a + b, c + d) == Xor(a, c) + Xor(b, d)
  {
  }

  lemma XorZeroPrefix(a: Bits, b: Bits)
    requires |a| == |b|
    ensures [false] + Xor(a, b) == Xor([false] + a, [false] + b)
  {
  }

  lemma XorIsZero(a: Bits, b: Bits)
    requires |a| == |b|
    ensures Xor(a, b) == Zeros(|a|) <==> a == b
  {
    if Xor(a, b) == Zeros(|a|) {
      forall i | 0 <= i < |a| ensures a[i] == b[i] {
        assert !Xor(a, b)[i];
      }
    }
  }

  // The register computes the remainder

  lemma StepBit(g: Bits, r: Bits, b: bool, i: nat)
    requires |r| + 1 == |g| && i < |r|
    ensures Step(g, r, b)[i] == ((i + 1 < |r| && r[i + 1]) != (r[0] != b && g[i + 1]))
  {
  }

  lemma DividendBit(r: Bits, m: Bits, i: nat)
    requires i < |r| + |m|
    ensures Dividend(r, m)[i] == ((i < |m| && m[i]) != (i < |r| && r[i]))
  {
  }

  lemma LongDivisionStep(g: Bits, r: Bits, m: Bits)
    requires IsGenerator(g) && |r| + 1 == |g| && m != []
    ensures Xor(Term(r[0] != m[0], g, |m| - 1), Dividend(r, m)) == [false] + Dividend(Step(g, r, m[0]), m[1..])
  {
    hide Dividend, Step, Xor;
    var k, q := |r|, r[0] != m[0];
    var d, r' := Dividend(r, m), Step(g, r, m[0]);
    var d' := Dividend(r', m[1..]);
    forall i | 0 <= i < k + |m|
      ensures Xor(Term(q, g, |m| - 1), d)[i] == ([false] + d')[i]
    {
      DividendBit(r, m, i);
      if i > 0 {
        DividendBit(r', m[1..], i - 1);
        if i <= k {
          StepBit(g, r, m[0], i - 1);
        }
      }
    }
  }

  /** The division of what one long-division step leaves, with the bit of that
      step in front of its quotient, divides the whole. */
  lemma DivisionGrows(g: Bits, b: bool, d: Bits, q': Bits, d': Bits, r: Bits)
    requires IsDivision(d', g, q', r) && |d| == |d'| + 1 && |r| > 0
    requires Xor(Term(b, g, |q'|), d) == [false] + d'
    ensures IsDivision(d, g, [b] + q', r)
  {
    var top, q := Term(b, g, |q'|), [b] + q';
    assert q[1..] == q';
    assert Mul(q, g) == Xor(top, [false] + Mul(q', g));
    hide Mul, Xor;
    XorTwice(d, top);
    XorZeroPrefix(Mul(q', g), Zeros(|q'|) + r);
    ZerosCons(|q'|, r);
    XorAssoc(top, [false] + Mul(q', g), Zeros(|q|) + r);
  }

  /** A run divides: its feedback bits are the quotient and the final register
      is the remainder. */
  lemma {:induction false} RunDivides(g: Bits, r: Bits, m: Bits)
    requires IsGenerator(g) && |r| + 1 == |g|
    ensures IsDivision(Dividend(r, m), g, Quotient(g, r, m), Run(g, r, m))
    decreases |m|
  {
    if m == [] {
      ConcatUnits(r, 0);
      ConcatUnits(Zeros(|r|), 0);
      XorZeros(r);
    } else {
      var r', m' := Step(g, r, m[0]), m[1..];
      hide IsDivision, Dividend, Step, Xor, Term;
      RunDivides(g, r', m');
      LongDivisionStep(g, r, m);
      DivisionGrows(g, r[0] != m[0], Dividend(r, m), Quotient(g, r', m'), Dividend(r', m'), Run(g, r', m'));
    }
  }

  /** One long-division step: what is left of the dividend below its leading term. */
  lemma DivisionTail(d: Bits, g: Bits, q: Bits, r: Bits)
    requires IsGenerator(g) && IsDivision(d, g, q, r) && q != []
    ensures d[0] == q[0]
    ensures Xor(Term(q[0], g, |q| - 1), d) == [false] + Xor(Mul(q[1..], g), Zeros(|q| - 1) + r)
  {
    var top, p := Term(q[0], g, |q| - 1), Mul(q[1..], g);
    XorAssoc(top, [false] + p, Zeros(|q|) + r);
    XorTwice(Xor([false] + p, Zeros(|q|) + r), top);
    XorZeroPrefix(p, Zeros(|q| - 1) + r);
    ZerosCons(|q| - 1, r);
  }

  /** Quotient and remainder are unique. */
  lemma {:induction false} DivisionUnique(d: Bits, g: Bits, q1: Bits, r1: Bits, q2: Bits, r2: Bits)
    requires IsGenerator(g)
    requires IsDivision(d, g, q1, r1) && IsDivision(d, g, q2, r2)
    ensures q1 == q2 && r1 == r2
    decreases |q1|
  {
    if q1 == [] {
      ConcatUnits(r1, 0);
      ConcatUnits(r2, 0);
      XorZeros(r1);
      XorZeros(r2);
    } else {
      DivisionTail(d, g, q1, r1);
      DivisionTail(d, g, q2, r2);
      var d1 := Xor(Mul(q1[1..], g), Zeros(|q1| - 1) + r1);
      var d2 := Xor(Mul(q2[1..], g), Zeros(|q1| - 1) + r2);
      ConsInjective(d1, d2);
      DivisionUnique(d1, g, q1[1..], r1, q2[1..], r2);
      HeadTail(q1);
      HeadTail(q2);
    }
  }

  // The register as a linear machine

  lemma StepLinear(g: Bits, r: Bits, s: Bits, b: bool, c: bool)
    requires |r| == |s| > 0 && |r| + 1 == |g|
    ensures Step(g, Xor(r, s), b != c) == Xor(Step(g, r, b), Step(g, s, c))
  {
  }

  lemma {:induction false} RunLinear(g: Bits, r: Bits, s: Bits, m: Bits, n: Bits)
    requires |r| == |s| > 0 && |r| + 1 == |g| && |m| == |n|
    ensures Run(g, Xor(r, s), Xor(m, n)) == Xor(Run(g, r, m), Run(g, s, n))
    decreases |m|
  {
    if m == [] {
    } else {
      StepLinear(g, r, s, m[0], n[0]);
      assert Xor(m, n)[1..] == Xor(m[1..], n[1..]);
      RunLinear(g, Step(g, r, m[0]), Step(g, s, n[0]), m[1..], n[1..]);
    }
  }

  lemma {:induction false} RunConcat(g: Bits, r: Bits, m: Bits, n: Bits)
    requires |r| > 0 && |r| + 1 == |g|
    ensures Run(g, r, m + n) == Run(g, Run(g, r, m), n)
    decreases |m|
  {
    if m == [] {
      assert m + n == n;
    } else {
      assert (m + n)[1..] == m[1..] + n;
      RunConcat(g, Step(g, r, m[0]), m[1..], n);
    }
  }

  lemma {:induction false} RunZeros(g: Bits, k: nat, n: nat)
    requires 0 < k && k + 1 == |g|
    ensures Run(g, Zeros(k), Zeros(n)) == Zeros(k)
    decreases n
  {
    if n > 0 {
      assert Step(g, Zeros(k), false) == Zeros(k);
      ZerosCons(n - 1, []);
      RunZeros(g, k, n - 1);
    }
  }

  /** m at the top of a register of width k. */
  function Padded(m: Bits, k: nat): (p: Bits)
    requires |m| <= k
    ensures |p| == k
  {
    m + Zeros(k - |m|)
  }

  lemma PreloadStep(g: Bits, r: Bits, m: Bits)
    requires 0 < |r| && |r| + 1 == |g| && 0 < |m| <= |r|
    ensures Step(g, Xor(r, Padded(m, |r|)), false) == Xor(Step(g, r, m[0]), Padded(m[1..], |r|))
  {
    var s, t := Xor(r, Padded(m, |r|)), Padded(m[1..], |r|);
    assert s[0] == (r[0] != m[0]);
    assert s[1..] + [false] == Xor(r[1..] + [false], t);
    if s[0] {
      XorAssoc(r[1..] + [false], t, g[1..]);
      XorAssoc(r[1..] + [false], g[1..], t);
      XorCommutes(t, g[1..]);
    }
  }

  lemma RunFirstZero(g: Bits, s: Bits, n: nat)
    requires 0 < |s| && |s| + 1 == |g| && n > 0
    ensures Run(g, s, Zeros(n)) == Run(g, Step(g, s, false), Zeros(n - 1))
  {
    ZerosCons(n - 1, []);
  }

  lemma PreloadMore(g: Bits, r: Bits, m: Bits, s: Bits)
    requires |r| == |s| > 0 && |r| + 1 == |g| && m != []
    requires Run(g, Step(g, r, m[0]), m[1..]) == Run(g, Step(g, s, false), Zeros(|m| - 1))
    ensures Run(g, r, m) == Run(g, s, Zeros(|m|))
  {
    hide Step;
    RunFirstZero(g, s, |m|);
  }

  /** Feeding at most a register's width of message bit by bit equals adding it
      to the top of the register first and clocking in zeros. */
  lemma {:induction false} RunPreload(g: Bits, r: Bits, m: Bits)
    requires 0 < |r| && |r| + 1 == |g| && |m| <= |r|
    ensures Run(g, r, m) == Run(g, Xor(r, Padded(m, |r|)), Zeros(|m|))
    decreases |m|
  {
    if m == [] {
      ConcatUnits(Zeros(|r|), 0);
      XorZeros(r);
    } else {
      hide Run, Step, Xor, Padded;
      RunPreload(g, Step(g, r, m[0]), m[1..]);
      PreloadStep(g, r, m);
      PreloadMore(g, r, m, Xor(r, Padded(m, |r|)));
    }
  }

  lemma StepInjective(g: Bits, r: Bits, s: Bits, b: bool)
    requires IsGenerator(g) && |r| == |s| && |r| + 1 == |g|
    requires Step(g, r, b) == Step(g, s, b)
    ensures r == s
  {
    var k := |r|;
    assert Step(g, r, b)[k - 1] == (r[0] != b);
    assert Step(g, s, b)[k - 1] == (s[0] != b);
    forall i | 0 < i < k ensures r[i] == s[i] {
      assert Step(g, r, b)[i - 1] == (r[i] != ((r[0] != b) && g[i]));
      assert Step(g, s, b)[i - 1] == (s[i] != ((s[0] != b) && g[i]));
    }
  }

  lemma {:induction false} RunInjective(g: Bits, r: Bits, s: Bits, m: Bits)
    requires IsGenerator(g) && |r| == |s| && |r| + 1 == |g|
    requires Run(g, r, m) == Run(g, s, m)
    ensures r == s
    decreases |m|
  {
    if m != [] {
      RunInjective(g, Step(g, r, m[0]), Step(g, s, m[0]), m[1..]);
      StepInjective(g, r, s, m[0]);
    }
  }

  lemma RunOfZero(g: Bits, r: Bits, n: nat)
    requires IsGenerator(g) && |r| + 1 == |g|
    ensures Run(g, r, Zeros(n)) == Zeros(|r|) <==> r == Zeros(|r|)
  {
    RunZeros(g, |r|, n);
    if Run(g, r, Zeros(n)) == Zeros(|r|) {
      RunInjective(g, r, Zeros(|r|), Zeros(n));
    }
  }

  lemma RunFullWidth(g: Bits, r: Bits, m: Bits)
    requires 0 < |r| == |m| && |r| + 1 == |g|
    ensures Run(g, r, m) == Run(g, Xor(r, m), Zeros(|m|))
  {
    hide Run, Xor;
    RunPreload(g, r, m);
    assert m + Zeros(|r| - |m|) == m;
  }

  /** A register is cleared exactly by its own contents. */
  lemma RunToZero(g: Bits, r: Bits, m: Bits)
    requires IsGenerator(g) && |r| + 1 == |g| && |m| == |r|
    ensures Run(g, r, m) == Zeros(|r|) <==> r == m
  {
    hide Run, Xor;
    RunFullWidth(g, r, m);
    RunOfZero(g, Xor(r, m), |m|);
    XorIsZero(r, m);
  }

  // Which differences two messages can have without the register telling

  /** Two messages leave the same register exactly when their difference, run
      from zero, leaves zero. */
  lemma RunsAgree(g: Bits, r: Bits, a: Bits, b: Bits)
    requires |r| > 0 && |r| + 1 == |g| && |a| == |b|
    ensures Run(g, r, a) == Run(g, r, b) <==> Run(g, Zeros(|r|), Xor(a, b)) == Zeros(|r|)
  {
    RunLinear(g, r, r, a, b);
    XorZeros(r);
    XorIsZero(Run(g, r, a), Run(g, r, b));
  }

  lemma MultipleIffSplit(g: Bits, top: Bits, low: Bits)
    requires IsGenerator(g) && |low| + 1 == |g|
    ensures IsMultiple(top + low, g) <==> Run(g, Zeros(|low|), top) == low
  {
    var k := |low|;
    var rem, q := Run(g, Zeros(k), top), Quotient(g, Zeros(k), top);
    RunDivides(g, Zeros(k), top);
    var d := top + Zeros(k);
    assert Dividend(Zeros(k), top) == d by { XorZeros(d); }
    if rem == low {
      assert Mul(q, g) == top + low by {
        XorTwice(Mul(q, g), Zeros(|q|) + low);
        XorCommutes(Mul(q, g), Zeros(|q|) + low);
        XorConcat(Zeros(|q|), low, top, Zeros(k));
        XorZeros(top);
        XorZeros(low);
      }
    }
    if IsMultiple(top + low, g) {
      var p: Bits :| |p| == |top| && Mul(p, g) == top + low;
      assert d == Xor(Mul(p, g), Zeros(|p|) + low) by {
        XorConcat(top, low, Zeros(|p|), low);
        XorZeros(top);
        XorZeros(low);
      }
      DivisionUnique(d, g, q, rem, p, low);
    }
  }

  lemma ZeroIffSplit(g: Bits, top: Bits, low: Bits)
    requires IsGenerator(g) && |low| + 1 == |g|
    ensures Run(g, Zeros(|low|), top + low) == Zeros(|low|) <==> IsMultiple(top + low, g)
  {
    hide Run, Mul;
    var s := Run(g, Zeros(|low|), top);
    RunConcat(g, Zeros(|low|), top, low);
    RunToZero(g, s, low);
    MultipleIffSplit(g, top, low);
  }

  /** From a zero register, a message at least as long as the register leaves
      zero exactly when it is a multiple of the generator. */
  lemma ZeroIffMultiple(g: Bits, m: Bits)
    requires IsGenerator(g) && |m| + 1 >= |g|
    ensures Run(g, Zeros(|g| - 1), m) == Zeros(|g| - 1) <==> IsMultiple(m, g)
  {
    var top, low := Split(m, |m| + 1 - |g|);
    ZeroIffSplit(g, top, low);
  }

  lemma Split(m: Bits, n: nat) returns (top: Bits, low: Bits)
    requires n <= |m|
    ensures m == top + low && |top| == n && |low| == |m| - n
  {
    top, low := m[..n], m[n..];
  }

  /** Equal-length messages collide exactly when the generator divides their difference. */
  lemma CollisionIffMultiple(g: Bits, r: Bits, a: Bits, b: Bits)
    requires IsGenerator(g) && |r| + 1 == |g| && |r| <= |a| == |b|
    ensures Run(g, r, a) == Run(g, r, b) <==> IsMultiple(Xor(a, b), g)
  {
    RunsAgree(g, r, a, b);
    ZeroIffMultiple(g, Xor(a, b));
  }

  /** a and b agree outside the positions from i up to j. */
  predicate DifferWithin(a: Bits, b: Bits, i: nat, j: nat)
    requires |a| == |b|
  {
    i <= j <= |a| && a[..i] == b[..i] && a[j..] == b[j..]
  }

  lemma XorWithin(a: Bits, b: Bits, i: nat, j: nat)
    requires |a| == |b| && DifferWithin(a, b, i, j)
    ensures Xor(a, b) == Zeros(i) + (Xor(a[i..j], b[i..j]) + Zeros(|a| - j))
  {
    assert a == a[..i] + (a[i..j] + a[j..]) && b == b[..i] + (b[i..j] + b[j..]);
    XorConcat(a[..i], a[i..j] + a[j..], b[..i], b[i..j] + b[j..]);
    XorConcat(a[i..j], a[j..], b[i..j], b[j..]);
    XorZeros(a[..i]);
    XorZeros(a[j..]);
  }

  lemma WithinEqual(a: Bits, b: Bits, i: nat, j: nat)
    requires |a| == |b| && DifferWithin(a, b, i, j)
    ensures a == b <==> Xor(a[i..j], b[i..j]) == Zeros(j - i)
  {
    XorIsZero(a[i..j], b[i..j]);
    assert a == a[..i] + a[i..j] + a[j..] && b == b[..i] + b[i..j] + b[j..];
  }

  lemma PaddedZero(e: Bits, n: nat)
    ensures e + Zeros(n) == Zeros(|e| + n) <==> e == Zeros(|e|)
  {
    assert Zeros(|e|) + Zeros(n) == Zeros(|e| + n);
    assert (e + Zeros(n))[..|e|] == e && Zeros(|e| + n)[..|e|] == Zeros(|e|);
  }

  lemma PreloadZero(g: Bits, k: nat, e: Bits)
    requires 0 < k && |g| == k + 1 && |e| <= k
    ensures Run(g, Zeros(k), e) == Run(g, e + Zeros(k - |e|), Zeros(|e|))
  {
    RunPreload(g, Zeros(k), e);
    XorZeros(e + Zeros(k - |e|));
  }

  lemma ShortNonZero(g: Bits, k: nat, e: Bits)
    requires IsGenerator(g) && |g| == k + 1 && |e| <= k
    ensures Run(g, Zeros(k), e) == Zeros(k) <==> e == Zeros(|e|)
  {
    PreloadZero(g, k, e);
    RunOfZero(g, e + Zeros(k - |e|), |e|);
    PaddedZero(e, k - |e|);
  }

  /** A difference confined to one burst no longer than the register is seen. */
  lemma BurstDetected(g: Bits, r: Bits, a: Bits, b: Bits, i: nat, j: nat)
    requires IsGenerator(g) && |r| + 1 == |g| && |a| == |b|
    requires DifferWithin(a, b, i, j) && j - i <= |r|
    requires a != b
    ensures Run(g, r, a) != Run(g, r, b)
  {
    var k, e, rest := |r|, Xor(a[i..j], b[i..j]), Zeros(|a| - j);
    XorWithin(a, b, i, j);
    RunsAgree(g, r, a, b);
    RunConcat(g, Zeros(k), Zeros(i), e + rest);
    RunZeros(g, k, i);
    RunConcat(g, Zeros(k), e, rest);
    RunOfZero(g, Run(g, Zeros(k), e), |a| - j);
    ShortNonZero(g, k, e);
    WithinEqual(a, b, i, j);
  }

  // Parity

  lemma {:induction false} ParityXor(a: Bits, b: Bits)
    requires |a| == |b|
    ensures Parity(Xor(a, b)) == (Parity(a) != Parity(b))
  {
    if a == [] {
    } else {
      assert Xor(a, b)[1..] == Xor(a[1..], b[1..]);
      ParityXor(a[1..], b[1..]);
    }
  }

  lemma {:induction false} ParityConcat(a: Bits, b: Bits)
    ensures Parity(a + b) == (Parity(a) != Parity(b))
  {
    if a == [] {
      assert a + b == b;
    } else {
      assert (a + b)[1..] == a[1..] + b;
      ParityConcat(a[1..], b);
    }
  }

  lemma {:induction false} ParityZeros(n: nat)
    ensures !Parity(Zeros(n))
  {
    if n > 0 {
      ZerosCons(n - 1, []);
      ParityZeros(n - 1);
    }
  }

  lemma ParityMonomial(n: nat, e: nat)
    requires e <= n
    ensures Parity(Poly(n, {e}))
  {
    assert Poly(n, {e}) == Zeros(n - e) + ([true] + Zeros(e));
    ParityConcat(Zeros(n - e), [true] + Zeros(e));
    ParityZeros(n - e);
    ParityZeros(e);
    assert ([true] + Zeros(e))[1..] == Zeros(e);
  }

  lemma ParityFourTerms(n: nat, a: nat, b: nat, c: nat, d: nat)
    requires d < c < b < a <= n
    ensures !Parity(Poly(n, {a, b, c, d}))
  {
    var p, q := Xor(Poly(n, {a}), Poly(n, {b})), Xor(Poly(n, {c}), Poly(n, {d}));
    assert Poly(n, {a, b, c, d}) == Xor(p, q);
    ParityMonomial(n, a);
    ParityMonomial(n, b);
    ParityMonomial(n, c);
    ParityMonomial(n, d);
    ParityXor(Poly(n, {a}), Poly(n, {b}));
    ParityXor(Poly(n, {c}), Poly(n, {d}));
    ParityXor(p, q);
  }

  /** A generator with an even number of terms keeps the parity of everything
      the register has consumed. */
  lemma {:induction false} RunParity(g: Bits, r: Bits, m: Bits)
    requires IsGenerator(g) && !Parity(g) && |r| + 1 == |g|
    ensures Parity(Run(g, r, m)) == (Parity(r) != Parity(m))
    decreases |m|
  {
    if m != [] {
      var r' := Step(g, r, m[0]);
      ParityConcat(r[1..], [false]);
      assert Parity([false]) == false;
      ParityXor(r[1..] + [false], g[1..]);
      RunParity(g, r', m[1..]);
    }
  }

  /** Such a generator sees every difference in an odd number of bits. */
  lemma OddDetected(g: Bits, r: Bits, a: Bits, b: Bits)
    requires IsGenerator(g) && !Parity(g) && |r| + 1 == |g| && |a| == |b|
    requires Parity(Xor(a, b))
    ensures Run(g, r, a) != Run(g, r, b)
  {
    RunParity(g, r, a);
    RunParity(g, r, b);
    ParityXor(a, b);
  }
}
