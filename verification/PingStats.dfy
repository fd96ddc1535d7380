/**
 The round-trip statistics of src/send_icmp_echo.c: counters, extremes and
 Welford's running mean and sum of squared deviations, over exact reals.
 */
module PingStats {
  const UINT64: nat := 0x1_0000_0000_0000_0000

  type byte = x: int | 0 <= x < 0x100
  type uint64 = x: int | 0 <= x < UINT64

  // Batch definitions

  function Sum(xs: seq<uint64>): nat {
    if xs == [] then 0 else Sum(xs[..|xs| - 1]) + xs[|xs| - 1]
  }

  function SumOfSquares(xs: seq<uint64>): real {
    if xs == [] then 0.0 else SumOfSquares(xs[..|xs| - 1]) + Square(xs[|xs| - 1] as real)
  }

  function Average(xs: seq<uint64>): real
    requires xs != []
  {
    Sum(xs) as real / |xs| as real
  }

  /** Sum of (x - m)^2. */
  function SquaredDeviations(xs: seq<uint64>, m: real): real {
    if xs == [] then 0.0
    else SquaredDeviations(xs[..|xs| - 1], m) + Square(xs[|xs| - 1] as real - m)
  }

  function Square(x: real): real {
    x * x
  }

  predicate IsMinimum(m: uint64, xs: seq<uint64>) {
    m in xs && forall i | 0 <= i < |xs| :: m <= xs[i]
  }

  predicate IsMaximum(m: uint64, xs: seq<uint64>) {
    m in xs && forall i | 0 <= i < |xs| :: xs[i] <= m
  }

  // The program's running values

  datatype Running = Running(c: nat, mean: real, m2: real)

  function Update(r: Running, rtt: uint64): Running {
    var x := rtt as real;
    var c := r.c + 1;
    var mean := r.mean + (x - r.mean) / c as real;
    Running(c, mean, r.m2 + (x - r.mean) * (x - mean))
  }

  function Updates(xs: seq<uint64>): Running {
    if xs == [] then Running(0, 0.0, 0.0) else Update(Updates(xs[..|xs| - 1]), xs[|xs| - 1])
  }

  /** min_rtt, where 0 stands for no value yet. */
  function LeastSoFar(xs: seq<uint64>): uint64 {
    if xs == [] then 0
    else
      var m, x := LeastSoFar(xs[..|xs| - 1]), xs[|xs| - 1];
      if m == 0 || x < m then x else m
  }

  function GreatestSoFar(xs: seq<uint64>): uint64 {
    if xs == [] then 0
    else
      var m, x := GreatestSoFar(xs[..|xs| - 1]), xs[|xs| - 1];
      if x > m then x else m
  }

  /** What one round of the loop in ping sees: a packet with its ICMP type and
      code and the times of sending and receiving, or none. */
  datatype Outcome =
    | Packet(kind: byte, code: byte, start: uint64, end: uint64)
    | Timeout
    | Error
    | BadPacket

  /** end - start in 64 bits: what brings start to end. */
  function Rtt(start: uint64, end: uint64): (r: uint64)
    ensures start <= end ==> start + r == end
    ensures (start + r) % UINT64 == end
  {
    if end >= start then end - start else end - start + UINT64
  }

  function Wrap(n: nat): uint64 {
    n % UINT64
  }

  predicate IsEchoReply(o: Outcome) {
    o.Packet? && o.kind == 0 && o.code == 0
  }

  /** The round trips that count: those of echo replies. */
  function Rtts(outcomes: seq<Outcome>): seq<uint64> {
    if outcomes == [] then []
    else
      var rest, last := Rtts(outcomes[..|outcomes| - 1]), outcomes[|outcomes| - 1];
      if IsEchoReply(last) then rest + [Rtt(last.start, last.end)] else rest
  }

  function Packets(outcomes: seq<Outcome>): nat {
    if outcomes == [] then 0
    else
      var rest, last := Packets(outcomes[..|outcomes| - 1]), outcomes[|outcomes| - 1];
      if last.Packet? then rest + 1 else rest
  }

  class Statistics {
    var sent: nat
    var recv: nat
    var lost: nat
    var minRtt: uint64
    var maxRtt: uint64
    var totalRtt: uint64
    var c: nat
    var mean: real
    var m2: real

    constructor ()
      ensures sent == recv == lost == c == 0 && minRtt == maxRtt == totalRtt == 0 && mean == m2 == 0.0
      ensures Reflects([])
    {
      sent, recv, lost, c := 0, 0, 0, 0;
      minRtt, maxRtt, totalRtt := 0, 0, 0;
      mean, m2 := 0.0, 0.0;
    }

    /** The statistics are those of these round trips. */
    ghost predicate Reflects(xs: seq<uint64>)
      reads this
    {
      && Running(c, mean, m2) == Updates(xs)
      && minRtt == LeastSoFar(xs) && maxRtt == GreatestSoFar(xs) && totalRtt == Wrap(Sum(xs))
    }

    method UpdateRttStats(rtt: uint64)
      modifies `c, `mean, `m2
      ensures Running(c, mean, m2) == Update(old(Running(c, mean, m2)), rtt) && c == old(c) + 1
    {
      var x := rtt as real;
      var d1 := x - mean;
      c := c + 1;
      mean := mean + 1.0 * d1 / c as real;
      var d2 := x - mean;
      m2 := m2 + d1 * d2;
    }

    method RttStats(rtt: uint64, ghost xs: seq<uint64>)
      requires Reflects(xs)
      modifies `c, `mean, `m2, `minRtt, `maxRtt, `totalRtt
      ensures Reflects(xs + [rtt]) && c == old(c) + 1
    {
      hide Wrap, Update, Updates, LeastSoFar, GreatestSoFar, Sum;
      OneMoreRtt(xs, rtt);
      if minRtt == 0 {
        minRtt := rtt;
      }
      WrappedSum(Sum(xs), rtt);
      totalRtt := Wrap(totalRtt + rtt);
      minRtt := if rtt < minRtt then rtt else minRtt;
      maxRtt := if rtt > maxRtt then rtt else maxRtt;
      UpdateRttStats(rtt);
    }

    /** The loop of ping: one request a round, whatever comes of it. */
    method Ping(n: int, outcomes: seq<Outcome>)
      requires |outcomes| == if n < 0 then 0 else n
      requires sent == recv == lost == 0 && Reflects([])
      modifies this
      ensures sent == |outcomes|
      ensures recv == Packets(outcomes) == c + lost <= sent
      ensures Reflects(Rtts(outcomes))
      ensures |outcomes| == 1 && outcomes[0].Packet? ==>
        var o := outcomes[0];
        o.kind == 0 && o.code == 0 && o.start <= o.end ==>
          minRtt == maxRtt == o.end - o.start && mean == (o.end - o.start) as real
    {
      assert c == 0;
      assert Packets(outcomes[..0]) == 0 && Rtts(outcomes[..0]) == [];
      hide Wrap, Updates, LeastSoFar, GreatestSoFar, Sum, Packets, Rtts, Rtt;
      var i := 0;
      while i < n
        invariant 0 <= i <= |outcomes| && (n >= 0 ==> i <= n)
        invariant sent == i && recv == Packets(outcomes[..i]) == c + lost <= sent
        invariant Reflects(Rtts(outcomes[..i]))
      {
        sent := sent + 1;
        OneMoreRound(outcomes, i);
        match outcomes[i] {
          case Packet(kind, code, start, end) =>
            recv := recv + 1;
            if kind == 0 && code == 0 {
              RttStats(Rtt(start, end), Rtts(outcomes[..i]));
            } else {
              lost := lost + 1;
            }
          case _ =>
        }
        i := i + 1;
      }
      assert outcomes[..i] == outcomes;
      SingleReply(outcomes);
    }

    lemma SingleReply(outcomes: seq<Outcome>)
      requires Reflects(Rtts(outcomes))
      ensures |outcomes| == 1 && outcomes[0].Packet? ==>
        var o := outcomes[0];
        o.kind == 0 && o.code == 0 && o.start <= o.end ==>
          minRtt == maxRtt == o.end - o.start && mean == (o.end - o.start) as real
    {
      if |outcomes| == 1 && IsEchoReply(outcomes[0]) && outcomes[0].start <= outcomes[0].end {
        OneReply(outcomes[0].start, outcomes[0].end);
        assert outcomes == [Packet(0, 0, outcomes[0].start, outcomes[0].end)];
      }
    }

    /** avg_rtt in print_stats: the mean truncated to an integer. */
    method AverageRtt(ghost xs: seq<uint64>) returns (avg: nat)
      requires Reflects(xs)
      ensures avg == if xs == [] then 0 else Sum(xs) / |xs|
    {
      if xs != [] {
        WelfordIsBatch(xs);
        FloorOfQuotient(Sum(xs), |xs|);
      }
      avg := mean.Floor;
    }
  }

  lemma OneMoreRound(outcomes: seq<Outcome>, i: nat)
    requires i < |outcomes|
    ensures Packets(outcomes[..i + 1])
         == Packets(outcomes[..i]) + if outcomes[i].Packet? then 1 else 0
    ensures var before := Rtts(outcomes[..i]);
      Rtts(outcomes[..i + 1])
      == if IsEchoReply(outcomes[i]) then before + [Rtt(outcomes[i].start, outcomes[i].end)] else before
  {
    assert outcomes[..i + 1][..i] == outcomes[..i];
  }

  /** Rounds are counted one after the other. */
  lemma {:induction false} RoundsConcat(a: seq<Outcome>, b: seq<Outcome>)
    ensures Rtts(a + b) == Rtts(a) + Rtts(b) && Packets(a + b) == Packets(a) + Packets(b)
    decreases |b|
  {
    if b == [] {
      assert a + b == a;
    } else {
      var last := |b| - 1;
      RoundsConcat(a, b[..last]);
      assert (a + b)[..|a + b| - 1] == a + b[..last];
    }
  }

  /** What one round adds: an echo reply the time from sending to receiving it;
      any other packet counts as received only; without a packet nothing. */
  lemma OneRound(o: Outcome)
    ensures o.Packet? && o.kind == 0 && o.code == 0 && o.start <= o.end ==> Rtts([o]) == [o.end - o.start]
    ensures o.Packet? && o.kind == 0 && o.code == 0 ==>
      |Rtts([o])| == 1 && (o.start + Rtts([o])[0]) % 0x1_0000_0000_0000_0000 == o.end
    ensures !o.Packet? || o.kind != 0 || o.code != 0 ==> Rtts([o]) == []
    ensures Packets([o]) == if o.Packet? then 1 else 0
  {
    assert [o][..0] == [];
  }

  /** After a single reply, minimum, maximum and mean are the time it took. */
  lemma OneReply(start: uint64, end: uint64)
    requires start <= end
    ensures var xs := Rtts([Packet(0, 0, start, end)]);
      && LeastSoFar(xs) == GreatestSoFar(xs) == Sum(xs) == end - start
      && Updates(xs) == Running(1, (end - start) as real, 0.0)
  {
    var x: uint64 := end - start;
    OneRound(Packet(0, 0, start, end));
    hide Rtts;
    assert [x][..0] == [];
    assert LeastSoFar([]) == GreatestSoFar([]) == Sum([]) == 0 && Updates([]) == Running(0, 0.0, 0.0);
  }

  lemma OneMoreRtt(xs: seq<uint64>, rtt: uint64)
    ensures Updates(xs + [rtt]) == Update(Updates(xs), rtt) && Sum(xs + [rtt]) == Sum(xs) + rtt
    ensures LeastSoFar(xs + [rtt]) == if LeastSoFar(xs) == 0 || rtt < LeastSoFar(xs) then rtt else LeastSoFar(xs)
    ensures GreatestSoFar(xs + [rtt]) == if rtt > GreatestSoFar(xs) then rtt else GreatestSoFar(xs)
  {
    hide Update;
    assert (xs + [rtt])[..|xs|] == xs;
  }

  lemma WrappedSum(sum: nat, rtt: uint64)
    ensures Wrap(Wrap(sum) + rtt) == Wrap(sum + rtt)
  {
  }

  lemma FloorOfQuotient(a: nat, n: nat)
    requires n > 0
    ensures (a as real / n as real).Floor == a / n
  {
    var q, r := a / n, a % n;
    assert a == n * q + r;
    assert a as real == n as real * q as real + r as real;
    assert (a as real / n as real) == q as real + r as real / n as real;
    assert 0.0 <= r as real / n as real < 1.0;
  }

  // Welford's method

  /** The sum of squared deviations from m of n values with this sum and this
      sum of squares. */
  function Expanded(squares: real, sum: real, n: real, m: real): real {
    squares - 2.0 * (m * sum) + n * (m * m)
  }

  lemma ExpandStep(squares: real, sum: real, n: real, m: real, x: real)
    ensures Expanded(squares + Square(x), sum + x, n + 1.0, m) == Expanded(squares, sum, n, m) + Square(x - m)
  {
    assert Square(x - m) == x * x - 2.0 * (m * x) + m * m;
    assert m * (sum + x) == m * sum + m * x;
    assert (n + 1.0) * (m * m) == n * (m * m) + m * m;
  }

  lemma {:induction false} ExpandDeviations(xs: seq<uint64>, m: real)
    ensures SquaredDeviations(xs, m) == Expanded(SumOfSquares(xs), Sum(xs) as real, |xs| as real, m)
  {
    if xs == [] {
      assert m * 0.0 == 0.0 && 0.0 * (m * m) == 0.0;
    } else {
      hide Square, Expanded;
      var front, x := xs[..|xs| - 1], xs[|xs| - 1];
      ExpandDeviations(front, m);
      ExpandStep(SumOfSquares(front), Sum(front) as real, |front| as real, m, x as real);
    }
  }

  lemma MeanStep(n: real, mean: real, x: real)
    requires n + 1.0 > 0.0
    ensures (n + 1.0) * (mean + (x - mean) / (n + 1.0)) == n * mean + x
  {
    assert (n + 1.0) * ((x - mean) / (n + 1.0)) == x - mean;
  }

  /** (x - mean) * (x - mean') is what the squares about the mean grow by. */
  lemma DeviationStep(n: real, mean: real, x: real, next: real)
    requires (n + 1.0) * next == n * mean + x
    ensures (x - mean) * (x - next) == n * Square(mean) + Square(x) - (n + 1.0) * Square(next)
  {
    assert (n + 1.0) * (next * next) == ((n + 1.0) * next) * next == n * mean * next + x * next;
    assert mean * ((n + 1.0) * next) == mean * (n * mean + x);
    assert (x - mean) * (x - next) == x * x - x * next - mean * x + mean * next;
  }

  /** r holds the count, mean and squares about the mean of n values with this
      sum and sum of squares. */
  predicate Describes(r: Running, n: nat, sum: real, squares: real) {
    r.c == n && n as real * r.mean == sum && r.m2 == squares - n as real * Square(r.mean)
  }

  lemma WelfordStep(r: Running, sum: real, squares: real, rtt: uint64)
    requires Describes(r, r.c, sum, squares)
    ensures Describes(Update(r, rtt), r.c + 1, sum + rtt as real, squares + Square(rtt as real))
  {
    hide Square;
    var n, x, next := r.c as real, rtt as real, Update(r, rtt).mean;
    MeanStep(n, r.mean, x);
    DeviationStep(n, r.mean, x, next);
  }

  lemma {:induction false} WelfordInvariant(xs: seq<uint64>)
    ensures Describes(Updates(xs), |xs|, Sum(xs) as real, SumOfSquares(xs))
  {
    if xs == [] {
      assert 0.0 * Square(0.0) == 0.0;
    } else {
      var front := xs[..|xs| - 1];
      WelfordInvariant(front);
      assert Updates(front).c == |front|;
      hide Describes, Square, Update;
      WelfordStep(Updates(front), Sum(front) as real, SumOfSquares(front), xs[|xs| - 1]);
    }
  }

  lemma MeanOf(n: real, mean: real, sum: real)
    requires n > 0.0 && n * mean == sum
    ensures mean == sum / n
  {
  }

  lemma AtTheMean(squares: real, sum: real, n: real, mean: real)
    requires n * mean == sum
    ensures Expanded(squares, sum, n, mean) == squares - n * Square(mean)
  {
    assert mean * sum == n * (mean * mean);
  }

  /** Welford's method is exact: the count, the average, and the sum of squared
      deviations from it. */
  lemma WelfordIsBatch(xs: seq<uint64>)
    requires xs != []
    ensures Updates(xs).c == |xs| && Updates(xs).mean == Average(xs)
    ensures Updates(xs).m2 == SquaredDeviations(xs, Average(xs))
  {
    hide Square, Expanded, Update;
    var n, mean := |xs| as real, Updates(xs).mean;
    WelfordInvariant(xs);
    MeanOf(n, mean, Sum(xs) as real);
    ExpandDeviations(xs, mean);
    AtTheMean(SumOfSquares(xs), Sum(xs) as real, n, mean);
  }

  lemma {:induction false} DeviationsNotNegative(xs: seq<uint64>, m: real)
    ensures SquaredDeviations(xs, m) >= 0.0
  {
    if xs != [] {
      DeviationsNotNegative(xs[..|xs| - 1], m);
      assert Square(xs[|xs| - 1] as real - m) >= 0.0;
    }
  }

  /** m2, and so the sample variance m2 / (c - 1), is never negative. */
  lemma VarianceNotNegative(xs: seq<uint64>)
    ensures Updates(xs).m2 >= 0.0
    ensures Updates(xs).c >= 2 ==> Updates(xs).m2 / (Updates(xs).c - 1) as real >= 0.0
  {
    if xs != [] {
      WelfordIsBatch(xs);
      DeviationsNotNegative(xs, Average(xs));
    }
  }

  // Order does not matter

  function Without(xs: seq<uint64>, i: nat): (ys: seq<uint64>)
    requires i < |xs|
    ensures |ys| == |xs| - 1
  {
    xs[..i] + xs[i + 1..]
  }

  lemma {:induction false} SumWithout(xs: seq<uint64>, i: nat)
    requires i < |xs|
    ensures Sum(xs) == Sum(Without(xs, i)) + xs[i]
    ensures SumOfSquares(xs) == SumOfSquares(Without(xs, i)) + Square(xs[i] as real)
    decreases |xs|
  {
    hide Square;
    var last := |xs| - 1;
    if i == last {
      assert Without(xs, i) == xs[..last];
    } else {
      SumWithout(xs[..last], i);
      assert Without(xs, i)[..last - 1] == Without(xs[..last], i);
      assert Without(xs, i)[last - 1] == xs[last];
    }
  }

  lemma {:induction false} SameSums(xs: seq<uint64>, ys: seq<uint64>)
    requires multiset(xs) == multiset(ys)
    ensures |xs| == |ys| && Sum(xs) == Sum(ys) && SumOfSquares(xs) == SumOfSquares(ys)
    decreases |xs|
  {
    if xs == [] {
      assert |multiset(ys)| == 0;
    } else {
      var last := |xs| - 1;
      assert xs[last] in multiset(ys);
      var i :| 0 <= i < |ys| && ys[i] == xs[last];
      assert Without(xs, last) == xs[..last];
      hide Without, Square;
      SumWithout(ys, i);
      Removed(xs, last);
      Removed(ys, i);
      SameSums(xs[..last], Without(ys, i));
    }
  }

  lemma Removed(xs: seq<uint64>, i: nat)
    requires i < |xs|
    ensures multiset(Without(xs, i)) == multiset(xs) - multiset{xs[i]}
  {
    assert xs == xs[..i] + [xs[i]] + xs[i + 1..];
  }

  /** Whatever the order of the round trips, count, mean and m2 come out the same. */
  lemma OrderDoesNotMatter(xs: seq<uint64>, ys: seq<uint64>)
    requires multiset(xs) == multiset(ys)
    ensures Updates(xs) == Updates(ys)
  {
    SameSums(xs, ys);
    if xs != [] {
      WelfordInvariant(xs);
      WelfordInvariant(ys);
      hide Describes, Square, Update, Updates;
      SameRunning(Updates(xs), Updates(ys), |xs|, Sum(xs) as real, SumOfSquares(xs));
    }
  }

  lemma SameRunning(r: Running, q: Running, n: nat, sum: real, squares: real)
    requires n > 0 && Describes(r, n, sum, squares) && Describes(q, n, sum, squares)
    ensures r == q
  {
    hide Square;
    MeanOf(n as real, r.mean, sum);
    MeanOf(n as real, q.mean, sum);
  }

  // Extremes

  lemma {:induction false} GreatestIsMaximum(xs: seq<uint64>)
    ensures if xs == [] then GreatestSoFar(xs) == 0 else IsMaximum(GreatestSoFar(xs), xs)
  {
    if |xs| > 0 {
      GreatestIsMaximum(xs[..|xs| - 1]);
    }
  }

  /** min_rtt is the least of the round trips after the last one of 0; if that
      is the last of all, it is 0. */
  lemma {:induction false} LeastAfterZero(xs: seq<uint64>, zeros: seq<uint64>)
    requires (forall i | 0 <= i < |xs| :: xs[i] > 0) && (zeros == [] || zeros[|zeros| - 1] == 0)
    ensures if xs == [] then LeastSoFar(zeros + xs) == 0 else IsMinimum(LeastSoFar(zeros + xs), xs)
    decreases |xs|
  {
    if xs == [] {
      assert zeros + xs == zeros;
    } else {
      var front := xs[..|xs| - 1];
      assert (zeros + xs)[..|zeros + xs| - 1] == zeros + front;
      LeastAfterZero(front, zeros);
    }
  }

  function AfterLastZero(xs: seq<uint64>): nat {
    if xs == [] || xs[|xs| - 1] == 0 then |xs| else AfterLastZero(xs[..|xs| - 1])
  }

  lemma {:induction false} SplitAtLastZero(xs: seq<uint64>)
    ensures var k := AfterLastZero(xs);
      k <= |xs| && (k > 0 ==> xs[k - 1] == 0) && forall i | k <= i < |xs| :: xs[i] > 0
  {
    if xs != [] && xs[|xs| - 1] != 0 {
      SplitAtLastZero(xs[..|xs| - 1]);
    }
  }

  /** min_rtt is the true minimum exactly if no round trip took 0 microseconds or
      the last one did. */
  lemma {:induction false} MinimumExactly(xs: seq<uint64>)
    requires xs != []
    ensures IsMinimum(LeastSoFar(xs), xs) <==> 0 !in xs || xs[|xs| - 1] == 0
  {
    var k := AfterLastZero(xs);
    SplitAtLastZero(xs);
    assert xs == xs[..k] + xs[k..];
    LeastAfterZero(xs[k..], xs[..k]);
    if k == 0 {
      assert xs[k..] == xs;
    } else if k < |xs| {
      assert xs[k - 1] == 0;
      assert LeastSoFar(xs) > 0;
    }
  }

  /** After round trips of 0 and 5 microseconds min_rtt is 5. */
  lemma ZeroIsForgotten()
    ensures LeastSoFar([0, 5]) == 5 && !IsMinimum(5, [0, 5])
  {
    assert [0, 5][..1] == [0] && [0][..0] == [];
    assert LeastSoFar([0]) == 0;
  }

  // The printed average

  lemma {:induction false} SumWithin(xs: seq<uint64>, lo: nat, hi: nat)
    requires forall i | 0 <= i < |xs| :: lo <= xs[i] <= hi
    ensures |xs| * lo <= Sum(xs) <= |xs| * hi
  {
    if xs != [] {
      SumWithin(xs[..|xs| - 1], lo, hi);
      OneMore(|xs| - 1, lo);
      OneMore(|xs| - 1, hi);
    }
  }

  lemma OneMore(n: nat, x: nat)
    ensures (n + 1) * x == n * x + x
  {
  }

  /** With positive round trips the truncated average lies between min_rtt and
      max_rtt. */
  lemma AverageWithin(xs: seq<uint64>)
    requires xs != [] && 0 !in xs
    ensures LeastSoFar(xs) <= Updates(xs).mean.Floor == Sum(xs) / |xs| <= GreatestSoFar(xs)
  {
    MinimumExactly(xs);
    GreatestIsMaximum(xs);
    SumWithin(xs, LeastSoFar(xs), GreatestSoFar(xs));
    WelfordIsBatch(xs);
    FloorOfQuotient(Sum(xs), |xs|);
    QuotientWithin(Sum(xs), |xs|, LeastSoFar(xs), GreatestSoFar(xs));
  }

  lemma QuotientWithin(sum: nat, n: nat, lo: nat, hi: nat)
    requires n > 0 && n * lo <= sum <= n * hi
    ensures lo <= sum / n <= hi
  {
    var q := sum / n;
    assert sum == n * q + sum % n;
    assert n * (q + 1) == n * q + n && n * (hi + 1) == n * hi + n;
    Cancel(n, lo, q + 1);
    Cancel(n, q, hi + 1);
  }

  lemma Cancel(n: int, a: int, b: int)
    requires n > 0 && n * a < n * b
    ensures a < b
  {
    assert n * (b - a) == n * b - n * a;
  }

  /** The mean gives the same average as total_rtt divided by the count, which
      print_stats used before, exactly while total_rtt has not wrapped. */
  lemma TotalAgreesExactly(xs: seq<uint64>)
    requires 0 < |xs| <= UINT64
    ensures Updates(xs).mean.Floor == Wrap(Sum(xs)) / |xs| <==> Sum(xs) < UINT64
  {
    WelfordIsBatch(xs);
    FloorOfQuotient(Sum(xs), |xs|);
    WrapKeeps(Sum(xs));
    hide Wrap, Sum, Updates;
    if Sum(xs) >= UINT64 {
      WrapLoses(Sum(xs));
      WrappedQuotient(Sum(xs), Wrap(Sum(xs)), |xs|);
    }
  }

  lemma WrapKeeps(sum: nat)
    ensures sum < UINT64 ==> Wrap(sum) == sum
  {
  }

  lemma WrapLoses(sum: nat)
    requires sum >= UINT64
    ensures Wrap(sum) + UINT64 <= sum
  {
  }

  lemma WrappedQuotient(sum: nat, wrapped: nat, n: nat)
    requires 0 < n && wrapped + n <= sum
    ensures wrapped / n < sum / n
  {
    assert (wrapped + n) / n == wrapped / n + 1 by {
      QuotientOfSum(wrapped, n);
    }
    Monotone(wrapped + n, sum, n);
  }

  lemma QuotientOfSum(a: nat, n: nat)
    requires n > 0
    ensures (a + n) / n == a / n + 1
  {
    var q, r := (a + n) / n, (a + n) % n;
    assert a + n == n * q + r;
    assert a == n * (a / n) + a % n;
    assert n * (a / n + 1) == n * (a / n) + n;
    assert n * (a / n + 2) == n * (a / n) + 2 * n;
    assert n * (q + 1) == n * q + n;
    Cancel(n, a / n, q);
    Cancel(n, q, a / n + 2);
  }

  lemma Monotone(a: nat, b: nat, n: nat)
    requires n > 0 && a <= b
    ensures a / n <= b / n
  {
    assert a == n * (a / n) + a % n && b == n * (b / n) + b % n;
    assert n * (b / n + 1) == n * (b / n) + n;
    Cancel(n, a / n, b / n + 1);
  }
}
