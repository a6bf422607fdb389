/** Received bytes per flow and Jain's fairness index over them
    (examples/tcp/dctcp-example.cc), with 64-bit unsigned wrap-around. */
module Fairness {

  const TWO_64: nat := 0x1_0000_0000_0000_0000

  function Wrap(x: nat): (r: nat)
    ensures r < TWO_64 && (x < TWO_64 ==> r == x)
  {
    x % TWO_64
  }

  // ----- Sums -----

  ghost function Sum(xs: seq<nat>): nat {
    if xs == [] then 0 else Sum(xs[..|xs| - 1]) + xs[|xs| - 1]
  }

  ghost function SumSquares(xs: seq<nat>): nat {
    if xs == [] then 0 else SumSquares(xs[..|xs| - 1]) + Square(xs[|xs| - 1])
  }

  ghost function Square(x: int): (r: nat)
    ensures r == 0 <==> x == 0
  {
    SquareSign(x);
    x * x
  }

  lemma SquareSign(x: int)
    ensures x * x >= 0 && (x * x == 0 <==> x == 0)
  {
    if x != 0 {
      var a := if x < 0 then -x else x;
      assert a * a >= a;
      assert x * x == a * a;
    }
  }

  // ----- Sum squared against the sum of squares -----

  /** The squared distances of `xs` to `x`. */
  ghost function Distances(xs: seq<nat>, x: nat): (r: nat)
    ensures r == 0 <==> forall i | 0 <= i < |xs| :: xs[i] == x
  {
    if xs == [] then 0 else
      var front, last := xs[..|xs| - 1], xs[|xs| - 1];
      assert xs == front + [last];
      Distances(front, x) + Square(last - x)
  }

  /** The squared distances between all pairs. */
  ghost function Spread(xs: seq<nat>): (r: nat)
    ensures r == 0 <==> AllEqual(xs)
  {
    if xs == [] then 0 else
      var front, last := xs[..|xs| - 1], xs[|xs| - 1];
      assert xs == front + [last];
      Spread(front) + Distances(front, last)
  }

  ghost predicate AllEqual(xs: seq<nat>) {
    forall i, j | 0 <= i < j < |xs| :: xs[i] == xs[j]
  }

  lemma {:induction false} DistancesExpand(xs: seq<nat>, x: nat)
    ensures Distances(xs, x) == SumSquares(xs) - 2 * (x * Sum(xs)) + |xs| * Square(x)
  {
    if xs != [] {
      var front, last := xs[..|xs| - 1], xs[|xs| - 1];
      DistancesExpand(front, x);
      DistanceStep(SumSquares(front), Sum(front), |front|, x, last);
    }
  }

  lemma DistanceStep(q: nat, s: nat, n: nat, x: nat, last: nat)
    ensures (q - 2 * (x * s) + n * Square(x)) + Square(last - x)
            == q + Square(last) - 2 * (x * (s + last)) + (n + 1) * Square(x)
  {
    assert (last - x) * (last - x) == last * last - 2 * (x * last) + x * x;
    assert x * (s + last) == x * s + x * last;
    assert (n + 1) * Square(x) == n * Square(x) + Square(x);
  }

  /** Lagrange's identity. */
  lemma {:induction false} SpreadIdentity(xs: seq<nat>)
    ensures |xs| * SumSquares(xs) == Square(Sum(xs)) + Spread(xs)
  {
    if xs != [] {
      var front, last := xs[..|xs| - 1], xs[|xs| - 1];
      SpreadIdentity(front);
      DistancesExpand(front, last);
      SpreadStep(SumSquares(front), Sum(front), |front|, last);
    }
  }

  lemma SpreadStep(q: nat, s: nat, n: nat, x: nat)
    ensures (n + 1) * (q + Square(x)) == Square(s + x) + (n * q - Square(s)) + (q - 2 * (x * s) + n * Square(x))
  {
    assert (n + 1) * (q + Square(x)) == n * q + n * Square(x) + q + Square(x);
    assert (s + x) * (s + x) == s * s + 2 * (x * s) + x * x;
  }

  ghost predicate AtMostOneFlow(xs: seq<nat>) {
    forall i, j | 0 <= i < j < |xs| :: xs[i] == 0 || xs[j] == 0
  }

  lemma {:induction false} SumIsZero(xs: seq<nat>)
    ensures Sum(xs) == 0 <==> forall i | 0 <= i < |xs| :: xs[i] == 0
    ensures SumSquares(xs) == 0 <==> forall i | 0 <= i < |xs| :: xs[i] == 0
  {
    if xs != [] {
      var front, last := xs[..|xs| - 1], xs[|xs| - 1];
      SumIsZero(front);
      assert xs == front + [last];
    }
  }

  lemma {:induction false} SumSquaresBelow(xs: seq<nat>)
    ensures SumSquares(xs) <= Square(Sum(xs))
    ensures SumSquares(xs) == Square(Sum(xs)) <==> AtMostOneFlow(xs)
  {
    if xs != [] {
      var front, last := xs[..|xs| - 1], xs[|xs| - 1];
      SumSquaresBelow(front);
      SumIsZero(front);
      BinomialStep(Sum(front), last);
      assert xs == front + [last];
    }
  }

  lemma BinomialStep(s: nat, x: nat)
    ensures Square(s + x) >= Square(s) + Square(x)
    ensures Square(s + x) == Square(s) + Square(x) <==> s == 0 || x == 0
  {
    assert (s + x) * (s + x) == s * s + 2 * (s * x) + x * x;
    if s > 0 && x > 0 {
      assert s * x >= s;
    }
  }

  // ----- The index -----

  datatype Quotient = NotANumber | Infinite | Finite(value: real)

  /** Division of doubles. */
  function Divide(x: nat, y: nat): Quotient {
    if y != 0 then Finite(x as real / y as real) else if x == 0 then NotANumber else Infinite
  }

  /** Jain's index: the squared sum over the number of flows times the sum of squares. */
  ghost function Jain(xs: seq<nat>): Quotient {
    Divide(Square(Sum(xs)), |xs| * SumSquares(xs))
  }

  /** For counters that are not all zero the index lies between 1/n and 1; it is 1 exactly when
      all flows are equal, and 1/n exactly when only one flow received anything. */
  lemma JainRange(xs: seq<nat>)
    requires exists i | 0 <= i < |xs| :: xs[i] != 0
    ensures Jain(xs).Finite?
    ensures 1.0 / |xs| as real <= Jain(xs).value <= 1.0
    ensures Jain(xs).value == 1.0 <==> AllEqual(xs)
    ensures Jain(xs).value == 1.0 / |xs| as real <==> AtMostOneFlow(xs)
  {
    SumIsZero(xs);
    SpreadIdentity(xs);
    SumSquaresBelow(xs);
    assert AllEqual(xs) <==> Spread(xs) == 0;
    Ratio(Square(Sum(xs)), |xs|, SumSquares(xs));
  }

  lemma Ratio(p: nat, n: nat, q: nat)
    requires n > 0 && q > 0 && q <= p <= n * q
    ensures n * q > 0
    ensures 1.0 / n as real <= p as real / (n * q) as real <= 1.0
    ensures p as real / (n * q) as real == 1.0 <==> p == n * q
    ensures p as real / (n * q) as real == 1.0 / n as real <==> p == q
  {
    assert n * q >= q;
    var rn, rp, rq := n as real, p as real, q as real;
    assert (n * q) as real == rn * rq;
    RatioReal(rp, rn, rq, rp / (rn * rq), 1.0 / rn);
  }

  lemma RatioReal(p: real, n: real, q: real, r: real, u: real)
    requires n > 0.0 && q > 0.0 && n * q > 0.0 && q <= p <= n * q
    requires r == p / (n * q) && u == 1.0 / n
    ensures u <= r <= 1.0
    ensures r == 1.0 <==> p == n * q
    ensures r == u <==> p == q
  {
    var d := n * q;
    assert r * d == p;
    assert u * n == 1.0;
    assert u * d == (u * n) * q == q;
    Scale(u, r, d);
    Scale(r, 1.0, d);
  }

  lemma Scale(x: real, y: real, d: real)
    requires d > 0.0
    ensures x <= y <==> x * d <= y * d
    ensures x == y <==> x * d == y * d
  {
    if x < y {
      assert (y - x) * d > 0.0;
    }
    if y < x {
      assert (x - y) * d > 0.0;
    }
  }

  // ----- Wrap-around -----

  lemma {:induction false} WrapShift(x: nat, k: nat)
    ensures Wrap(x + k * TWO_64) == Wrap(x)
  {
    if k > 0 {
      WrapShift(x, k - 1);
      assert x + k * TWO_64 == (x + (k - 1) * TWO_64) + TWO_64;
    }
  }

  lemma WrapAdd(a: nat, b: nat)
    ensures Wrap(Wrap(a) + Wrap(b)) == Wrap(a + b)
  {
  }

  lemma WrapTimes(a: nat, b: nat)
    ensures Wrap(Wrap(a) * b) == Wrap(a * b)
  {
    var k := a / TWO_64;
    assert a == Wrap(a) + k * TWO_64;
    assert a * b == Wrap(a) * b + (k * b) * TWO_64;
    WrapShift(Wrap(a) * b, k * b);
  }

  lemma WrapSquare(a: nat)
    ensures Wrap(Wrap(a) * Wrap(a)) == Wrap(Square(a))
  {
    WrapTimes(a, Wrap(a));
    WrapTimes(a, a);
  }

  /** Nothing in the index wraps exactly when its denominator fits; the numerator is no larger. */
  lemma NothingWrapsIff(xs: seq<nat>)
    ensures Wrap(Square(Sum(xs))) == Square(Sum(xs)) && Wrap(|xs| * SumSquares(xs)) == |xs| * SumSquares(xs)
            <==> |xs| * SumSquares(xs) < TWO_64
  {
    SpreadIdentity(xs);
  }

  /** A bound on each counter under which nothing wraps. */
  lemma SmallCountersDoNotWrap(xs: seq<nat>, b: nat)
    requires forall i | 0 <= i < |xs| :: xs[i] <= b
    requires Square(|xs| * b) < TWO_64
    ensures |xs| * SumSquares(xs) < TWO_64
  {
    hide Square, SumSquares;
    SumSquaresBound(xs, b);
    Monotone(|xs|, SumSquares(xs), |xs| * Square(b));
    SquareOfProduct(|xs|, b);
  }

  /** Then no sum or product on the way wraps either. */
  lemma NothingWrapsOnTheWay(xs: seq<nat>, i: nat)
    requires |xs| * SumSquares(xs) < TWO_64 && i < |xs|
    ensures Sum(xs[..i + 1]) < TWO_64 && SumSquares(xs[..i + 1]) < TWO_64 && Square(xs[i]) < TWO_64
    ensures Square(Sum(xs)) < TWO_64
  {
    hide Square, Sum, SumSquares;
    SpreadIdentity(xs);
    TimesIsMore(|xs|, SumSquares(xs));
    SumsGrow(xs, i + 1);
    BelowSquare(Sum(xs));
    LastSquare(xs[..i + 1]);
  }

  lemma TimesIsMore(n: nat, x: nat)
    requires n > 0
    ensures x <= n * x
  {
  }

  lemma LastSquare(xs: seq<nat>)
    requires xs != []
    ensures Square(xs[|xs| - 1]) <= SumSquares(xs)
  {
  }

  lemma BelowSquare(x: nat)
    ensures x <= Square(x)
  {
    if x > 0 {
      Monotone(x, 1, x);
    }
  }

  lemma {:induction false} SumsGrow(xs: seq<nat>, i: nat)
    requires i <= |xs|
    ensures Sum(xs[..i]) <= Sum(xs) && SumSquares(xs[..i]) <= SumSquares(xs)
  {
    if i < |xs| {
      SumsGrow(xs[..|xs| - 1], i);
      assert xs[..|xs| - 1][..i] == xs[..i];
    } else {
      assert xs[..i] == xs;
    }
  }

  lemma SquareOfProduct(n: nat, b: nat)
    ensures n * (n * Square(b)) == Square(n * b)
  {
    assert n * (n * (b * b)) == (n * b) * (n * b);
  }

  lemma Monotone(n: nat, x: nat, y: nat)
    requires x <= y
    ensures n * x <= n * y
  {
  }

  lemma {:induction false} SumSquaresBound(xs: seq<nat>, b: nat)
    requires forall i | 0 <= i < |xs| :: xs[i] <= b
    ensures SumSquares(xs) <= |xs| * Square(b)
  {
    if xs != [] {
      var front, last := xs[..|xs| - 1], xs[|xs| - 1];
      SumSquaresBound(front, b);
      Monotone(last, last, b);
      Monotone(b, last, b);
      assert |xs| * Square(b) == |front| * Square(b) + Square(b);
    }
  }

  /** What is printed, wrap-around included. */
  ghost function Printed(xs: seq<nat>): Quotient {
    Divide(Wrap(Square(Sum(xs))), Wrap(|xs| * SumSquares(xs)))
  }

  /** The wrapped denominator is not zero, and numerator and denominator lost multiples of 2^64
      in the same proportion as what is left of them. */
  ghost predicate KeepsRatio(p: nat, d: nat) {
    Wrap(d) != 0 && (p / TWO_64) * Wrap(d) == (d / TWO_64) * Wrap(p)
  }

  /** What is printed is Jain's index exactly when the denominator fits or the ratio is kept. */
  lemma PrintedIsJainIff(xs: seq<nat>)
    ensures Printed(xs) == Jain(xs) <==>
            |xs| * SumSquares(xs) < TWO_64 || KeepsRatio(Square(Sum(xs)), |xs| * SumSquares(xs))
  {
    hide *;
    NothingWrapsIff(xs);
    NumeratorBelow(xs);
    PrintedParts(xs);
    WrappedQuotient(Square(Sum(xs)), |xs| * SumSquares(xs));
  }

  lemma PrintedParts(xs: seq<nat>)
    ensures Printed(xs) == Divide(Wrap(Square(Sum(xs))), Wrap(|xs| * SumSquares(xs)))
    ensures Jain(xs) == Divide(Square(Sum(xs)), |xs| * SumSquares(xs))
  {
  }

  lemma NumeratorBelow(xs: seq<nat>)
    ensures Square(Sum(xs)) <= |xs| * SumSquares(xs)
    ensures Square(Sum(xs)) == 0 <==> |xs| * SumSquares(xs) == 0
  {
    SpreadIdentity(xs);
    SumSquaresBelow(xs);
  }

  lemma WrappedQuotient(p: nat, d: nat)
    requires p <= d && (p == 0 <==> d == 0)
    ensures Divide(Wrap(p), Wrap(d)) == Divide(p, d) <==> d < TWO_64 || KeepsRatio(p, d)
  {
    hide Wrap;
    if d >= TWO_64 && Wrap(d) != 0 {
      CrossMultiply(Wrap(p), Wrap(d), p, d);
      LostParts(p, d);
    }
  }

  lemma CrossMultiply(a: nat, b: nat, p: nat, d: nat)
    requires b > 0 && d > 0
    ensures a as real / b as real == p as real / d as real <==> a * d == p * b
  {
    var x, y := a as real / b as real, p as real / d as real;
    var bd := (b * d) as real;
    assert bd == b as real * d as real;
    assert x * b as real == a as real && y * d as real == p as real;
    assert x * bd == (a * d) as real;
    assert y * bd == (p * b) as real;
    Scale(x, y, bd);
  }

  lemma LostParts(p: nat, d: nat)
    ensures Wrap(p) * d == p * Wrap(d) <==> (p / TWO_64) * Wrap(d) == (d / TWO_64) * Wrap(p)
  {
    var lostP, lostD, leftP, leftD := p / TWO_64, d / TWO_64, Wrap(p), Wrap(d);
    assert p == lostP * TWO_64 + leftP && d == lostD * TWO_64 + leftD;
    hide Wrap;
    Distribute(leftP, lostD, leftD);
    Distribute(leftD, lostP, leftP);
    assert leftP * d - p * leftD == (lostD * leftP - lostP * leftD) * TWO_64;
  }

  lemma Distribute(x: nat, lost: nat, left: nat)
    ensures x * (lost * TWO_64 + left) == (lost * x) * TWO_64 + x * left
  {
  }

  /** If the denominator overflows and the numerator does not, the printed value is never right. */
  lemma OverflowBelowIsWrong(xs: seq<nat>)
    requires Square(Sum(xs)) < TWO_64 <= |xs| * SumSquares(xs)
    ensures Printed(xs) != Jain(xs)
  {
    hide *;
    PrintedIsJainIff(xs);
    NumeratorBelow(xs);
    LosesOnlyBelow(Square(Sum(xs)), |xs| * SumSquares(xs));
  }

  lemma LosesOnlyBelow(p: nat, d: nat)
    requires 0 < p < TWO_64 <= d
    ensures !KeepsRatio(p, d)
  {
    assert p / TWO_64 == 0 && d / TWO_64 > 0 && Wrap(p) == p;
    assert (d / TWO_64) * p >= p;
  }

  /** For equal flows, overflow or not, the printed value is right exactly when the denominator does not wrap to 0. */
  lemma EqualFlowsPrintOneIff(xs: seq<nat>)
    requires AllEqual(xs) && xs != [] && xs[0] != 0
    ensures Jain(xs) == Finite(1.0)
    ensures Printed(xs) == Finite(1.0) <==> Wrap(|xs| * SumSquares(xs)) != 0
  {
    JainRange(xs);
    SpreadIdentity(xs);
    PrintedIsJainIff(xs);
  }

  /** One flow of 2^33 + 1 bytes overflows the denominator, and 1 is printed all the same. */
  lemma OverflowMayBeHarmless()
    ensures var xs := [0x2_0000_0001 as nat];
            |xs| * SumSquares(xs) >= TWO_64 && Printed(xs) == Jain(xs) == Finite(1.0)
  {
    var c: nat := 0x2_0000_0001;
    var xs := [c];
    assert xs[..0] == [];
    assert Square(c) == 0x4_0000_0001 + 4 * TWO_64;
    WrapShift(0x4_0000_0001, 4);
    EqualFlowsPrintOneIff(xs);
  }

  /** Where counters do not fit, the printed value may be far off: for ten flows of 2^32 bytes
      each the index is 1, and what is printed is not a number. */
  lemma EqualFlowsMayPrintNaN()
    ensures var xs := seq(10, _ => 0x1_0000_0000 as nat);
            Jain(xs) == Finite(1.0) && Printed(xs) == NotANumber
  {
    var c: nat := 0x1_0000_0000;
    var xs := seq(10, _ => c);
    ConstantSums(10, c);
    assert Square(c) == TWO_64;
    assert Square(10 * c) == 0 + 100 * TWO_64;
    WrapShift(0, 100);
    assert AllEqual(xs) && xs[0] != 0;
    JainRange(xs);
  }

  lemma {:induction false} ConstantSums(n: nat, c: nat)
    ensures Sum(seq(n, _ => c)) == n * c && SumSquares(seq(n, _ => c)) == n * Square(c)
  {
    if n > 0 {
      ConstantSums(n - 1, c);
      assert seq(n, _ => c)[..n - 1] == seq(n - 1, _ => c);
      assert n * c == (n - 1) * c + c;
      assert n * Square(c) == (n - 1) * Square(c) + Square(c);
    }
  }

  // ----- The counters -----

  /** The counters of one group of flows; every entry is a 64-bit unsigned number. */
  class FlowCounters {
    const rxBytes: array<nat>

    constructor (flows: nat)
      ensures fresh(rxBytes) && rxBytes[..] == seq(flows, _ => 0)
    {
      rxBytes := new nat[flows](_ => 0);
    }

    method InitializeCounters()
      modifies rxBytes
      ensures forall i | 0 <= i < rxBytes.Length :: rxBytes[i] == 0
    {
      for i := 0 to rxBytes.Length
        invariant forall j | 0 <= j < i :: rxBytes[j] == 0
      {
        rxBytes[i] := 0;
      }
    }

    /** A packet of `size` bytes for flow `index`. */
    method TraceSink(index: nat, size: nat)
      requires index < rxBytes.Length
      modifies rxBytes
      ensures rxBytes[..] == old(rxBytes[..])[index := Wrap(old(rxBytes[index]) + size)]
    {
      rxBytes[index] := Wrap(rxBytes[index] + size);
    }

    method PrintFairness() returns (fairness: Quotient)
      ensures fairness == Printed(rxBytes[..])
      ensures fairness == Jain(rxBytes[..]) <==>
                || rxBytes.Length * SumSquares(rxBytes[..]) < TWO_64
                || KeepsRatio(Square(Sum(rxBytes[..])), rxBytes.Length * SumSquares(rxBytes[..]))
    {
      var sum, sumSquares: nat := 0, 0;
      ghost var xs := rxBytes[..];
      for i := 0 to rxBytes.Length
        invariant sum == Wrap(Sum(xs[..i])) && sumSquares == Wrap(SumSquares(xs[..i]))
      {
        assert xs[..i + 1][..i] == xs[..i];
        WrapAdd(Sum(xs[..i]), xs[i]);
        WrapAdd(SumSquares(xs[..i]), Square(xs[i]));
        AddWrapped(Sum(xs[..i]), xs[i]);
        sum := Wrap(sum + rxBytes[i]);
        sumSquares := Wrap(sumSquares + Wrap(rxBytes[i] * rxBytes[i]));
      }
      assert xs[..rxBytes.Length] == xs;
      WrapSquare(Sum(xs));
      WrapTimes(SumSquares(xs), |xs|);
      PrintedIsJainIff(xs);
      fairness := Divide(Wrap(sum * sum), Wrap(rxBytes.Length * sumSquares));
    }
  }

  lemma AddWrapped(a: nat, b: nat)
    ensures Wrap(Wrap(a) + b) == Wrap(a + b)
  {
  }
}
