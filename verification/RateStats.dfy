/** The Wilson score interval of `evals/rate_stats.py`, over exact reals. */
module RateStats {
  import opened Numbers

  const Z95: real := 1.96

  datatype Interval = Interval(low: real, high: real)

  /** The variance term under the square root. */
  function VarianceTerm(p: real, n: real, z: real): real
    requires n > 0.0
  {
    SqNonNeg(n);
    p * (1.0 - p) / n + Sq(z) / (4.0 * Sq(n))
  }

  /** Centre minus and plus margin, clipped to [0, 1], for a given value of the square root. */
  function Ends(p: real, n: real, z: real, root: real): Interval
    requires n > 0.0
  {
    SqNonNeg(z);
    DivLe(Sq(z), 0.0, n);
    var denominator := 1.0 + Sq(z) / n;
    var center := (p + Sq(z) / (2.0 * n)) / denominator;
    var margin := z * root / denominator;
    Interval(Max(0.0, center - margin), Min(1.0, center + margin))
  }

  /** The interval for a point estimate `p` and a (possibly fractional) sample size `n`. */
  function ScoreBounds(sqrt: real -> real, p: real, n: real, z: real): Interval
    requires n > 0.0
  {
    Ends(p, n, z, sqrt(VarianceTerm(p, n, z)))
  }

  /** Puts the all-pass and all-fail ends exactly on 1 and 0. */
  function ExactAtDegenerateEnds(i: Interval, successes: int, trials: int): Interval {
    Interval(if successes == 0 then 0.0 else i.low, if successes == trials then 1.0 else i.high)
  }

  /** `pass_rate`: successes over trials. */
  function Share(successes: nat, trials: nat): real
    requires trials > 0
  {
    successes as real / trials as real
  }

  datatype IntervalResult = Ok(value: Interval) | NoTrials

  function WilsonInterval(sqrt: real -> real, successes: nat, trials: nat, z: real): IntervalResult {
    if trials == 0 then NoTrials
    else
      Ok(ExactAtDegenerateEnds(ScoreBounds(sqrt, Share(successes, trials), trials as real, z), successes, trials))
  }

  /** The score test: a null rate `x` is kept when the estimate lies within `z` null standard
      errors of it, that is when n(p - x)^2 <= z^2 x(1 - x). */
  ghost predicate Keeps(p: real, n: real, z: real, x: real) {
    n * Sq(p - x) <= Sq(z) * (x * (1.0 - x))
  }

  /** x solves the boundary equation of the score test. */
  ghost predicate OnBoundary(p: real, n: real, z: real, x: real) {
    n * Sq(p - x) == Sq(z) * (x * (1.0 - x))
  }

  /** `i` is the set of rates the score test keeps. */
  ghost predicate Inverts(i: Interval, p: real, n: real, z: real) {
    forall x: real :: i.low <= x <= i.high <==> Keeps(p, n, z, x)
  }

  // ----- the algebra: with w = z^2/n and u = z * root, the ends are (p + w/2 -+ u)/(1 + w) -----

  /** The square of u. */
  function RootSq(p: real, w: real): real { w * (p * (1.0 - p)) + Sq(w) / 4.0 }

  /** `i` is p + w/2 -+ u once multiplied by 1 + w. */
  ghost predicate Shape(i: Interval, p: real, w: real, u: real) {
    && (1.0 + w) * i.low == p + w / 2.0 - u
    && (1.0 + w) * i.high == p + w / 2.0 + u
  }

  lemma CompleteTheSquare(p: real, x: real, w: real, e: real)
    requires e == Sq(p - x) - w * (x * (1.0 - x))
    ensures Sq((1.0 + w) * x - (p + w / 2.0)) - RootSq(p, w) == (1.0 + w) * e
  {
    Expansion(p, x, w, (1.0 + w) * x, p + w / 2.0);
  }

  lemma Expansion(p: real, x: real, w: real, a: real, b: real)
    requires a == (1.0 + w) * x && b == p + w / 2.0
    ensures (a - b) * (a - b) - (w * (p * (1.0 - p)) + w * w / 4.0)
            == (1.0 + w) * ((p - x) * (p - x) - w * (x * (1.0 - x)))
  {
    assert (a - b) * (a - b) == a * a - 2.0 * (a * b) + b * b;
    assert a * a == x * x + 2.0 * (w * (x * x)) + w * w * (x * x);
    assert a * b == p * x + w * (p * x) + w * x / 2.0 + w * w * x / 2.0;
    assert b * b == p * p + w * p + w * w / 4.0;
  }

  /** The test multiplied out: comparing with the boundary is comparing two squares. */
  lemma TestIsSquare(p: real, n: real, z: real, x: real, w: real)
    requires n > 0.0 && w * n == Sq(z) && w >= 0.0
    ensures var t := (1.0 + w) * x - (p + w / 2.0);
            && (Keeps(p, n, z, x) <==> Sq(t) <= RootSq(p, w))
            && (OnBoundary(p, n, z, x) <==> Sq(t) == RootSq(p, w))
  {
    KeepsDividedByN(p, n, z, x, w);
    CompletedSquare(p, x, w, Sq(p - x) - w * (x * (1.0 - x)), Sq((1.0 + w) * x - (p + w / 2.0)));
  }

  lemma CompletedSquare(p: real, x: real, w: real, e: real, square: real)
    requires w >= 0.0 && e == Sq(p - x) - w * (x * (1.0 - x)) && square == Sq((1.0 + w) * x - (p + w / 2.0))
    ensures square <= RootSq(p, w) <==> e <= 0.0
    ensures square == RootSq(p, w) <==> e == 0.0
  {
    CompleteTheSquare(p, x, w, e);
    SquareComparison(square, RootSq(p, w), e, w);
  }

  lemma SquareComparison(square: real, root: real, e: real, w: real)
    requires w >= 0.0 && square - root == (1.0 + w) * e
    ensures square <= root <==> e <= 0.0
    ensures square == root <==> e == 0.0
  {
    ScaledOrder(e, 0.0, 1.0 + w);
  }

  lemma KeepsDividedByN(p: real, n: real, z: real, x: real, w: real)
    requires n > 0.0 && w * n == Sq(z)
    ensures Keeps(p, n, z, x) <==> Sq(p - x) - w * (x * (1.0 - x)) <= 0.0
    ensures OnBoundary(p, n, z, x) <==> Sq(p - x) - w * (x * (1.0 - x)) == 0.0
  {
    TestDividedByN(n, Sq(p - x), w, x * (1.0 - x), Sq(z));
  }

  lemma TestDividedByN(n: real, e: real, w: real, v: real, zz: real)
    requires n > 0.0 && w * n == zz
    ensures n * e <= zz * v <==> e - w * v <= 0.0
    ensures n * e == zz * v <==> e - w * v == 0.0
  {
    assert zz * v == n * (w * v);
    ScaledOrder(e, w * v, n);
  }

  /** u is a root that keeps both ends inside [0, 1]. */
  lemma RootWithinUnit(p: real, w: real, u: real)
    requires 0.0 <= p <= 1.0 && w >= 0.0 && u >= 0.0
    requires Sq(u) == RootSq(p, w)
    ensures u <= p + w / 2.0 && p + w / 2.0 + u <= 1.0 + w
  {
    RootBelow(p, w, u);
    RootBelow(1.0 - p, w, u);
  }

  lemma RootBelow(p: real, w: real, u: real)
    requires p >= 0.0 && w >= 0.0 && u >= 0.0
    requires Sq(u) == RootSq(p, w)
    ensures u <= p + w / 2.0
  {
    assert Sq(p + w / 2.0) - RootSq(p, w) == Sq(p) * (1.0 + w);
    SqNonNeg(p);
    MulNonNeg(Sq(p), 1.0 + w);
    SqLe(u, p + w / 2.0);
  }

  /** Clipping (b - u)/d and (b + u)/d to [0, 1] changes nothing when they already lie there. */
  lemma ClippedShape(p: real, w: real, u: real, center: real, margin: real)
    requires 0.0 <= p <= 1.0 && w >= 0.0 && u >= 0.0
    requires u <= p + w / 2.0 && p + w / 2.0 + u <= 1.0 + w
    requires (1.0 + w) * center == p + w / 2.0 && (1.0 + w) * margin == u
    ensures Shape(Interval(Max(0.0, center - margin), Min(1.0, center + margin)), p, w, u)
  {
    var d := 1.0 + w;
    assert d * (center - margin) == p + w / 2.0 - u;
    assert d * (center + margin) == p + w / 2.0 + u;
    ScaledOrder(0.0, center - margin, d);
    ScaledOrder(center + margin, 1.0, d);
  }

  lemma VarianceTimesSquare(p: real, n: real, z: real, w: real)
    requires 0.0 <= p <= 1.0 && n > 0.0 && w == Sq(z) / n
    ensures VarianceTerm(p, n, z) >= 0.0
    ensures Sq(z) * VarianceTerm(p, n, z) == RootSq(p, w)
  {
    SqNonNeg(n);
    SqNonNeg(z);
    DivLe(Sq(z), w, n);
    MulNonNeg(p, 1.0 - p);
    DivLe(p * (1.0 - p), 0.0, n);
    DivLe(Sq(z), 0.0, 4.0 * Sq(n));
    TermsTimesSquare(p * (1.0 - p), n, Sq(z), w, p * (1.0 - p) / n, Sq(z) / (4.0 * Sq(n)));
  }

  lemma TermsTimesSquare(v: real, n: real, zz: real, w: real, a: real, b: real)
    requires n > 0.0 && w * n == zz && a * n == v && b * (4.0 * Sq(n)) == zz
    ensures zz * (a + b) == w * v + Sq(w) / 4.0
  {
    assert w * n * a == w * v;
    assert (4.0 * (n * b) - w) * n == 0.0;
    ZeroProduct(4.0 * (n * b) - w, n);
    assert w * n * b == w * (n * b);
  }

  /** Neither clip ever bites: the returned ends are the unclipped ones. */
  lemma ClipsNeverBite(sqrt: real -> real, p: real, n: real, z: real) returns (w: real, u: real)
    requires IsSqrt(sqrt) && 0.0 <= p <= 1.0 && n > 0.0 && z >= 0.0
    ensures w * n == Sq(z) && w >= 0.0 && u >= 0.0 && Sq(u) == RootSq(p, w)
    ensures Shape(ScoreBounds(sqrt, p, n, z), p, w, u)
  {
    w := Sq(z) / n;
    VarianceTimesSquare(p, n, z, w);
    u := ShapeFromRoot(p, n, z, w, sqrt(VarianceTerm(p, n, z)));
  }

  lemma ShapeFromRoot(p: real, n: real, z: real, w: real, root: real) returns (u: real)
    requires 0.0 <= p <= 1.0 && n > 0.0 && z >= 0.0 && w == Sq(z) / n
    requires root >= 0.0 && Sq(z) * Sq(root) == RootSq(p, w)
    ensures w * n == Sq(z) && w >= 0.0 && u >= 0.0 && Sq(u) == RootSq(p, w)
    ensures Shape(Ends(p, n, z, root), p, w, u)
  {
    u := z * root;
    SqNonNeg(z);
    DivLe(Sq(z), 0.0, n);
    DivLe(Sq(z), w, n);
    MulNonNeg(z, root);
    SqOfProduct(z, root);
    RootWithinUnit(p, w, u);
    DivLe(Sq(z), w / 2.0, 2.0 * n);
    DivLe(p + w / 2.0, 0.0, 1.0 + w);
    DivLe(u, 0.0, 1.0 + w);
    ClippedShape(p, w, u, (p + w / 2.0) / (1.0 + w), u / (1.0 + w));
  }

  /** Lying between the ends is a square comparison, lying on one a square equation. */
  lemma ShapeIsSquare(i: Interval, p: real, w: real, u: real, x: real)
    requires w >= 0.0 && u >= 0.0 && Shape(i, p, w, u)
    ensures var t := (1.0 + w) * x - (p + w / 2.0);
            && (i.low <= x <= i.high <==> Sq(t) <= Sq(u))
            && (x == i.low || x == i.high <==> Sq(t) == Sq(u))
  {
    var d := 1.0 + w;
    SqLe(d * x - (p + w / 2.0), u);
    ScaledOrder(i.low, x, d);
    ScaledOrder(x, i.high, d);
  }

  // ----- the theorems -----

  /** MAIN. The interval is exactly the set of rates the score test keeps, and its ends are
      exactly the roots of n(p - x)^2 = z^2 x(1 - x). */
  lemma BoundsInvertScoreTest(sqrt: real -> real, p: real, n: real, z: real)
    requires IsSqrt(sqrt) && 0.0 <= p <= 1.0 && n > 0.0 && z >= 0.0
    ensures var i := ScoreBounds(sqrt, p, n, z);
            && Inverts(i, p, n, z)
            && forall x: real :: x == i.low || x == i.high <==> OnBoundary(p, n, z, x)
  {
    var w, u := ClipsNeverBite(sqrt, p, n, z);
    ShapeInverts(ScoreBounds(sqrt, p, n, z), p, n, z, w, u);
  }

  lemma ShapeInverts(i: Interval, p: real, n: real, z: real, w: real, u: real)
    requires n > 0.0 && w * n == Sq(z) && w >= 0.0 && u >= 0.0 && Sq(u) == RootSq(p, w)
    requires Shape(i, p, w, u)
    ensures Inverts(i, p, n, z)
    ensures forall x: real :: x == i.low || x == i.high <==> OnBoundary(p, n, z, x)
  {
    forall x: real
      ensures i.low <= x <= i.high <==> Keeps(p, n, z, x)
      ensures x == i.low || x == i.high <==> OnBoundary(p, n, z, x)
    {
      ShapeIsSquare(i, p, w, u, x);
      TestIsSquare(p, n, z, x, w);
    }
  }

  /** What every inverting interval satisfies. */
  lemma InvertsBrackets(i: Interval, p: real, n: real, z: real)
    requires 0.0 <= p <= 1.0 && n > 0.0 && Inverts(i, p, n, z)
    ensures i.low <= p <= i.high
    ensures 0.0 <= i.low && i.high <= 1.0
    ensures i.low == 0.0 <==> p == 0.0
    ensures i.high == 1.0 <==> p == 1.0
  {
    KeptEnds(p, n, z);
    KeptInUnit(p, n, z, i.low);
    KeptInUnit(p, n, z, i.high);
    assert Keeps(p, n, z, p) && (Keeps(p, n, z, 0.0) <==> p == 0.0) && (Keeps(p, n, z, 1.0) <==> p == 1.0);
    assert i.low <= p <= i.high;
    assert Keeps(p, n, z, i.low) && Keeps(p, n, z, i.high);
  }

  lemma KeptInUnit(p: real, n: real, z: real, x: real)
    requires 0.0 <= p <= 1.0 && n > 0.0
    ensures Keeps(p, n, z, x) ==> 0.0 <= x <= 1.0
  {
    SqNonNeg(z);
    SqNonNeg(p - x);
    if x < 0.0 {
      MulPos(-x, 1.0 - x);
      MulPos(n, Sq(p - x));
      MulNonNeg(Sq(z), -(x * (1.0 - x)));
    } else if x > 1.0 {
      MulPos(x - 1.0, x);
      MulPos(n, Sq(p - x));
      MulNonNeg(Sq(z), -(x * (1.0 - x)));
    }
  }

  lemma KeptEnds(p: real, n: real, z: real)
    requires 0.0 <= p <= 1.0 && n > 0.0
    ensures Keeps(p, n, z, p)
    ensures Keeps(p, n, z, 0.0) <==> p == 0.0
    ensures Keeps(p, n, z, 1.0) <==> p == 1.0
  {
    SqNonNeg(z);
    SqNonNeg(p - p);
    MulNonNeg(p, 1.0 - p);
    MulNonNeg(Sq(z), p * (1.0 - p));
    SqNonNeg(p - 0.0);
    SqNonNeg(p - 1.0);
    if p != 0.0 { MulPos(n, Sq(p - 0.0)); }
    if p != 1.0 { MulPos(n, Sq(p - 1.0)); }
  }

  /** MAIN. 0 <= low <= p <= high <= 1; low is 0 exactly at p = 0, high is 1 exactly at p = 1. */
  lemma IntervalBracketsEstimate(sqrt: real -> real, p: real, n: real, z: real)
    requires IsSqrt(sqrt) && 0.0 <= p <= 1.0 && n > 0.0 && z >= 0.0
    ensures var i := ScoreBounds(sqrt, p, n, z);
            && 0.0 <= i.low <= p <= i.high <= 1.0
            && (i.low == 0.0 <==> p == 0.0) && (i.high == 1.0 <==> p == 1.0)
  {
    BoundsInvertScoreTest(sqrt, p, n, z);
    InvertsBrackets(ScoreBounds(sqrt, p, n, z), p, n, z);
  }

  lemma InvertsWidens(i: Interval, i': Interval, p: real, n: real, n': real, z: real)
    requires 0.0 <= p <= 1.0 && 0.0 < n' <= n
    requires Inverts(i, p, n, z) && Inverts(i', p, n', z)
    ensures i'.low <= i.low && i.high <= i'.high
  {
    InvertsBrackets(i, p, n, z);
    assert Keeps(p, n, z, i.low) && Keeps(p, n, z, i.high);
    StillKept(p, n, n', z, i.low);
    StillKept(p, n, n', z, i.high);
  }

  lemma StillKept(p: real, n: real, n': real, z: real, x: real)
    requires 0.0 < n' <= n
    ensures Keeps(p, n, z, x) ==> Keeps(p, n', z, x)
  {
    SqNonNeg(p - x);
    MulMono(n', n, Sq(p - x));
  }

  /** MAIN. Less data never narrows: the interval at a smaller sample size contains the other. */
  lemma SmallerSampleContains(sqrt: real -> real, p: real, n: real, n': real, z: real)
    requires IsSqrt(sqrt) && 0.0 <= p <= 1.0 && 0.0 < n' <= n && z >= 0.0
    ensures var i, i' := ScoreBounds(sqrt, p, n, z), ScoreBounds(sqrt, p, n', z);
            i'.low <= i.low && i.high <= i'.high
  {
    BoundsInvertScoreTest(sqrt, p, n, z);
    BoundsInvertScoreTest(sqrt, p, n', z);
    InvertsWidens(ScoreBounds(sqrt, p, n, z), ScoreBounds(sqrt, p, n', z), p, n, n', z);
  }

  lemma InvertsMoves(i: Interval, i': Interval, p: real, p': real, n: real, z: real)
    requires 0.0 <= p <= p' <= 1.0 && n > 0.0
    requires Inverts(i, p, n, z) && Inverts(i', p', n, z)
    ensures i.low <= i'.low && i.high <= i'.high
  {
    InvertsBrackets(i, p, n, z);
    InvertsBrackets(i', p', n, z);
    assert Keeps(p, n, z, i.high) && Keeps(p', n, z, i'.low);
    if i.high > i'.high {
      CloserIsKept(p, p', n, z, i.high);
    }
    if i.low > i'.low {
      CloserIsKept(p', p, n, z, i'.low);
    }
  }

  /** An estimate nearer to x keeps x whenever a farther one on the same side does. */
  lemma CloserIsKept(far: real, near: real, n: real, z: real, x: real)
    requires n > 0.0 && Keeps(far, n, z, x)
    requires far <= near <= x || x <= near <= far
    ensures Keeps(near, n, z, x)
  {
    DifferenceOfSquares(far - x, near - x);
    if far <= near <= x {
      MulNonNeg(near - far, (x - far) + (x - near));
    } else {
      MulNonNeg(far - near, (far - x) + (near - x));
    }
    MulMono(Sq(near - x), Sq(far - x), n);
  }

  /** MAIN. A higher estimate at the same sample size moves both ends up (weakly). */
  lemma MonotoneInEstimate(sqrt: real -> real, p: real, p': real, n: real, z: real)
    requires IsSqrt(sqrt) && 0.0 <= p <= p' <= 1.0 && n > 0.0 && z >= 0.0
    ensures var i, i' := ScoreBounds(sqrt, p, n, z), ScoreBounds(sqrt, p', n, z);
            i.low <= i'.low && i.high <= i'.high
  {
    BoundsInvertScoreTest(sqrt, p, n, z);
    BoundsInvertScoreTest(sqrt, p', n, z);
    InvertsMoves(ScoreBounds(sqrt, p, n, z), ScoreBounds(sqrt, p', n, z), p, p', n, z);
  }

  lemma InvertsMirrors(i: Interval, i': Interval, p: real, n: real, z: real)
    requires 0.0 <= p <= 1.0 && n > 0.0
    requires Inverts(i, p, n, z) && Inverts(i', 1.0 - p, n, z)
    ensures i'.low == 1.0 - i.high && i'.high == 1.0 - i.low
  {
    InvertsBrackets(i, p, n, z);
    InvertsBrackets(i', 1.0 - p, n, z);
    MirroredTest(p, n, z, i.low);
    MirroredTest(p, n, z, i.high);
    MirroredTest(1.0 - p, n, z, i'.low);
    MirroredTest(1.0 - p, n, z, i'.high);
    assert Keeps(p, n, z, i.low) && Keeps(p, n, z, i.high);
    assert Keeps(1.0 - p, n, z, i'.low) && Keeps(1.0 - p, n, z, i'.high);
    assert 1.0 - (1.0 - p) == p;
    assert Keeps(p, n, z, 1.0 - i'.low) && Keeps(p, n, z, 1.0 - i'.high);
    assert Keeps(1.0 - p, n, z, 1.0 - i.low) && Keeps(1.0 - p, n, z, 1.0 - i.high);
  }

  lemma MirroredTest(p: real, n: real, z: real, x: real)
    ensures Keeps(p, n, z, x) == Keeps(1.0 - p, n, z, 1.0 - x)
  {
    assert (1.0 - p) - (1.0 - x) == -(p - x);
    SqOfNegation(p - x);
  }

  /** Swapping passes and failures mirrors the interval. */
  lemma MirrorSymmetry(sqrt: real -> real, p: real, n: real, z: real)
    requires IsSqrt(sqrt) && 0.0 <= p <= 1.0 && n > 0.0 && z >= 0.0
    ensures var i, i' := ScoreBounds(sqrt, p, n, z), ScoreBounds(sqrt, 1.0 - p, n, z);
            i'.low == 1.0 - i.high && i'.high == 1.0 - i.low
  {
    BoundsInvertScoreTest(sqrt, p, n, z);
    BoundsInvertScoreTest(sqrt, 1.0 - p, n, z);
    InvertsMirrors(ScoreBounds(sqrt, p, n, z), ScoreBounds(sqrt, 1.0 - p, n, z), p, n, z);
  }

  // ----- the counted interval -----

  lemma ShareInUnit(s: nat, n: nat)
    requires s <= n && 0 < n
    ensures 0.0 <= Share(s, n) <= 1.0
    ensures Share(s, n) == 0.0 <==> s == 0
    ensures Share(s, n) == 1.0 <==> s == n
    ensures Share(s, n) * n as real == s as real
  {
    DivLe(s as real, 0.0, n as real);
    DivLe(s as real, 1.0, n as real);
  }

  lemma ShareComplement(s: nat, n: nat)
    requires s <= n && 0 < n
    ensures Share(n - s, n) == 1.0 - Share(s, n)
  {
    ShareInUnit(s, n);
    DivLe((n - s) as real, 1.0 - Share(s, n), n as real);
  }

  lemma ShareMonotone(s: nat, s': nat, n: nat)
    requires s <= s' && 0 < n
    ensures Share(s, n) <= Share(s', n)
  {
    DivLe(s' as real, 0.0, n as real);
    DivLe(s as real, Share(s', n), n as real);
  }

  /** MAIN. Putting the degenerate ends on 0 and 1 changes nothing in exact arithmetic, so the
      counted interval is the score-test interval; its ends are 0 and 1 exactly there. */
  lemma WilsonIsScoreInterval(sqrt: real -> real, s: nat, n: nat, z: real)
    requires IsSqrt(sqrt) && s <= n && z >= 0.0
    ensures WilsonInterval(sqrt, s, n, z).NoTrials? <==> n == 0
    ensures n > 0 ==>
              var i, p := WilsonInterval(sqrt, s, n, z).value, Share(s, n);
              && i == ScoreBounds(sqrt, p, n as real, z)
              && Inverts(i, p, n as real, z)
              && 0.0 <= i.low <= p <= i.high <= 1.0
              && (i.low == 0.0 <==> s == 0) && (i.high == 1.0 <==> s == n)
  {
    if n > 0 {
      var p := Share(s, n);
      ShareInUnit(s, n);
      BoundsInvertScoreTest(sqrt, p, n as real, z);
      InvertsBrackets(ScoreBounds(sqrt, p, n as real, z), p, n as real, z);
    }
  }

  /** MAIN. Counting failures instead of passes mirrors the interval. */
  lemma WilsonMirrors(sqrt: real -> real, s: nat, n: nat, z: real)
    requires IsSqrt(sqrt) && s <= n && 0 < n && z >= 0.0
    ensures var i := WilsonInterval(sqrt, s, n, z).value;
            WilsonInterval(sqrt, n - s, n, z).value == Interval(1.0 - i.high, 1.0 - i.low)
  {
    ShareInUnit(s, n);
    ShareComplement(s, n);
    MirrorSymmetry(sqrt, Share(s, n), n as real, z);
    WilsonIsScoreInterval(sqrt, s, n, z);
    WilsonIsScoreInterval(sqrt, n - s, n, z);
  }

  /** MAIN. More passes out of the same trials move neither end down. */
  lemma WilsonMonotone(sqrt: real -> real, s: nat, s': nat, n: nat, z: real)
    requires IsSqrt(sqrt) && s <= s' <= n && 0 < n && z >= 0.0
    ensures var i, i' := WilsonInterval(sqrt, s, n, z).value, WilsonInterval(sqrt, s', n, z).value;
            i.low <= i'.low && i.high <= i'.high
  {
    ShareInUnit(s, n);
    ShareInUnit(s', n);
    ShareMonotone(s, s', n);
    MonotoneInEstimate(sqrt, Share(s, n), Share(s', n), n as real, z);
    WilsonIsScoreInterval(sqrt, s, n, z);
    WilsonIsScoreInterval(sqrt, s', n, z);
  }

  /** The all-fail interval in closed form: [0, z^2 / (n + z^2)]. */
  lemma AllFailInterval(sqrt: real -> real, n: nat, z: real, h: real)
    requires IsSqrt(sqrt) && 0 < n && z > 0.0
    requires h * (n as real + Sq(z)) == Sq(z)
    ensures WilsonInterval(sqrt, 0, n, z).value == Interval(0.0, h)
  {
    WilsonIsScoreInterval(sqrt, 0, n, z);
    ShareInUnit(0, n);
    BoundsInvertScoreTest(sqrt, 0.0, n as real, z);
    AllFailBoundary(n as real, z, h);
  }

  lemma AllFailBoundary(n: real, z: real, h: real)
    requires n > 0.0 && z > 0.0 && h * (n + Sq(z)) == Sq(z)
    ensures h != 0.0 && OnBoundary(0.0, n, z, h)
  {
    AllFailRoot(n, Sq(z), h);
    SqNonNeg(z);
    ZeroProduct(h, n + Sq(z));
  }

  lemma AllFailRoot(n: real, zz: real, h: real)
    requires h * (n + zz) == zz
    ensures n * Sq(0.0 - h) == zz * (h * (1.0 - h))
  {
    assert h * (n + zz) * h == zz * h;
  }
}
