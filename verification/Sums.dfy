/** Finite sums, and the spread k * sum(v^2) - sum(v)^2 that Cochran's Q and Fleiss' kappa share. */
module Sums {

  /** The sum of f over a sequence. */
  function SumOf<T>(xs: seq<T>, f: T -> int): int {
    if xs == [] then 0 else SumOf(xs[..|xs| - 1], f) + f(xs[|xs| - 1])
  }

  function Identity(x: int): int { x }

  function Square(x: int): int { x * x }

  function Sum(v: seq<int>): int { SumOf(v, Identity) }

  function SumSq(v: seq<int>): int { SumOf(v, Square) }

  /** |v| times the sum of squares minus the square of the sum: |v|^2 times the variance. */
  function Spread(v: seq<int>): int { |v| * SumSq(v) - Square(Sum(v)) }

  ghost predicate AllEqual(v: seq<int>) {
    forall i, j :: 0 <= i < |v| && 0 <= j < |v| ==> v[i] == v[j]
  }

  lemma SumSnoc<T>(xs: seq<T>, x: T, f: T -> int)
    ensures SumOf(xs + [x], f) == SumOf(xs, f) + f(x)
  {
    assert (xs + [x])[..|xs|] == xs;
  }

  lemma {:induction false} SumConcat<T>(xs: seq<T>, ys: seq<T>, f: T -> int)
    ensures SumOf(xs + ys, f) == SumOf(xs, f) + SumOf(ys, f)
  {
    if ys == [] {
      assert xs + ys == xs;
    } else {
      var n := |ys| - 1;
      assert xs + ys == (xs + ys[..n]) + [ys[n]];
      SumConcat(xs, ys[..n], f);
      SumSnoc(xs + ys[..n], ys[n], f);
    }
  }

  /** A sum does not depend on the order of its terms. */
  lemma {:induction false} SumIsOrderFree<T>(xs: seq<T>, ys: seq<T>, f: T -> int)
    requires multiset(xs) == multiset(ys)
    ensures SumOf(xs, f) == SumOf(ys, f)
    decreases |xs|
  {
    if xs == [] {
      assert |ys| == |multiset(ys)| == 0;
    } else {
      var n, x := |xs| - 1, xs[|xs| - 1];
      assert xs == xs[..n] + [x];
      assert x in multiset(ys);
      var j :| 0 <= j < |ys| && ys[j] == x;
      assert ys == ys[..j] + [x] + ys[j + 1..];
      assert multiset(xs[..n]) == multiset(xs) - multiset{x};
      assert multiset(ys[..j] + ys[j + 1..]) == multiset(ys) - multiset{x};
      SumIsOrderFree(xs[..n], ys[..j] + ys[j + 1..], f);
      SumConcat(ys[..j], ys[j + 1..], f);
      SumConcat(ys[..j] + [x], ys[j + 1..], f);
      SumSnoc(ys[..j], x, f);
    }
  }

  /** Nonnegative terms: the sum is nonnegative, and zero exactly when every term is. */
  lemma {:induction false} SumNonNeg<T>(xs: seq<T>, f: T -> int)
    requires forall i :: 0 <= i < |xs| ==> f(xs[i]) >= 0
    ensures SumOf(xs, f) >= 0
    ensures SumOf(xs, f) == 0 <==> forall i :: 0 <= i < |xs| ==> f(xs[i]) == 0
  {
    if xs != [] {
      var n := |xs| - 1;
      SumNonNeg(xs[..n], f);
      assert forall i :: 0 <= i < |xs| ==> xs[i] == if i == n then xs[n] else xs[..n][i];
    }
  }

  // ----- the spread -----

  /** The squared distances of the entries from `a`. */
  function Deviation(a: int): int -> int { x => Square(x - a) }

  lemma {:induction false} DeviationSum(v: seq<int>, a: int)
    ensures SumOf(v, Deviation(a)) == SumSq(v) - 2 * a * Sum(v) + |v| * Square(a)
  {
    if v != [] {
      var n, x := |v| - 1, v[|v| - 1];
      DeviationSum(v[..n], a);
      assert Square(x - a) == Square(x) - 2 * a * x + Square(a);
      assert (n + 1) * Square(a) == n * Square(a) + Square(a);
      assert 2 * a * (Sum(v[..n]) + x) == 2 * a * Sum(v[..n]) + 2 * a * x;
    }
  }

  lemma SpreadAlgebra(n: int, ss: int, s: int, a: int)
    ensures (n + 1) * (ss + a * a) - (s + a) * (s + a) == n * ss - s * s + (ss - 2 * a * s + n * (a * a))
  {
    assert (s + a) * (s + a) == s * s + 2 * a * s + a * a;
  }

  /** One more entry adds its squared distances from the others. */
  lemma SpreadSnoc(v: seq<int>, a: int)
    ensures Spread(v + [a]) == Spread(v) + SumOf(v, Deviation(a))
  {
    SumSnoc(v, a, Identity);
    SumSnoc(v, a, Square);
    DeviationSum(v, a);
    SpreadAlgebra(|v|, SumSq(v), Sum(v), a);
  }

  lemma SquareSign(x: int)
    ensures Square(x) >= 0
    ensures Square(x) == 0 <==> x == 0
  {}

  lemma DeviationSign(u: seq<int>, a: int)
    ensures SumOf(u, Deviation(a)) >= 0
    ensures SumOf(u, Deviation(a)) == 0 <==> forall i :: 0 <= i < |u| ==> u[i] == a
  {
    forall i | 0 <= i < |u|
      ensures Deviation(a)(u[i]) >= 0 && (Deviation(a)(u[i]) == 0 <==> u[i] == a)
    {
      SquareSign(u[i] - a);
    }
    SumNonNeg(u, Deviation(a));
  }

  lemma AllEqualSnoc(u: seq<int>, a: int)
    ensures AllEqual(u + [a]) <==> forall i :: 0 <= i < |u| ==> u[i] == a
    ensures AllEqual(u + [a]) ==> AllEqual(u)
  {
    var v := u + [a];
    assert v[|u|] == a && forall i :: 0 <= i < |u| ==> v[i] == u[i];
  }

  /** Cauchy-Schwarz with its equality case: the spread is never negative, and it is zero
      exactly when all entries are equal. */
  lemma {:induction false} SpreadNonNeg(v: seq<int>)
    ensures Spread(v) >= 0
    ensures Spread(v) == 0 <==> AllEqual(v)
  {
    if v != [] {
      var u, a := v[..|v| - 1], v[|v| - 1];
      assert v == u + [a];
      SpreadNonNeg(u);
      SpreadSnoc(u, a);
      DeviationSign(u, a);
      AllEqualSnoc(u, a);
    }
  }

  /** u + t v, entry by entry. */
  function Axpy(u: seq<int>, t: int, v: seq<int>): seq<int>
    requires |u| == |v|
  {
    seq(|u|, i requires 0 <= i < |u| => u[i] + t * v[i])
  }

  function Dot(u: seq<int>, v: seq<int>): int
    requires |u| == |v|
  {
    if u == [] then 0 else Dot(u[..|u| - 1], v[..|v| - 1]) + u[|u| - 1] * v[|v| - 1]
  }

  lemma {:induction false} AxpySums(u: seq<int>, t: int, v: seq<int>)
    requires |u| == |v|
    ensures Sum(Axpy(u, t, v)) == Sum(u) + t * Sum(v)
    ensures SumSq(Axpy(u, t, v)) == SumSq(u) + 2 * t * Dot(u, v) + Square(t) * SumSq(v)
  {
    if u != [] {
      var n := |u| - 1;
      var x, y := u[n], v[n];
      AxpySums(u[..n], t, v[..n]);
      assert Axpy(u, t, v)[..n] == Axpy(u[..n], t, v[..n]);
      AxpyStep(t, Sum(v[..n]), x, y, Dot(u[..n], v[..n]), SumSq(v[..n]));
    }
  }

  lemma AxpyStep(t: int, s: int, x: int, y: int, d: int, ss: int)
    ensures t * (s + y) == t * s + t * y
    ensures Square(x + t * y) == Square(x) + 2 * t * (x * y) + Square(t) * Square(y)
    ensures 2 * t * (d + x * y) == 2 * t * d + 2 * t * (x * y)
    ensures Square(t) * (ss + Square(y)) == Square(t) * ss + Square(t) * Square(y)
  {}

  function Covariance(u: seq<int>, v: seq<int>): int
    requires |u| == |v|
  {
    |u| * Dot(u, v) - Sum(u) * Sum(v)
  }

  /** The spread of a combination, from the two spreads and the covariance. */
  lemma SpreadOfAxpy(u: seq<int>, t: int, v: seq<int>)
    requires |u| == |v|
    ensures Spread(Axpy(u, t, v)) == Spread(u) + 2 * t * Covariance(u, v) + Square(t) * Spread(v)
  {
    AxpySums(u, t, v);
    SpreadExpands(|u|, t, Sum(u), Sum(v), SumSq(u), SumSq(v), Dot(u, v));
  }

  lemma SpreadExpands(k: int, t: int, su: int, sv: int, ssu: int, ssv: int, d: int)
    ensures k * (ssu + 2 * t * d + Square(t) * ssv) - Square(su + t * sv)
            == (k * ssu - Square(su)) + 2 * t * (k * d - su * sv) + Square(t) * (k * ssv - Square(sv))
  {
    assert Square(su + t * sv) == Square(su) + 2 * t * (su * sv) + Square(t) * Square(sv);
    assert k * (2 * t * d) == 2 * t * (k * d);
    assert k * (Square(t) * ssv) == Square(t) * (k * ssv);
  }

  /** Adding a constant to every entry, or negating every entry, keeps the spread. */
  lemma SpreadShift(u: seq<int>, v: seq<int>, sign: int, c: int)
    requires |u| == |v| && (sign == 1 || sign == -1)
    requires forall i :: 0 <= i < |u| ==> v[i] == c + sign * u[i]
    ensures Spread(v) == Spread(u)
  {
    var ones := seq(|u|, _ => c);
    assert v == Axpy(ones, sign, u);
    SpreadOfAxpy(ones, sign, u);
    SpreadNonNeg(ones);
    ConstantCovariance(ones, c, u);
  }

  lemma {:induction false} ConstantCovariance(ones: seq<int>, c: int, u: seq<int>)
    requires |ones| == |u| && forall i :: 0 <= i < |ones| ==> ones[i] == c
    ensures Sum(ones) == |u| * c && Dot(ones, u) == c * Sum(u) && Covariance(ones, u) == 0
  {
    if u != [] {
      var n := |u| - 1;
      ConstantCovariance(ones[..n], c, u[..n]);
      assert c * (Sum(u[..n]) + u[n]) == c * Sum(u[..n]) + c * u[n];
    }
    assert |u| * (c * Sum(u)) == (|u| * c) * Sum(u);
  }

  /** Adding an (n+1)st summand: the convexity step of the spread. */
  lemma SpreadConvex(s: seq<int>, x: seq<int>, n: int)
    requires |s| == |x| && n >= 1
    ensures n * Spread(Axpy(s, 1, x)) <= (n + 1) * (Spread(s) + n * Spread(x))
  {
    SpreadOfAxpy(s, 1, x);
    SpreadOfAxpy(s, -n, x);
    SpreadNonNeg(Axpy(s, -n, x));
    ConvexStep(n, Spread(s), Spread(x), Covariance(s, x));
  }

  lemma ConvexStep(n: int, qs: int, qx: int, c: int)
    requires qs + 2 * (-n) * c + Square(-n) * qx >= 0
    ensures n * (qs + 2 * 1 * c + Square(1) * qx) <= (n + 1) * (qs + n * qx)
  {
    assert Square(-n) * qx == n * (n * qx);
    assert (n + 1) * (qs + n * qx) == n * qs + n * (n * qx) + qs + n * qx;
  }
}
