/** Small facts about exact reals shared by the statistics modules. Rounding is not modelled:
    every `float` of the harness is an exact `real` here. */
module Numbers {

  function Max(a: real, b: real): real { if a >= b then a else b }

  function Min(a: real, b: real): real { if a <= b then a else b }

  function Sq(x: real): real { x * x }

  /** Division of two integer counts as in the source, giving a real. */
  function Quotient(a: int, b: int): real
    requires b != 0
  {
    a as real / b as real
  }

  lemma QuotientTimes(a: int, b: int)
    requires b > 0
    ensures Quotient(a, b) * b as real == a as real
  {
    DivLe(a as real, 0.0, b as real);
  }

  lemma QuotientInUnit(a: int, b: int)
    requires 0 <= a <= b && b > 0
    ensures 0.0 <= Quotient(a, b) <= 1.0
  {
    DivLe(a as real, 1.0, b as real);
    DivLe(a as real, 0.0, b as real);
  }

  lemma ProductSign(a: int, b: int)
    requires a >= 0 && b >= 0
    ensures a * b >= 0
    ensures a * b == 0 <==> a == 0 || b == 0
  {}

  /** What the models need of `math.sqrt`: the nonnegative root of every nonnegative argument. */
  ghost predicate IsSqrt(sqrt: real -> real) {
    forall x: real :: x >= 0.0 ==> sqrt(x) >= 0.0 && Sq(sqrt(x)) == x
  }

  lemma MulNonNeg(a: real, b: real)
    requires a >= 0.0 && b >= 0.0
    ensures a * b >= 0.0
  {}

  lemma MulPos(a: real, b: real)
    requires a > 0.0 && b > 0.0
    ensures a * b > 0.0
  {}

  lemma MulMono(a: real, b: real, c: real)
    requires a <= b && c >= 0.0
    ensures a * c <= b * c
  {
    MulNonNeg(b - a, c);
  }

  lemma MulStrict(a: real, b: real, c: real)
    requires a < b && c > 0.0
    ensures a * c < b * c
  {
    MulPos(b - a, c);
  }

  lemma ZeroProduct(a: real, b: real)
    ensures a * b == 0.0 <==> a == 0.0 || b == 0.0
  {}

  lemma SqNonNeg(t: real)
    ensures Sq(t) >= 0.0
    ensures Sq(t) == 0.0 <==> t == 0.0
  {
    ZeroProduct(t, t);
  }

  lemma SqOfProduct(a: real, b: real)
    ensures Sq(a * b) == Sq(a) * Sq(b)
  {}

  lemma SqOfNegation(a: real)
    ensures Sq(-a) == Sq(a)
  {}

  lemma DifferenceOfSquares(a: real, b: real)
    ensures Sq(a) - Sq(b) == (a - b) * (a + b)
  {}

  /** Multiplying both sides by a positive number keeps the order. */
  lemma ScaledOrder(a: real, b: real, d: real)
    requires d > 0.0
    ensures a <= b <==> d * a <= d * b
    ensures a == b <==> d * a == d * b
  {
    if a < b { MulStrict(a, b, d); }
    if b < a { MulStrict(b, a, d); }
  }

  /** Dividing by a positive number compares like multiplying by it. */
  lemma DivLe(a: real, b: real, d: real)
    requires d > 0.0
    ensures (a / d) * d == a
    ensures a / d <= b <==> a <= b * d
    ensures b <= a / d <==> b * d <= a
    ensures a / d == b <==> a == b * d
  {
    ScaledOrder(a / d, b, d);
    ScaledOrder(b, a / d, d);
  }

  /** For a nonnegative bound, squares compare like absolute values. */
  lemma SqLe(t: real, u: real)
    requires u >= 0.0
    ensures Sq(t) <= Sq(u) <==> -u <= t <= u
    ensures Sq(t) == Sq(u) <==> t == u || t == -u
  {
    DifferenceOfSquares(u, t);
    ZeroProduct(u - t, u + t);
    if -u <= t <= u {
      MulNonNeg(u - t, u + t);
    } else if t > u {
      MulPos(t - u, u + t);
    } else {
      MulPos(u - t, -t - u);
    }
  }
}
