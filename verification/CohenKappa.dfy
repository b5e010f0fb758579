/** Cohen's kappa from a 2x2 table, after `_kappa_from_matrix` of `evals/calibration.py`. */
module CohenKappa {
  import opened Numbers
  import opened Options

  const TOLERANCE: real := 0.000000000001
  const LARGEST_EXACT: nat := 1_000_000_000_000

  datatype Table = Table(tp: nat, fp: nat, fn: nat, tn: nat)
  {
    function N(): nat { tp + fp + fn + tn }

    /** The two raters exchanged. */
    function Exchanged(): Table { Table(tp, fn, fp, tn) }

    /** Every verdict inverted. */
    function Inverted(): Table { Table(tn, fn, fp, tp) }
  }

  function ObservedAgreement(t: Table): real
    requires t.N() > 0
  {
    Quotient(t.tp + t.tn, t.N())
  }

  /** The chance that two raters agree who say yes `a` and `b` times, and no `a'` and `b'` times, in `n`. */
  function Chance(a: nat, b: nat, a': nat, b': nat, n: nat): real
    requires n > 0
  {
    Quotient(a, n) * Quotient(b, n) + Quotient(a', n) * Quotient(b', n)
  }

  function ExpectedAgreement(t: Table): real
    requires t.N() > 0
  {
    Chance(t.tp + t.fp, t.tp + t.fn, t.fn + t.tn, t.fp + t.tn, t.N())
  }

  function Abs(x: real): real { if x < 0.0 then -x else x }

  /** `None` is the undefined kappa: agreement by chance is within the tolerance of one. */
  function BeyondChance(po: real, pe: real): Option<real> {
    if Abs(1.0 - pe) < TOLERANCE then None else Some((po - pe) / (1.0 - pe))
  }

  function KappaFromMatrix(t: Table): Option<real>
    requires t.N() > 0
  {
    BeyondChance(ObservedAgreement(t), ExpectedAgreement(t))
  }

  // ----- the integer form -----

  /** n squared times one minus the expected agreement, in counts. */
  function Discord(t: Table): int { (t.tp + t.fp) * (t.fp + t.tn) + (t.fn + t.tn) * (t.tp + t.fn) }

  /** n squared times the observed less the expected agreement. */
  function Excess(t: Table): int { 2 * (t.tp * t.tn - t.fp * t.fn) }

  lemma ExpandDiscord(t: Table)
    ensures Discord(t) == 2 * (t.tp * t.tn) + t.fp * t.fp + t.fn * t.fn + (t.fp + t.fn) * (t.tp + t.tn)
  {
    Distribute(t.tp + t.fp, t.fp, t.tn);
    Distribute(t.fn + t.tn, t.tp, t.fn);
    Distribute(t.fp, t.tp, t.fp);
    Distribute(t.tn, t.tp, t.fp);
    Distribute(t.tp, t.fn, t.tn);
    Distribute(t.fn, t.fn, t.tn);
    Distribute(t.fp + t.fn, t.tp, t.tn);
    Distribute(t.tp, t.fp, t.fn);
    Distribute(t.tn, t.fp, t.fn);
  }

  lemma Distribute(a: int, b: int, c: int)
    ensures a * (b + c) == a * b + a * c == (b + c) * a
  {}

  lemma SquareNonNeg(a: int)
    ensures a * a >= 0
    ensures a * a == 0 <==> a == 0
    ensures a * a >= a
  {}

  /** The square of a difference is nonnegative. */
  lemma TwoProduct(a: int, b: int)
    ensures a * a + b * b >= 2 * (a * b)
    ensures a * a + b * b == 2 * (a * b) <==> a == b
  {
    SquareNonNeg(a - b);
    Distribute(a - b, a, -b);
    Distribute(a, a, -b);
    Distribute(-b, a, -b);
  }

  /** The excess lies between the discord and its negation, reaching them on the two diagonals. */
  lemma ExcessBounds(t: Table)
    ensures -Discord(t) <= Excess(t) <= Discord(t)
    ensures Excess(t) == Discord(t) <==> t.fp == 0 && t.fn == 0
    ensures Excess(t) == -Discord(t) && Discord(t) > 0 <==> t.tp == 0 && t.tn == 0 && t.fp == t.fn && t.fp > 0
  {
    ExpandDiscord(t);
    TwoProduct(t.fp, t.fn);
    SquareNonNeg(t.fp);
    SquareNonNeg(t.fn);
    ProductSign(t.fp, t.fn);
    ProductSign(t.tp, t.tn);
    ProductSign(t.fp + t.fn, t.tp + t.tn);
  }

  /** Zero only when every count is in one agreeing cell, and never below the table's size otherwise. */
  lemma DiscordGap(t: Table)
    ensures Discord(t) == 0 <==> t.fp == 0 && t.fn == 0 && (t.tp == 0 || t.tn == 0)
    ensures Discord(t) != 0 ==> Discord(t) >= t.N()
  {
    ExpandDiscord(t);
    SquareNonNeg(t.fp);
    SquareNonNeg(t.fn);
    ProductSign(t.tp, t.tn);
    ProductSign(t.fp + t.fn, t.tp + t.tn);
    if t.fp + t.fn > 0 {
      AtLeastFactor(t.fp + t.fn, t.tp + t.tn);
    } else if t.tp > 0 && t.tn > 0 {
      AtLeastFactor(t.tp, t.tn);
      AtLeastFactor(t.tn, t.tp);
    }
  }

  lemma AtLeastFactor(a: int, b: int)
    requires a >= 1 && b >= 0
    ensures a * b >= b
  {}

  // ----- the real form is the integer form over n squared -----

  /** Four shares of n counts, and what their products amount to. */
  lemma ScaledProduct(a: int, b: int, n: int, p: real, q: real)
    requires p * n as real == a as real && q * n as real == b as real
    ensures (p * q) * Sq(n as real) == (a * b) as real
  {
    var r := n as real;
    assert (p * q) * (r * r) == (p * r) * (q * r);
    assert (a * b) as real == a as real * b as real;
  }

  lemma SumScaled(yes: real, no: real, po: real, n: int, a: int, b: int, c: int)
    requires yes * Sq(n as real) == a as real && no * Sq(n as real) == b as real && po * n as real == c as real
    ensures (1.0 - (yes + no)) * Sq(n as real) == (n * n - a - b) as real
    ensures (po - (yes + no)) * Sq(n as real) == (n * c - a - b) as real
  {
    var r := n as real;
    assert (n * n) as real == r * r && (n * c) as real == r * c as real;
    assert po * (r * r) == (po * r) * r;
  }

  lemma CountsOfSquare(t: Table)
    ensures t.N() * t.N() - (t.tp + t.fp) * (t.tp + t.fn) - (t.fn + t.tn) * (t.fp + t.tn) == Discord(t)
    ensures t.N() * (t.tp + t.tn) - (t.tp + t.fp) * (t.tp + t.fn) - (t.fn + t.tn) * (t.fp + t.tn) == Excess(t)
  {}

  lemma ScaledExpected(n: int, a: int, b: int, a': int, b': int, c: int, yes: real, no: real, po: real)
    requires n > 0
    requires yes == Quotient(a, n) * Quotient(b, n) && no == Quotient(a', n) * Quotient(b', n) && po == Quotient(c, n)
    ensures (1.0 - (yes + no)) * Sq(n as real) == (n * n - a * b - a' * b') as real
    ensures (po - (yes + no)) * Sq(n as real) == (n * c - a * b - a' * b') as real
  {
    QuotientTimes(a, n);
    QuotientTimes(b, n);
    QuotientTimes(a', n);
    QuotientTimes(b', n);
    QuotientTimes(c, n);
    ScaledProduct(a, b, n, Quotient(a, n), Quotient(b, n));
    ScaledProduct(a', b', n, Quotient(a', n), Quotient(b', n));
    SumScaled(yes, no, po, n, a * b, a' * b', c);
  }

  lemma AsQuotient(x: real, n: int, nn: int, d: int)
    requires n > 0 && nn == n * n && x * Sq(n as real) == d as real
    ensures nn > 0 && x == Quotient(d, nn)
  {
    assert nn as real == Sq(n as real);
    SquareOfCount(n);
    DivLe(d as real, x, nn as real);
  }

  /** Both agreement gaps as one fraction of counts. */
  lemma GapsAsQuotients(n: nat, a: nat, b: nat, a': nat, b': nat, c: nat, d: int, e: int, pe: real, po: real)
    requires n > 0 && pe == Chance(a, b, a', b', n) && po == Quotient(c, n)
    requires d == n * n - a * b - a' * b' && e == n * c - a * b - a' * b'
    ensures n * n > 0 && 1.0 - pe == Quotient(d, n * n) && po - pe == Quotient(e, n * n)
  {
    ScaledExpected(n, a, b, a', b', c, Quotient(a, n) * Quotient(b, n), Quotient(a', n) * Quotient(b', n), po);
    AsQuotient(1.0 - pe, n, n * n, d);
    AsQuotient(po - pe, n, n * n, e);
  }

  lemma AgreementGaps(t: Table, nn: int)
    requires t.N() > 0 && nn == t.N() * t.N()
    ensures nn > 0 && 1.0 - ExpectedAgreement(t) == Quotient(Discord(t), nn)
    ensures ObservedAgreement(t) - ExpectedAgreement(t) == Quotient(Excess(t), nn)
  {
    CountsOfSquare(t);
    GapsAsQuotients(t.N(), t.tp + t.fp, t.tp + t.fn, t.fn + t.tn, t.fp + t.tn, t.tp + t.tn, Discord(t), Excess(t),
                    ExpectedAgreement(t), ObservedAgreement(t));
  }

  lemma SquareOfCount(n: int)
    requires n > 0
    ensures Sq(n as real) > 0.0
  {
    MulPos(n as real, n as real);
  }

  lemma RatioOfQuotients(x: int, y: int, nn: int)
    requires nn > 0 && y > 0
    ensures Quotient(y, nn) > 0.0 && Quotient(x, nn) / Quotient(y, nn) == Quotient(x, y)
  {
    QuotientTimes(x, nn);
    QuotientTimes(y, nn);
    QuotientTimes(x, y);
    DivLe(y as real, 0.0, nn as real);
    var r := Quotient(x, y);
    assert (r * Quotient(y, nn)) * nn as real == r * (Quotient(y, nn) * nn as real);
    ScaledOrder(r * Quotient(y, nn), Quotient(x, nn), nn as real);
    DivLe(Quotient(x, nn), r, Quotient(y, nn));
  }

  lemma QuotientOfSquare(d: int, n: int, nn: int)
    requires n > 0 && nn == n * n && nn > 0
    ensures Quotient(d, nn) == 0.0 <==> d == 0
    ensures Quotient(d, nn) >= 0.0 <==> d >= 0
    ensures Quotient(d, nn) >= Quotient(1, n) <==> d >= n
    ensures Quotient(n, nn) == Quotient(1, n)
  {
    DivLe(d as real, 0.0, nn as real);
    DivLe(n as real, Quotient(1, n), nn as real);
    QuotientTimes(1, n);
    assert nn as real == n as real * n as real;
    assert Quotient(1, n) * nn as real == (Quotient(1, n) * n as real) * n as real;
    DivLe(d as real, Quotient(1, n), nn as real);
  }

  /** MAIN. One minus the expected agreement is zero exactly when every count lies in one agreeing cell,
      and otherwise at least one over the size of the table. */
  lemma ExpectedAgreementGap(t: Table)
    requires t.N() > 0
    ensures ExpectedAgreement(t) == 1.0 <==> t.tp == t.N() || t.tn == t.N()
    ensures ExpectedAgreement(t) != 1.0 ==> 1.0 - ExpectedAgreement(t) >= Quotient(1, t.N())
  {
    var nn := t.N() * t.N();
    AgreementGaps(t, nn);
    QuotientOfSquare(Discord(t), t.N(), nn);
    DiscordGap(t);
  }

  lemma BeyondChanceIs(po: real, pe: real, e: int, d: int, nn: int)
    requires nn > 0 && d >= 0 && po - pe == Quotient(e, nn) && 1.0 - pe == Quotient(d, nn)
    ensures BeyondChance(po, pe).Some? <==> Quotient(d, nn) >= TOLERANCE
    ensures BeyondChance(po, pe).Some? ==> d > 0 && BeyondChance(po, pe) == Some(Quotient(e, d))
  {
    DivLe(d as real, 0.0, nn as real);
    if d > 0 {
      RatioOfQuotients(e, d, nn);
    }
  }

  /** The kappa test, in counts. */
  lemma DefinedIff(t: Table)
    requires t.N() > 0
    ensures t.N() * t.N() > 0
    ensures KappaFromMatrix(t).Some? <==> Quotient(Discord(t), t.N() * t.N()) >= TOLERANCE
    ensures KappaFromMatrix(t).Some? ==> Discord(t) > 0 && KappaFromMatrix(t) == Some(Quotient(Excess(t), Discord(t)))
  {
    var nn := t.N() * t.N();
    AgreementGaps(t, nn);
    DiscordGap(t);
    BeyondChanceIs(ObservedAgreement(t), ExpectedAgreement(t), Excess(t), Discord(t), nn);
  }

  /** MAIN. The tolerance decides undefinedness exactly, on every table of some size, if and only if the
      size is at most ten to the twelfth: above it, one disagreement among agreements is refused. */
  lemma ToleranceIsExactIff(n: nat)
    requires n > 0
    ensures n <= LARGEST_EXACT <==>
            forall t: Table :: t.N() == n ==> (KappaFromMatrix(t).None? <==> ExpectedAgreement(t) == 1.0)
  {
    if n <= LARGEST_EXACT {
      forall t: Table | t.N() == n
        ensures KappaFromMatrix(t).None? <==> ExpectedAgreement(t) == 1.0
      {
        ExpectedAgreementGap(t);
        SmallQuotient(n);
      }
    } else {
      var t := Table(n - 1, 1, 0, 0);
      ExpectedAgreementGap(t);
      DefinedIff(t);
      QuotientOfSquare(Discord(t), n, n * n);
      SmallQuotient(n);
      assert Discord(t) == n;
      assert t.N() == n && KappaFromMatrix(t).None? && ExpectedAgreement(t) != 1.0;
    }
  }

  lemma SmallQuotient(n: nat)
    requires n > 0
    ensures Quotient(1, n) >= TOLERANCE <==> n <= LARGEST_EXACT
  {
    DivLe(1.0, TOLERANCE, n as real);
  }

  /** MAIN. A defined kappa is 2(tp tn - fp fn) over its marginal products; it lies in [-1, 1], is one
      exactly without disagreement, minus one exactly with no agreement and balanced disagreement, and
      zero exactly when the diagonals balance. */
  lemma KappaRange(t: Table)
    requires t.N() > 0 && KappaFromMatrix(t).Some?
    ensures var k := KappaFromMatrix(t).value;
            && Discord(t) > 0 && k == Quotient(Excess(t), Discord(t))
            && -1.0 <= k <= 1.0
            && (k == 1.0 <==> t.fp == 0 && t.fn == 0)
            && (k == -1.0 <==> t.tp == 0 && t.tn == 0 && t.fp == t.fn)
            && (k == 0.0 <==> t.tp * t.tn == t.fp * t.fn)
  {
    DefinedIff(t);
    ExcessBounds(t);
    var x, d := Excess(t) as real, Discord(t) as real;
    DivLe(x, 1.0, d);
    DivLe(x, -1.0, d);
    DivLe(x, 0.0, d);
  }

  lemma SymmetricCounts(t: Table)
    ensures Discord(t.Exchanged()) == Discord(t) == Discord(t.Inverted())
    ensures Excess(t.Exchanged()) == Excess(t) == Excess(t.Inverted())
    ensures t.Exchanged().N() == t.N() == t.Inverted().N()
  {
    ExpandDiscord(t);
    ExpandDiscord(t.Exchanged());
    ExpandDiscord(t.Inverted());
  }

  /** MAIN. Neither exchanging the two raters nor inverting every verdict changes kappa. */
  lemma KappaSymmetric(t: Table)
    requires t.N() > 0
    ensures t.Exchanged().N() > 0 && KappaFromMatrix(t.Exchanged()) == KappaFromMatrix(t)
    ensures t.Inverted().N() > 0 && KappaFromMatrix(t.Inverted()) == KappaFromMatrix(t)
  {
    SymmetricCounts(t);
    DefinedIff(t);
    DefinedIff(t.Exchanged());
    DefinedIff(t.Inverted());
  }
}
