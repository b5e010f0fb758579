/** Fleiss' kappa and its bootstrap interval, after `evals/kappa_stats.py`, over exact reals. */
module KappaStats {
  import opened Counting
  import opened Numbers
  import opened Options
  import opened Sums
  import RateStats

  datatype Vote = Cast(value: bool) | Inconclusive

  datatype KappaResult = KappaResult(kappa: Option<real>, observed: real, chance: real, nItems: nat)

  function Available(votes: seq<Vote>): seq<bool> {
    if votes == [] then []
    else Available(votes[..|votes| - 1]) + match votes[|votes| - 1] case Cast(v) => [v] case Inconclusive => []
  }

  /** The items that keep at least two real votes. */
  function Rateable(items: seq<seq<Vote>>): seq<seq<bool>> {
    if items == [] then []
    else
      var last := Available(items[|items| - 1]);
      Rateable(items[..|items| - 1]) + if |last| >= 2 then [last] else []
  }

  /** Twice the pairs of raters on an item that agree. */
  function AgreeTwice(v: seq<bool>): int {
    var t := CountTrue(v);
    var f := |v| - t;
    t * (t - 1) + f * (f - 1)
  }

  function PairsTwice(n: int): int { n * (n - 1) }

  lemma PairsTwicePositive(n: int)
    requires n >= 2
    ensures PairsTwice(n) >= 2
  {
    assert (n - 2) * (n + 1) >= 0;
  }

  function ItemAgreement(v: seq<bool>): real
    requires |v| >= 2
  {
    PairsTwicePositive(|v|);
    Quotient(AgreeTwice(v), PairsTwice(|v|))
  }

  ghost predicate AllRateable(kept: seq<seq<bool>>) {
    forall i :: 0 <= i < |kept| ==> |kept[i]| >= 2
  }

  function AgreementSum(kept: seq<seq<bool>>): real
    requires AllRateable(kept)
  {
    if kept == [] then 0.0 else AgreementSum(kept[..|kept| - 1]) + ItemAgreement(kept[|kept| - 1])
  }

  function Length(v: seq<bool>): int { |v| }

  function Trues(v: seq<bool>): int { CountTrue(v) }

  function Mean(total: real, n: nat): real
    requires n > 0
  {
    total / n as real
  }

  function Observed(kept: seq<seq<bool>>): real
    requires AllRateable(kept) && kept != []
  {
    Mean(AgreementSum(kept), |kept|)
  }

  /** The share of all votes that are true. */
  function PTrue(kept: seq<seq<bool>>): real
    requires AllRateable(kept) && kept != []
  {
    VotesExist(kept);
    Quotient(SumOf(kept, Trues), SumOf(kept, Length))
  }

  function Chance(p: real): real { p * p + (1.0 - p) * (1.0 - p) }

  function Rescaled(observed: real, chance: real): real
    requires chance < 1.0
  {
    (observed - chance) / (1.0 - chance)
  }

  function KappaAt(observed: real, chance: real): Option<real> {
    if chance >= 1.0 then None else Some(Rescaled(observed, chance))
  }

  /** The kappa of the items that are kept. */
  function KappaOf(kept: seq<seq<bool>>): Option<real>
    requires AllRateable(kept) && kept != []
  {
    KappaAt(Observed(kept), Chance(PTrue(kept)))
  }

  function Fleiss(items: seq<seq<Vote>>): KappaResult {
    var kept := Rateable(items);
    if kept == [] then KappaResult(None, 0.0, 0.0, 0)
    else
      RateableKeepsPairs(items);
      var observed, chance := Observed(kept), Chance(PTrue(kept));
      KappaResult(KappaOf(kept), observed, chance, |kept|)
  }

  lemma {:induction false} RateableKeepsPairs(items: seq<seq<Vote>>)
    ensures AllRateable(Rateable(items))
  {
    if items != [] { RateableKeepsPairs(items[..|items| - 1]); }
  }

  lemma {:induction false} VotesExist(kept: seq<seq<bool>>)
    requires AllRateable(kept)
    ensures 2 * |kept| <= SumOf(kept, Length)
    ensures 0 <= SumOf(kept, Trues) <= SumOf(kept, Length)
  {
    if kept != [] {
      VotesExist(kept[..|kept| - 1]);
      CountTrueBound(kept[|kept| - 1]);
    }
  }

  method KeepRateable(items: seq<seq<Vote>>) returns (kept: seq<seq<bool>>)
    ensures kept == Rateable(items)
  {
    kept := [];
    for n := 0 to |items|
      invariant kept == Rateable(items[..n])
    {
      assert items[..n + 1][..n] == items[..n];
      var available := Available(items[n]);
      if |available| >= 2 {
        kept := kept + [available];
      }
    }
    assert items[..|items|] == items;
  }

  /** The loop over the rateable items with its three accumulators. */
  method FleissKappa(items: seq<seq<Vote>>) returns (r: KappaResult)
    ensures r == Fleiss(items)
  {
    var kept := KeepRateable(items);
    RateableKeepsPairs(items);
    if kept == [] {
      return KappaResult(None, 0.0, 0.0, 0);
    }
    var agreements, nTrue, nVotes := 0.0, 0, 0;
    for n := 0 to |kept|
      invariant agreements == AgreementSum(kept[..n])
      invariant nTrue == SumOf(kept[..n], Trues) && nVotes == SumOf(kept[..n], Length)
    {
      assert kept[..n + 1][..n] == kept[..n];
      var v := kept[n];
      agreements := agreements + ItemAgreement(v);
      nTrue, nVotes := nTrue + CountTrue(v), nVotes + |v|;
    }
    assert kept[..|kept|] == kept;
    VotesExist(kept);
    var observed := agreements / |kept| as real;
    var chance := Chance(Quotient(nTrue, nVotes));
    r := KappaResult(KappaAt(observed, chance), observed, chance, |kept|);
  }

  // ----- disagreement -----

  predicate UnanimousVotes(v: seq<bool>) {
    (forall i :: 0 <= i < |v| ==> v[i]) || (forall i :: 0 <= i < |v| ==> !v[i])
  }

  predicate AllUnanimous(kept: seq<seq<bool>>) {
    forall i :: 0 <= i < |kept| ==> UnanimousVotes(kept[i])
  }

  /** What an item falls short of full agreement: 2 t f ordered pairs. */
  lemma AgreementGap(v: seq<bool>)
    requires |v| >= 2
    ensures AgreeTwice(v) == PairsTwice(|v|) - 2 * (CountTrue(v) * (|v| - CountTrue(v)))
    ensures ItemAgreement(v) <= 1.0
    ensures ItemAgreement(v) == 1.0 <==> UnanimousVotes(v)
  {
    var t, n := CountTrue(v), |v|;
    CountTrueBound(v);
    GapAlgebra(t, n);
    ProductSign(t, n - t);
    PairsTwicePositive(n);
    ShareOfGap(AgreeTwice(v), PairsTwice(n), t * (n - t));
  }

  lemma ShareOfGap(agree: int, pairs: int, gap: int)
    requires pairs > 0 && gap >= 0 && agree == pairs - 2 * gap
    ensures Quotient(agree, pairs) <= 1.0
    ensures Quotient(agree, pairs) == 1.0 <==> gap == 0
  {
    DivLe(agree as real, 1.0, pairs as real);
  }

  lemma GapAlgebra(t: int, n: int)
    ensures t * (t - 1) + (n - t) * (n - t - 1) == n * (n - 1) - 2 * (t * (n - t))
  {}

  lemma {:induction false} AgreementSumBound(kept: seq<seq<bool>>)
    requires AllRateable(kept)
    ensures AgreementSum(kept) <= |kept| as real
    ensures AgreementSum(kept) == |kept| as real <==> AllUnanimous(kept)
  {
    if kept != [] {
      var n := |kept| - 1;
      AgreementSumBound(kept[..n]);
      AgreementGap(kept[n]);
      assert forall i :: 0 <= i < |kept| ==> kept[i] == if i == n then kept[n] else kept[..n][i];
    }
  }

  lemma ObservedAtMostOne(kept: seq<seq<bool>>)
    requires AllRateable(kept) && kept != []
    ensures Observed(kept) <= 1.0
    ensures Observed(kept) == 1.0 <==> AllUnanimous(kept)
  {
    AgreementSumBound(kept);
    DivLe(AgreementSum(kept), 1.0, |kept| as real);
  }

  lemma ChanceGap(p: real)
    ensures 1.0 - Chance(p) == 2.0 * (p * (1.0 - p))
  {}

  lemma PTrueRange(kept: seq<seq<bool>>)
    requires AllRateable(kept) && kept != []
    ensures 0.0 <= PTrue(kept) <= 1.0
    ensures PTrue(kept) == 0.0 <==> SumOf(kept, Trues) == 0
    ensures PTrue(kept) == 1.0 <==> SumOf(kept, Trues) == SumOf(kept, Length)
  {
    VotesExist(kept);
    DivLe(SumOf(kept, Trues) as real, 0.0, SumOf(kept, Length) as real);
    DivLe(SumOf(kept, Trues) as real, 1.0, SumOf(kept, Length) as real);
  }

  lemma ChanceBelowOne(kept: seq<seq<bool>>)
    requires AllRateable(kept) && kept != []
    ensures Chance(PTrue(kept)) >= 1.0 <==> SumOf(kept, Trues) == 0 || SumOf(kept, Trues) == SumOf(kept, Length)
    ensures Chance(PTrue(kept)) <= 1.0
  {
    PTrueRange(kept);
    ChanceGap(PTrue(kept));
    MulNonNeg(PTrue(kept), 1.0 - PTrue(kept));
    ZeroProduct(PTrue(kept), 1.0 - PTrue(kept));
  }

  ghost predicate AllVotes(kept: seq<seq<bool>>, b: bool) {
    forall i, j :: 0 <= i < |kept| && 0 <= j < |kept[i]| ==> kept[i][j] == b
  }

  lemma {:induction false} OneCategory(kept: seq<seq<bool>>, b: bool)
    requires AllRateable(kept)
    ensures SumOf(kept, Trues) == (if b then SumOf(kept, Length) else 0) <==> AllVotes(kept, b)
  {
    if kept != [] {
      var n := |kept| - 1;
      OneCategory(kept[..n], b);
      VotesExist(kept[..n]);
      CountTrueBound(kept[n]);
      assert forall i :: 0 <= i < |kept| ==> kept[i] == if i == n then kept[n] else kept[..n][i];
    }
  }

  // ----- the theorems -----

  /** MAIN. Kappa is undefined exactly when no item keeps two votes or every kept vote falls in
      one category. */
  lemma UndefinedIffNoVariance(items: seq<seq<Vote>>)
    ensures var kept := Rateable(items);
            Fleiss(items).kappa.None? <==>
            || kept == []
            || (exists b :: AllVotes(kept, b))
  {
    var kept := Rateable(items);
    RateableKeepsPairs(items);
    if kept != [] {
      ChanceBelowOne(kept);
      OneCategory(kept, true);
      OneCategory(kept, false);
      assert SumOf(kept, Trues) == SumOf(kept, Length) ==> AllVotes(kept, true);
      assert SumOf(kept, Trues) == 0 ==> AllVotes(kept, false);
    }
  }

  lemma RescaledRange(observed: real, chance: real)
    requires observed <= 1.0 && chance < 1.0
    ensures Rescaled(observed, chance) <= 1.0
    ensures Rescaled(observed, chance) == 1.0 <==> observed == 1.0
  {
    DivLe(observed - chance, 1.0, 1.0 - chance);
  }

  lemma KeptAtMostOne(kept: seq<seq<bool>>)
    requires kept != [] && AllRateable(kept) && KappaOf(kept).Some?
    ensures KappaOf(kept).value <= 1.0
    ensures KappaOf(kept).value == 1.0 <==> AllUnanimous(kept)
  {
    ObservedAtMostOne(kept);
    RescaledRange(Observed(kept), Chance(PTrue(kept)));
  }

  /** MAIN. A defined kappa is at most 1, and 1 exactly when every rateable item is unanimous. */
  lemma KappaAtMostOne(items: seq<seq<Vote>>)
    requires Fleiss(items).kappa.Some?
    ensures Fleiss(items).kappa.value <= 1.0
    ensures Fleiss(items).kappa.value == 1.0 <==> AllUnanimous(Rateable(items))
  {
    RateableKeepsPairs(items);
    KeptAtMostOne(Rateable(items));
  }

  // ----- equal rater counts: the lower bound -----

  ghost predicate SameRaters(kept: seq<seq<bool>>, m: nat) {
    forall i :: 0 <= i < |kept| ==> |kept[i]| == m
  }

  /** The true votes of each item. */
  function TrueCounts(kept: seq<seq<bool>>): seq<int> {
    seq(|kept|, i requires 0 <= i < |kept| => CountTrue(kept[i]))
  }

  lemma {:induction false} EqualRaterTotals(kept: seq<seq<bool>>, m: nat)
    requires SameRaters(kept, m)
    ensures SumOf(kept, Trues) == Sum(TrueCounts(kept)) && SumOf(kept, Length) == |kept| * m
    ensures SumOf(kept, AgreeTwice)
            == |kept| * PairsTwice(m) - 2 * (m * Sum(TrueCounts(kept)) - SumSq(TrueCounts(kept)))
  {
    if kept != [] {
      var n := |kept| - 1;
      EqualRaterTotals(kept[..n], m);
      assert TrueCounts(kept)[..n] == TrueCounts(kept[..n]);
      AddItem(n, m, CountTrue(kept[n]), Sum(TrueCounts(kept[..n])), PairsTwice(m));
    }
  }

  lemma AddItem(n: int, m: int, t: int, s1: int, pairs: int)
    ensures (n + 1) * m == n * m + m && (n + 1) * pairs == n * pairs + pairs
    ensures m * (s1 + t) == m * s1 + m * t
    ensures t * (t - 1) + (m - t) * (m - t - 1) == m * (m - 1) - 2 * (m * t - Square(t))
  {}

  function Scaled(a: real, p: int): real { a * p as real }

  /** If p times each item's agreement is its pair count, p times their sum is the total. */
  lemma {:induction false} SumOfShares(kept: seq<seq<bool>>, p: int)
    requires AllRateable(kept)
    requires forall i :: 0 <= i < |kept| ==> Scaled(ItemAgreement(kept[i]), p) == AgreeTwice(kept[i]) as real
    ensures Scaled(AgreementSum(kept), p) == SumOf(kept, AgreeTwice) as real
  {
    if kept != [] {
      var rest, last := kept[..|kept| - 1], kept[|kept| - 1];
      SumOfShares(rest, p);
      AddShares(AgreementSum(rest), ItemAgreement(last), p, SumOf(rest, AgreeTwice), AgreeTwice(last));
    }
  }

  lemma ItemShare(v: seq<bool>, m: nat)
    requires |v| == m >= 2
    ensures Scaled(ItemAgreement(v), PairsTwice(m)) == AgreeTwice(v) as real
  {
    PairsTwicePositive(m);
    QuotientTimes(AgreeTwice(v), PairsTwice(m));
  }

  lemma AddShares(a: real, b: real, p: int, x: int, y: int)
    requires Scaled(a, p) == x as real && Scaled(b, p) == y as real
    ensures Scaled(a + b, p) == (x + y) as real
  {}

  /** With equal rater counts, the observed agreement is one quotient of pair counts. */
  lemma ObservedEqual(kept: seq<seq<bool>>, m: nat)
    requires m >= 2 && SameRaters(kept, m) && kept != [] && AllRateable(kept)
    ensures |kept| * PairsTwice(m) > 0
    ensures Observed(kept) == Quotient(SumOf(kept, AgreeTwice), |kept| * PairsTwice(m))
  {
    forall i | 0 <= i < |kept| { ItemShare(kept[i], m); }
    SumOfShares(kept, PairsTwice(m));
    PairsTwicePositive(m);
    NestedQuotient(AgreementSum(kept), PairsTwice(m), SumOf(kept, AgreeTwice), |kept|);
  }

  lemma NestedQuotient(a: real, p: int, total: int, n: nat)
    requires n > 0 && p > 0 && Scaled(a, p) == total as real
    ensures n * p > 0 && Mean(a, n) == Quotient(total, n * p)
  {
    ProductSign(n, p);
    DivLe(a, 0.0, n as real);
    NestedProduct(Mean(a, n), n, p, a);
    DivLe(total as real, Mean(a, n), (n * p) as real);
  }

  lemma NestedProduct(q: real, n: int, p: int, a: real)
    requires q * n as real == a
    ensures q * (n * p) as real == a * p as real
  {
    assert (n * p) as real == n as real * p as real;
  }

  lemma KeptLowerBound(kept: seq<seq<bool>>, m: nat)
    requires m >= 2 && SameRaters(kept, m) && kept != [] && AllRateable(kept) && KappaOf(kept).Some?
    ensures KappaOf(kept).value >= -1.0 / (m - 1) as real
  {
    EqualRaterKappa(kept, m);
    RescaledLower(Observed(kept), Chance(PTrue(kept)), m);
  }

  /** MAIN. When every rateable item has exactly m votes, a defined kappa is at least -1/(m - 1). */
  lemma KappaLowerBound(items: seq<seq<Vote>>, m: nat)
    requires m >= 2 && SameRaters(Rateable(items), m)
    requires Fleiss(items).kappa.Some?
    ensures Fleiss(items).kappa.value >= -1.0 / (m - 1) as real
  {
    RateableKeepsPairs(items);
    KeptLowerBound(Rateable(items), m);
  }

  /** Disagreement is at most m/(m - 1) of what chance would give. */
  ghost predicate BoundedByChance(observed: real, chance: real, m: nat) {
    (m - 1) as real * (1.0 - observed) <= m as real * (1.0 - chance)
  }

  /** From Cauchy-Schwarz on the true counts. */
  lemma EqualRaterKappa(kept: seq<seq<bool>>, m: nat)
    requires m >= 2 && SameRaters(kept, m) && kept != [] && AllRateable(kept)
    ensures BoundedByChance(Observed(kept), Chance(PTrue(kept)), m)
  {
    ObservedEqual(kept, m);
    PTrueEqual(kept, m);
    SpreadOfTrueCounts(kept);
    EqualRaterTotals(kept, m);
    BoundFromTotals(Observed(kept), PTrue(kept), |kept|, m, PairsTwice(m), |kept| * PairsTwice(m),
                    Sum(TrueCounts(kept)), SumSq(TrueCounts(kept)), SumOf(kept, AgreeTwice));
  }

  lemma BoundFromTotals(o: real, p: real, n: nat, m: nat, pairs: int, all: int, s1: int, s2: int, agree: int)
    requires n >= 1 && m >= 2 && n * m != 0 && pairs == PairsTwice(m) && all == n * pairs > 0
    requires agree == all - 2 * (m * s1 - s2)
    requires o == Quotient(agree, all) && p == Quotient(s1, n * m)
    requires n * s2 - Square(s1) >= 0
    ensures BoundedByChance(o, Chance(p), m)
  {
    DisagreementBound(o, p, n, m, s1, s2, agree);
  }

  lemma PTrueEqual(kept: seq<seq<bool>>, m: nat)
    requires m >= 2 && SameRaters(kept, m) && kept != [] && AllRateable(kept)
    ensures |kept| * m != 0 && PTrue(kept) == Quotient(Sum(TrueCounts(kept)), |kept| * m)
  {
    EqualRaterTotals(kept, m);
    VotesExist(kept);
  }

  lemma SpreadOfTrueCounts(kept: seq<seq<bool>>)
    ensures |kept| * SumSq(TrueCounts(kept)) - Square(Sum(TrueCounts(kept))) >= 0
  {
    SpreadNonNeg(TrueCounts(kept));
  }

  lemma DisagreementBound(o: real, p: real, n: nat, m: nat, s1: int, s2: int, agree: int)
    requires n >= 1 && m >= 2 && n * m != 0 && n * PairsTwice(m) > 0
    requires agree == n * PairsTwice(m) - 2 * (m * s1 - s2)
    requires o == Quotient(agree, n * PairsTwice(m)) && p == Quotient(s1, n * m)
    requires n * s2 - Square(s1) >= 0
    ensures BoundedByChance(o, Chance(p), m)
  {
    GapEquation(o, n, m, s1, s2, agree);
    ShareEquation(p, n, m, s1);
    SpreadAsReal(n, s1, s2);
    DisagreementReal(1.0 - o, p, n as real, m as real, s1 as real, s2 as real);
    BoundFromReal(o, p, m);
  }

  lemma ShareEquation(p: real, n: nat, m: nat, s1: int)
    requires n * m > 0 && p == Quotient(s1, n * m)
    ensures p * (n as real * m as real) == s1 as real
  {
    QuotientTimes(s1, n * m);
    ProductAsReal(n, m);
  }

  lemma BoundFromReal(o: real, p: real, m: nat)
    requires m >= 2 && (m as real - 1.0) * (1.0 - o) <= m as real * (2.0 * (p * (1.0 - p)))
    ensures BoundedByChance(o, Chance(p), m)
  {
    ChanceGap(p);
    assert (m - 1) as real == m as real - 1.0;
  }

  lemma GapEquation(o: real, n: nat, m: nat, s1: int, s2: int, agree: int)
    requires n * PairsTwice(m) > 0
    requires agree == n * PairsTwice(m) - 2 * (m * s1 - s2) && o == Quotient(agree, n * PairsTwice(m))
    ensures (1.0 - o) * (n as real * (m as real * (m as real - 1.0))) == 2.0 * (m as real * s1 as real - s2 as real)
  {
    QuotientTimes(agree, n * PairsTwice(m));
    PairsAsReal(n, m);
    ProductAsReal(m, s1);
    ShareOfRest(o, (n * PairsTwice(m)) as real, m as real * s1 as real - s2 as real);
  }

  lemma ShareOfRest(o: real, all: real, x: real)
    requires o * all == all - 2.0 * x
    ensures (1.0 - o) * all == 2.0 * x
  {}

  lemma ProductAsReal(a: int, b: int)
    ensures (a * b) as real == a as real * b as real
  {}

  lemma PairsAsReal(n: int, m: int)
    ensures (n * PairsTwice(m)) as real == n as real * (m as real * (m as real - 1.0))
  {
    ProductAsReal(n, PairsTwice(m));
    ProductAsReal(m, m - 1);
  }

  lemma SpreadAsReal(n: int, s1: int, s2: int)
    requires n * s2 - Square(s1) >= 0
    ensures n as real * s2 as real - s1 as real * s1 as real >= 0.0
  {
    ProductAsReal(n, s2);
    ProductAsReal(s1, s1);
  }

  lemma DisagreementReal(d: real, p: real, n: real, m: real, s1: real, s2: real)
    requires n >= 1.0 && m >= 2.0
    requires d * (n * (m * (m - 1.0))) == 2.0 * (m * s1 - s2)
    requires p * (n * m) == s1
    requires n * s2 - s1 * s1 >= 0.0
    ensures (m - 1.0) * d <= m * (2.0 * (p * (1.0 - p)))
  {
    LeftScaled(d, n, m, 2.0 * (m * s1 - s2));
    RightScaled(p, n, m, s1);
    assert n * (2.0 * (m * s1 - s2)) <= 2.0 * (n * m * s1 - s1 * s1);
    MulPos(n, m);
    MulPos(n, n * m);
    ScaledOrder((m - 1.0) * d, m * (2.0 * (p * (1.0 - p))), n * (n * m));
  }

  lemma LeftScaled(d: real, n: real, m: real, x: real)
    requires d * (n * (m * (m - 1.0))) == x
    ensures n * (n * m) * ((m - 1.0) * d) == n * x
  {
    assert d * (n * (m * (m - 1.0))) * n == n * (n * m) * ((m - 1.0) * d);
  }

  lemma RightScaled(p: real, n: real, m: real, s1: real)
    requires p * (n * m) == s1
    ensures n * (n * m) * (m * (2.0 * (p * (1.0 - p)))) == 2.0 * (n * m * s1 - s1 * s1)
  {
    var w := n * m;
    assert s1 * s1 == p * p * (w * w);
    assert n * m * s1 == p * (w * w);
    assert n * (n * m) * (m * (2.0 * (p * (1.0 - p)))) == 2.0 * (w * w * (p * (1.0 - p)));
  }

  lemma RescaledLower(observed: real, chance: real, m: nat)
    requires chance < 1.0 && m >= 2
    requires BoundedByChance(observed, chance, m)
    ensures Rescaled(observed, chance) >= -1.0 / (m - 1) as real
  {
    DivLe(-1.0, Rescaled(observed, chance), (m - 1) as real);
    DivLe(observed - chance, 0.0, 1.0 - chance);
    LowerAlgebra(Rescaled(observed, chance), observed, 1.0 - chance, (m - 1) as real);
  }

  lemma LowerAlgebra(r: real, o: real, e: real, k: real)
    requires e > 0.0 && k > 0.0 && r * e == o - (1.0 - e) && k * (1.0 - o) <= (k + 1.0) * e
    ensures r * k >= -1.0
  {
    assert (r * k + 1.0) * e == k * (r * e) + e;
    if r * k + 1.0 < 0.0 { MulPos(-(r * k + 1.0), e); }
  }

  // ----- inversion -----

  function InvertVotes(votes: seq<Vote>): seq<Vote> {
    seq(|votes|, i requires 0 <= i < |votes| =>
      match votes[i] case Cast(v) => Cast(!v) case Inconclusive => Inconclusive)
  }

  function InvertItems(items: seq<seq<Vote>>): seq<seq<Vote>> {
    seq(|items|, i requires 0 <= i < |items| => InvertVotes(items[i]))
  }

  function InvertKept(kept: seq<seq<bool>>): seq<seq<bool>> {
    seq(|kept|, i requires 0 <= i < |kept| => Inverted(kept[i]))
  }

  lemma {:induction false} AvailableInverts(votes: seq<Vote>)
    ensures Available(InvertVotes(votes)) == Inverted(Available(votes))
  {
    if votes != [] {
      AvailableInverts(votes[..|votes| - 1]);
      assert InvertVotes(votes)[..|votes| - 1] == InvertVotes(votes[..|votes| - 1]);
    }
  }

  lemma {:induction false} RateableInverts(items: seq<seq<Vote>>)
    ensures Rateable(InvertItems(items)) == InvertKept(Rateable(items))
  {
    if items != [] {
      var n := |items| - 1;
      RateableInverts(items[..n]);
      AvailableInverts(items[n]);
      assert InvertItems(items)[..n] == InvertItems(items[..n]);
    }
  }

  lemma AgreeTwiceInverts(v: seq<bool>)
    ensures AgreeTwice(Inverted(v)) == AgreeTwice(v)
  {
    CountInverted(v);
  }

  lemma {:induction false} KeptInverts(kept: seq<seq<bool>>)
    requires AllRateable(kept)
    ensures AllRateable(InvertKept(kept))
    ensures AgreementSum(InvertKept(kept)) == AgreementSum(kept)
    ensures SumOf(InvertKept(kept), Length) == SumOf(kept, Length)
    ensures SumOf(InvertKept(kept), Trues) == SumOf(kept, Length) - SumOf(kept, Trues)
  {
    if kept != [] {
      var n := |kept| - 1;
      KeptInverts(kept[..n]);
      assert InvertKept(kept)[..n] == InvertKept(kept[..n]);
      CountInverted(kept[n]);
      AgreeTwiceInverts(kept[n]);
    }
  }

  /** MAIN. Calling every pass a fail and every fail a pass leaves the whole result as it is. */
  lemma KappaInversionInvariant(items: seq<seq<Vote>>)
    ensures Fleiss(InvertItems(items)) == Fleiss(items)
  {
    var kept := Rateable(items);
    RateableKeepsPairs(items);
    RateableInverts(items);
    KeptInverts(kept);
    if kept != [] {
      VotesExist(kept);
      ComplementShare(SumOf(kept, Trues), SumOf(kept, Length));
      assert PTrue(InvertKept(kept)) == 1.0 - PTrue(kept);
      ChanceComplement(PTrue(kept));
    }
  }

  lemma ComplementShare(t: int, n: int)
    requires n > 0
    ensures Quotient(n - t, n) == 1.0 - Quotient(t, n)
  {
    QuotientTimes(t, n);
    DivLe((n - t) as real, 1.0 - Quotient(t, n), n as real);
  }

  lemma ChanceComplement(p: real)
    ensures Chance(1.0 - p) == Chance(p)
  {}

  // ----- ragged panels: no lower bound -----

  /** One item on which n judges all say yes, and one on which two judges differ. */
  function Ragged(n: nat): seq<seq<Vote>> { [seq(n, i => Cast(true)), [Cast(true), Cast(false)]] }

  lemma {:induction false} AllCast(votes: seq<Vote>)
    requires forall i :: 0 <= i < |votes| ==> votes[i] == Cast(true)
    ensures |Available(votes)| == |votes| && forall i :: 0 <= i < |votes| ==> Available(votes)[i]
  {
    if votes != [] { AllCast(votes[..|votes| - 1]); }
  }

  lemma RaggedKept(n: nat)
    requires n >= 2
    ensures var ayes := Available(Ragged(n)[0]);
            && |ayes| == n && (forall i :: 0 <= i < n ==> ayes[i])
            && Rateable(Ragged(n)) == [ayes, [true, false]]
  {
    var items := Ragged(n);
    AllCast(items[0]);
    assert items[1][..1] == [Cast(true)] && items[1][..1][..0] == [];
    assert Available(items[1][..1]) == [] + [true] == [true];
    assert Available(items[1]) == [true] + [false] == [true, false];
    assert items[..1] == [items[0]] && items[..1][..0] == [];
    assert Rateable(items[..1]) == [] + [Available(items[0])] == [Available(items[0])];
    assert Rateable(items) == [Available(items[0])] + [Available(items[1])];
  }

  lemma SumOfTwo(v: seq<bool>, u: seq<bool>, f: seq<bool> -> int)
    ensures SumOf([v, u], f) == f(v) + f(u)
  {
    assert [v, u][..1] == [v] && [v][..0] == [];
    assert SumOf([v], f) == f(v);
  }

  lemma SplitItem()
    ensures CountTrue([true, false]) == 1 && ItemAgreement([true, false]) == 0.0
  {
    assert [true, false][..1] == [true] && [true][..0] == [];
    assert CountTrue([true]) == 1;
    assert AgreeTwice([true, false]) == 0;
    DivLe(0.0, 0.0, PairsTwice(2) as real);
  }

  lemma RaggedShares(ayes: seq<bool>)
    requires |ayes| >= 2 && forall i :: 0 <= i < |ayes| ==> ayes[i]
    ensures var kept := [ayes, [true, false]];
            AllRateable(kept) && Observed(kept) == 0.5 && PTrue(kept) == Quotient(|ayes| + 1, |ayes| + 2)
  {
    var kept := [ayes, [true, false]];
    CountTrueBound(ayes);
    SplitItem();
    AgreementGap(ayes);
    assert kept[..1] == [ayes] && kept[..1][..0] == [];
    assert AgreementSum(kept[..1]) == 0.0 + ItemAgreement(ayes);
    SumOfTwo(ayes, [true, false], Trues);
    SumOfTwo(ayes, [true, false], Length);
  }

  /** With half of the agreement observed, and all votes but one of N true, kappa is below 1 - N/4. */
  lemma RaggedAlgebra(q: real, n: real, bound: real)
    requires n >= 4.0 && q * n == n - 1.0 && n >= 4.0 * (1.0 - bound)
    ensures Chance(q) < 1.0 && Rescaled(0.5, Chance(q)) < bound
  {
    ChanceGap(q);
    GapTimesSquare(q, n, 1.0 - Chance(q));
    MulPos(n, n);
    ScaledOrder(1.0 - Chance(q), 0.0, n * n);
    BelowBound(1.0 - Chance(q), n, bound);
    RescaledBelow(0.5, Chance(q), bound);
  }

  lemma RescaledBelow(observed: real, chance: real, bound: real)
    requires chance < 1.0 && observed - chance < bound * (1.0 - chance)
    ensures Rescaled(observed, chance) < bound
  {
    DivLe(observed - chance, bound, 1.0 - chance);
  }

  lemma GapTimesSquare(q: real, n: real, e: real)
    requires q * n == n - 1.0 && e == 2.0 * (q * (1.0 - q))
    ensures n * n * e == 2.0 * (n - 1.0)
  {
    assert n * n * e == 2.0 * ((q * n) * (n - q * n));
  }

  lemma BelowBound(e: real, n: real, bound: real)
    requires n >= 4.0 && n * n * e == 2.0 * (n - 1.0) && n >= 4.0 * (1.0 - bound)
    ensures e - 0.5 < bound * e
  {
    MulMono(1.0 - bound, n / 4.0, n - 1.0);
    assert n * n * ((1.0 - bound) * e) == (1.0 - bound) * (2.0 * (n - 1.0));
    assert n / 4.0 * (n - 1.0) == n * n / 4.0 - n / 4.0;
    MulPos(n, n);
    ScaledOrder((1.0 - bound) * e, 0.5, n * n);
  }

  /** MAIN. Without equal rater counts there is no lower bound: below every number lies the kappa of some panel. */
  lemma RaggedKappaIsUnbounded(bound: real)
    ensures exists items :: Fleiss(items).kappa.Some? && Fleiss(items).kappa.value < bound
  {
    var n: nat := if bound >= 1.0 then 2 else (4.0 * (1.0 - bound)).Floor + 2;
    QuotientTimes(n + 1, n + 2);
    RaggedAlgebra(Quotient(n + 1, n + 2), (n + 2) as real, bound);
    RaggedIsKappa(n, bound);
  }

  lemma RaggedIsKappa(n: nat, bound: real)
    requires n >= 2
    requires Chance(Quotient(n + 1, n + 2)) < 1.0 && Rescaled(0.5, Chance(Quotient(n + 1, n + 2))) < bound
    ensures Fleiss(Ragged(n)).kappa.Some? && Fleiss(Ragged(n)).kappa.value < bound
  {
    RaggedKept(n);
    RaggedShares(Available(Ragged(n)[0]));
    RateableKeepsPairs(Ragged(n));
  }
}
