/** The design-effect corrected pass rate of `evals/battery_rates.py`, over exact reals. */
module BatteryRates {
  import opened Numbers
  import opened Counting
  import opened Grouping
  import RateStats

  /** Pass count and repetition count of one case. */
  datatype CaseCount = CaseCount(passes: nat, k: nat)

  /** What a group of at least one outcome always gives. */
  ghost predicate WellFormed(cs: seq<CaseCount>) {
    forall i :: 0 <= i < |cs| ==> 0 < cs[i].k && cs[i].passes <= cs[i].k
  }

  function Records(cs: seq<CaseCount>): nat {
    if cs == [] then 0 else cs[0].k + Records(cs[1..])
  }

  function Passes(cs: seq<CaseCount>): nat {
    if cs == [] then 0 else cs[0].passes + Passes(cs[1..])
  }

  function CaseRate(c: CaseCount): real
    requires 0 < c.k
  {
    RateStats.Share(c.passes, c.k)
  }

  function BetweenTerm(c: CaseCount, mean: real): real
    requires 0 < c.k
  {
    c.k as real * Sq(CaseRate(c) - mean)
  }

  function WithinTerm(c: CaseCount): real
    requires 0 < c.k
  {
    c.k as real * CaseRate(c) * (1.0 - CaseRate(c))
  }

  function SsBetween(cs: seq<CaseCount>, mean: real): real
    requires WellFormed(cs)
  {
    if cs == [] then 0.0 else BetweenTerm(cs[0], mean) + SsBetween(cs[1..], mean)
  }

  function SsWithin(cs: seq<CaseCount>): real
    requires WellFormed(cs)
  {
    if cs == [] then 0.0 else WithinTerm(cs[0]) + SsWithin(cs[1..])
  }

  function GrandMean(cs: seq<CaseCount>): real
    requires WellFormed(cs) && cs != []
  {
    RecordsAtLeastCases(cs);
    RateStats.Share(Passes(cs), Records(cs))
  }

  /** The clamped ANOVA estimator from the two mean squares. */
  function IccRatio(msb: real, msw: real, kBar: real): real {
    var denominator := msb + (kBar - 1.0) * msw;
    if denominator <= 0.0 then 0.0 else Max(0.0, Min(1.0, (msb - msw) / denominator))
  }

  function IccAnova(cs: seq<CaseCount>): real
    requires WellFormed(cs)
  {
    if |cs| <= 1 then 0.0
    else
      RecordsAtLeastCases(cs);
      var n, m := Records(cs) as real, |cs| as real;
      if Records(cs) == |cs| then 0.0
      else IccRatio(SsBetween(cs, GrandMean(cs)) / (m - 1.0), SsWithin(cs) / (n - m), n / m)
  }

  function DesignEffect(kBar: real, rho: real): real { 1.0 + (kBar - 1.0) * rho }

  datatype BatteryRate = BatteryRate(nRecords: nat, nCases: nat, kBar: real, passes: nat, passRate: real,
                                     rho: real, deff: real, nEff: real, ci: RateStats.Interval)

  /** A non-empty battery of cases. */
  function Build(sqrt: real -> real, cs: seq<CaseCount>): BatteryRate
    requires WellFormed(cs) && cs != []
  {
    RecordsAtLeastCases(cs);
    IccInUnit(cs);
    var n, m, rho := Records(cs) as real, |cs| as real, IccAnova(cs);
    EffectiveSize(n, m, rho);
    var deff := DesignEffect(n / m, rho);
    var nEff := Max(1.0, n / deff);
    BatteryRate(Records(cs), |cs|, n / m, Passes(cs), GrandMean(cs), rho, deff, nEff,
                RateStats.ScoreBounds(sqrt, GrandMean(cs), nEff, RateStats.Z95))
  }

  // ----- from result rows to case counts -----

  /** One result row: case id, whether every expectation was skipped, and the outcome. */
  datatype ResultRow = ResultRow(caseId: string, skipped: bool, passed: bool)

  function Evaluated(results: seq<ResultRow>): seq<(string, bool)> {
    if results == [] then []
    else
      var last := results[|results| - 1];
      Evaluated(results[..|results| - 1]) + if last.skipped then [] else [(last.caseId, last.passed)]
  }

  function Counts(groups: seq<seq<bool>>): seq<CaseCount> {
    seq(|groups|, i requires 0 <= i < |groups| => CaseCount(CountTrue(groups[i]), |groups[i]|))
  }

  function CountsOfResults(results: seq<ResultRow>): seq<CaseCount> {
    Counts(Groups(Evaluated(results), KeysInOrder(Evaluated(results))))
  }

  lemma CountsWellFormed(results: seq<ResultRow>)
    ensures WellFormed(CountsOfResults(results))
    ensures CountsOfResults(results) == [] <==> Evaluated(results) == []
  {
    var items := Evaluated(results);
    KeysAreTheKeys(items);
    forall i | 0 <= i < |CountsOfResults(results)|
      ensures 0 < CountsOfResults(results)[i].k && CountsOfResults(results)[i].passes <= CountsOfResults(results)[i].k
    {
      CountTrueBound(ValuesOf(items, KeysInOrder(items)[i]));
      assert KeysInOrder(items)[i] in KeysInOrder(items);
    }
    if items != [] { KeysNonEmpty(items); }
  }

  lemma KeysNonEmpty<K, V>(items: seq<(K, V)>)
    requires items != []
    ensures KeysInOrder(items) != []
  {}

  // ----- the theorems -----

  lemma {:induction false} RecordsAtLeastCases(cs: seq<CaseCount>)
    requires WellFormed(cs)
    ensures |cs| <= Records(cs) && Passes(cs) <= Records(cs)
    ensures Records(cs) == |cs| <==> forall i :: 0 <= i < |cs| ==> cs[i].k == 1
  {
    if cs != [] {
      RecordsAtLeastCases(cs[1..]);
      assert forall i :: 0 <= i < |cs| ==> cs[i] == if i == 0 then cs[0] else cs[1..][i - 1];
      if Records(cs) == |cs| {
        assert cs[0].k == 1;
      } else if cs[0].k == 1 {
        var i :| 0 <= i < |cs[1..]| && cs[1..][i].k != 1;
        assert cs[i + 1].k != 1;
      }
    }
  }

  /** A case whose repetitions all agree. */
  predicate Unanimous(c: CaseCount) { c.passes == 0 || c.passes == c.k }

  lemma CaseWithin(c: CaseCount)
    requires 0 < c.k && c.passes <= c.k
    ensures 0.0 <= CaseRate(c) <= 1.0 && c.k as real * CaseRate(c) == c.passes as real
    ensures WithinTerm(c) >= 0.0
    ensures WithinTerm(c) == 0.0 <==> Unanimous(c)
  {
    RateStats.ShareInUnit(c.passes, c.k);
    MulNonNeg(c.passes as real, 1.0 - CaseRate(c));
    ZeroProduct(c.passes as real, 1.0 - CaseRate(c));
  }

  lemma {:induction false} WithinIsZero(cs: seq<CaseCount>)
    requires WellFormed(cs)
    ensures SsWithin(cs) >= 0.0
    ensures SsWithin(cs) == 0.0 <==> forall i :: 0 <= i < |cs| ==> Unanimous(cs[i])
  {
    if cs != [] {
      CaseWithin(cs[0]);
      WithinIsZero(cs[1..]);
      assert forall i :: 0 <= i < |cs| ==> cs[i] == if i == 0 then cs[0] else cs[1..][i - 1];
      if SsWithin(cs) != 0.0 && Unanimous(cs[0]) {
        var i :| 0 <= i < |cs[1..]| && !Unanimous(cs[1..][i]);
        assert !Unanimous(cs[i + 1]);
      }
    }
  }

  lemma {:induction false} BetweenNonNeg(cs: seq<CaseCount>, mean: real)
    requires WellFormed(cs)
    ensures SsBetween(cs, mean) >= 0.0
  {
    if cs != [] {
      SqNonNeg(CaseRate(cs[0]) - mean);
      MulNonNeg(cs[0].k as real, Sq(CaseRate(cs[0]) - mean));
      BetweenNonNeg(cs[1..], mean);
    }
  }

  /** What both sums of squares about `g` add up to, from the totals alone. */
  function Total(passes: real, records: real, g: real): real {
    passes - 2.0 * g * passes + Sq(g) * records
  }

  lemma CaseDecomposes(c: CaseCount, g: real)
    requires 0 < c.k && c.passes <= c.k
    ensures BetweenTerm(c, g) + WithinTerm(c) == Total(c.passes as real, c.k as real, g)
  {
    CaseWithin(c);
    ExpandTerm(c.k as real, CaseRate(c), c.passes as real, g);
  }

  lemma ExpandTerm(k: real, q: real, p: real, g: real)
    requires k * q == p
    ensures k * Sq(q - g) + k * q * (1.0 - q) == p - 2.0 * g * p + Sq(g) * k
  {
    assert k * Sq(q - g) == k * q * q - 2.0 * (k * q) * g + k * (g * g);
  }

  lemma TotalAdds(p: real, k: real, p': real, k': real, g: real)
    ensures Total(p, k, g) + Total(p', k', g) == Total(p + p', k + k', g)
  {}

  lemma {:induction false} SumsDecompose(cs: seq<CaseCount>, g: real)
    requires WellFormed(cs)
    ensures SsBetween(cs, g) + SsWithin(cs) == Total(Passes(cs) as real, Records(cs) as real, g)
  {
    if cs != [] {
      CaseDecomposes(cs[0], g);
      SumsDecompose(cs[1..], g);
      TotalAdds(cs[0].passes as real, cs[0].k as real, Passes(cs[1..]) as real, Records(cs[1..]) as real, g);
    }
  }

  function BernoulliVariation(n: real, p: real): real { n * p * (1.0 - p) }

  /** MAIN. About the grand mean the two sums of squares add up to the total n p (1 - p). */
  lemma SumsOfSquaresPartition(cs: seq<CaseCount>)
    requires WellFormed(cs) && cs != []
    ensures SsBetween(cs, GrandMean(cs)) + SsWithin(cs)
            == BernoulliVariation(Records(cs) as real, GrandMean(cs))
  {
    RecordsAtLeastCases(cs);
    SumsDecompose(cs, GrandMean(cs));
    TotalAtShare(Passes(cs), Records(cs));
  }

  lemma TotalAtShare(s: nat, n: nat)
    requires s <= n && 0 < n
    ensures Total(s as real, n as real, RateStats.Share(s, n)) == BernoulliVariation(n as real, RateStats.Share(s, n))
  {
    RateStats.ShareInUnit(s, n);
    TotalAtMean(s as real, n as real, RateStats.Share(s, n));
  }

  lemma TotalAtMean(passes: real, n: real, p: real)
    requires p * n == passes
    ensures Total(passes, n, p) == BernoulliVariation(n, p)
  {
    assert Sq(p) * n == p * (p * n);
  }

  lemma IccInUnit(cs: seq<CaseCount>)
    requires WellFormed(cs)
    ensures 0.0 <= IccAnova(cs) <= 1.0
  {}

  /** MAIN. The intra-class correlation is 1 exactly when repetitions never disagree inside a
      case although cases do disagree (and some case repeats). */
  lemma IccIsOne(cs: seq<CaseCount>)
    requires WellFormed(cs)
    ensures IccAnova(cs) == 1.0 <==>
            && Records(cs) != |cs|
            && (forall i :: 0 <= i < |cs| ==> Unanimous(cs[i]))
            && 0 < Passes(cs) < Records(cs)
  {
    RecordsAtLeastCases(cs);
    if |cs| == 1 {
      assert cs[1..] == [];
      assert Passes(cs) == cs[0].passes && Records(cs) == cs[0].k;
    } else if |cs| > 1 && Records(cs) != |cs| {
      IccIsRatio(cs);
      WithinIsZero(cs);
      SumsOfSquaresPartition(cs);
      SpreadNeedsBoth(cs);
    }
  }

  lemma IccIsRatio(cs: seq<CaseCount>)
    requires WellFormed(cs) && |cs| > 1 && Records(cs) > |cs|
    ensures IccAnova(cs) == 1.0 <==> SsWithin(cs) == 0.0 && SsBetween(cs, GrandMean(cs)) > 0.0
  {
    BetweenNonNeg(cs, GrandMean(cs));
    WithinIsZero(cs);
    MeanSquares(SsBetween(cs, GrandMean(cs)), SsWithin(cs), Records(cs) as real, |cs| as real);
  }

  lemma MeanSquares(ssb: real, ssw: real, n: real, m: real)
    requires ssb >= 0.0 && ssw >= 0.0 && n > m > 1.0
    ensures IccRatio(ssb / (m - 1.0), ssw / (n - m), n / m) == 1.0 <==> ssw == 0.0 && ssb > 0.0
  {
    DivLe(ssb, 0.0, m - 1.0);
    DivLe(ssw, 0.0, n - m);
    DivLe(n, 1.0, m);
    ClampIsOne(ssb / (m - 1.0), ssw / (n - m), n / m);
  }

  lemma SpreadNeedsBoth(cs: seq<CaseCount>)
    requires WellFormed(cs) && cs != []
    ensures BernoulliVariation(Records(cs) as real, GrandMean(cs)) > 0.0 <==> 0 < Passes(cs) < Records(cs)
  {
    RecordsAtLeastCases(cs);
    PositiveShare(Passes(cs), Records(cs));
  }

  lemma PositiveShare(s: nat, n: nat)
    requires s <= n && 0 < n
    ensures BernoulliVariation(n as real, RateStats.Share(s, n)) > 0.0 <==> 0 < s < n
  {
    RateStats.ShareInUnit(s, n);
    PositiveProduct(n as real, RateStats.Share(s, n));
  }

  lemma PositiveProduct(n: real, p: real)
    requires n > 0.0 && 0.0 <= p <= 1.0
    ensures BernoulliVariation(n, p) > 0.0 <==> 0.0 < p < 1.0
  {
    if 0.0 < p < 1.0 {
      MulPos(n, p);
      MulPos(n * p, 1.0 - p);
    }
  }

  lemma ClampIsOne(b: real, w: real, kBar: real)
    requires b >= 0.0 && w >= 0.0 && kBar > 1.0
    ensures IccRatio(b, w, kBar) == 1.0 <==> w == 0.0 && b > 0.0
  {
    ClampOver(b, w, (kBar - 1.0) * w, b + (kBar - 1.0) * w, kBar - 1.0);
  }

  lemma ClampOver(b: real, w: real, cw: real, d: real, c: real)
    requires b >= 0.0 && w >= 0.0 && c > 0.0 && cw == c * w && d == b + cw
    ensures (d > 0.0 && (b - w) / d >= 1.0) <==> (w == 0.0 && b > 0.0)
  {
    MulNonNeg(c, w);
    ZeroProduct(c, w);
    if d > 0.0 {
      DivLe(b - w, 1.0, d);
    }
  }

  /** MAIN. 0 <= rho <= 1, 1 <= deff <= k-bar, and the effective sample size is the uncorrected
      quotient, between the number of cases and the number of records: the floor never bites. */
  lemma DesignEffectBounds(sqrt: real -> real, cs: seq<CaseCount>)
    requires WellFormed(cs) && cs != []
    ensures var r := Build(sqrt, cs);
            && 0.0 <= r.rho <= 1.0 && 1.0 <= r.deff <= r.kBar
            && r.nEff == r.nRecords as real / r.deff
            && r.nCases as real <= r.nEff <= r.nRecords as real
            && (r.nEff == r.nCases as real <==> r.nRecords == r.nCases || r.rho == 1.0)
            && (r.nEff == r.nRecords as real <==> r.nRecords == r.nCases || r.rho == 0.0)
  {
    RecordsAtLeastCases(cs);
    IccInUnit(cs);
    EffectiveSize(Records(cs) as real, |cs| as real, IccAnova(cs));
  }

  lemma EffectiveSize(n: real, m: real, rho: real)
    requires n >= m >= 1.0 && 0.0 <= rho <= 1.0
    ensures var deff := DesignEffect(n / m, rho);
            && 1.0 <= deff <= n / m && m <= n / deff <= n
            && (n / deff == m <==> n == m || rho == 1.0)
            && (n / deff == n <==> n == m || rho == 0.0)
  {
    DivLe(n, 1.0, m);
    MulNonNeg(n / m - 1.0, rho);
    MulNonNeg(n / m - 1.0, 1.0 - rho);
    EffectiveSizeOf(n, m, rho, n / m, DesignEffect(n / m, rho));
  }

  lemma EffectiveSizeOf(n: real, m: real, rho: real, k: real, deff: real)
    requires n >= m >= 1.0 && 0.0 <= rho <= 1.0 && k * m == n && 1.0 <= deff
    requires deff == 1.0 + (k - 1.0) * rho
    ensures m <= n / deff <= n
    ensures n / deff == m <==> n == m || rho == 1.0
    ensures n / deff == n <==> n == m || rho == 0.0
  {
    assert n - m * deff == (n - m) * (1.0 - rho) by { assert m * ((k - 1.0) * rho) == (k * m - m) * rho; }
    MulNonNeg(n - m, 1.0 - rho);
    ZeroProduct(n - m, 1.0 - rho);
    DivLe(n, m, deff);
    DivLe(n, n, deff);
    assert m * (n * deff - n) == n * ((n - m) * rho) by {
      assert m * ((k - 1.0) * rho) == (k * m - m) * rho;
      assert m * (n * ((k - 1.0) * rho)) == n * (m * ((k - 1.0) * rho));
    }
    MulNonNeg(n - m, rho);
    ZeroProduct(n - m, rho);
    ZeroProduct(n, (n - m) * rho);
    ZeroProduct(m, n * deff - n);
    MulMono(1.0, deff, n);
  }

  /** MAIN. All the repetitions count as one observation per case exactly when no case repeats,
      or every case is internally unanimous while the cases disagree. */
  lemma EffectiveSizeIsCases(sqrt: real -> real, cs: seq<CaseCount>)
    requires WellFormed(cs) && cs != []
    ensures Build(sqrt, cs).nEff == |cs| as real <==>
            || (forall i :: 0 <= i < |cs| ==> cs[i].k == 1)
            || ((forall i :: 0 <= i < |cs| ==> Unanimous(cs[i])) && 0 < Passes(cs) < Records(cs))
  {
    RecordsAtLeastCases(cs);
    DesignEffectBounds(sqrt, cs);
    IccIsOne(cs);
  }

  /** MAIN. Correcting never narrows: the corrected interval contains the uncorrected Wilson
      interval of the same passes and records, and both contain the pass rate. */
  lemma CorrectionNeverNarrows(sqrt: real -> real, cs: seq<CaseCount>)
    requires IsSqrt(sqrt) && WellFormed(cs) && cs != []
    ensures var r := Build(sqrt, cs);
            && RateStats.WilsonInterval(sqrt, r.passes, r.nRecords, RateStats.Z95).Ok?
            && var i := RateStats.WilsonInterval(sqrt, r.passes, r.nRecords, RateStats.Z95).value;
               0.0 <= r.ci.low <= i.low <= r.passRate <= i.high <= r.ci.high <= 1.0
  {
    var r := Build(sqrt, cs);
    RecordsAtLeastCases(cs);
    DesignEffectBounds(sqrt, cs);
    RateStats.ShareInUnit(r.passes, r.nRecords);
    RateStats.WilsonIsScoreInterval(sqrt, r.passes, r.nRecords, RateStats.Z95);
    RateStats.SmallerSampleContains(sqrt, r.passRate, r.nRecords as real, r.nEff, RateStats.Z95);
    RateStats.IntervalBracketsEstimate(sqrt, r.passRate, r.nEff, RateStats.Z95);
  }

  // ----- what the record is, in counts -----

  /** Passes times failures per repetition, summed over the cases: the variation inside the cases. */
  function Inside(cs: seq<CaseCount>): real
    requires WellFormed(cs)
  {
    if cs == [] then 0.0 else Quotient(cs[0].passes * (cs[0].k - cs[0].passes), cs[0].k) + Inside(cs[1..])
  }

  /** The rest of the whole variation, passes times failures per record: the variation between the cases. */
  function Outside(cs: seq<CaseCount>): real
    requires WellFormed(cs) && cs != []
  {
    RecordsAtLeastCases(cs);
    Quotient(Passes(cs) * (Records(cs) - Passes(cs)), Records(cs)) - Inside(cs)
  }

  lemma ShareTimesRest(s: nat, n: nat)
    requires s <= n && 0 < n
    ensures n as real * RateStats.Share(s, n) * (1.0 - RateStats.Share(s, n)) == Quotient(s * (n - s), n)
  {
    var p := RateStats.Share(s, n);
    RateStats.ShareInUnit(s, n);
    assert (s * (n - s)) as real == s as real * (n as real - s as real);
    ShareAlgebra(p, s as real, n as real);
    DivLe((s * (n - s)) as real, n as real * p * (1.0 - p), n as real);
  }

  lemma ShareAlgebra(p: real, s: real, n: real)
    requires p * n == s
    ensures n * p * (1.0 - p) * n == s * (n - s)
  {
    assert n * p * (1.0 - p) * n == (p * n) * (n - p * n);
  }

  lemma {:induction false} InsideIsWithin(cs: seq<CaseCount>)
    requires WellFormed(cs)
    ensures SsWithin(cs) == Inside(cs)
  {
    if cs != [] {
      InsideIsWithin(cs[1..]);
      ShareTimesRest(cs[0].passes, cs[0].k);
    }
  }

  lemma OutsideIsBetween(cs: seq<CaseCount>)
    requires WellFormed(cs) && cs != []
    ensures SsBetween(cs, GrandMean(cs)) == Outside(cs)
  {
    RecordsAtLeastCases(cs);
    SumsOfSquaresPartition(cs);
    InsideIsWithin(cs);
    WholeVariation(Passes(cs), Records(cs));
  }

  lemma WholeVariation(s: nat, n: nat)
    requires s <= n && 0 < n
    ensures BernoulliVariation(n as real, RateStats.Share(s, n)) == Quotient(s * (n - s), n)
  {
    ShareTimesRest(s, n);
  }

  /** The correlation of m cases of n records with variation `inside` and `outside` them: none when the cases vary
      no more than chance makes them; otherwise 1 - rho is the share k-bar msw / (msb + (k-bar - 1) msw). */
  ghost predicate IsCorrelation(rho: real, outside: real, inside: real, n: real, m: real) {
    && 0.0 <= rho <= 1.0
    && (rho > 0.0 <==> (n - m) * outside > (m - 1.0) * inside)
    && (rho > 0.0 ==>
          (1.0 - rho) * (m * (n - m) * outside + (n - m) * (m - 1.0) * inside) == n * (m - 1.0) * inside)
  }

  lemma MeanSquare(s: real, d: real)
    requires s >= 0.0 && d > 0.0
    ensures s / d >= 0.0 && (s / d) * d == s
  {
    DivLe(s, 0.0, d);
  }

  lemma MeanSize(n: real, m: real)
    requires n > m > 0.0
    ensures n / m > 1.0 && (n / m) * m == n
  {
    DivLe(n, 1.0, m);
  }

  lemma RatioIsCorrelation(b: real, w: real, n: real, m: real)
    requires b >= 0.0 && w >= 0.0 && n > m > 1.0
    ensures IsCorrelation(IccRatio(b / (m - 1.0), w / (n - m), n / m), b, w, n, m)
  {
    MeanSquare(b, m - 1.0);
    MeanSquare(w, n - m);
    MeanSize(n, m);
    SquaresAreCorrelation(b / (m - 1.0), w / (n - m), n / m, b, w, n, m);
  }

  lemma SquaresAreCorrelation(msb: real, msw: real, k: real, b: real, w: real, n: real, m: real)
    requires msb >= 0.0 && msw >= 0.0 && k > 1.0 && n > m > 1.0
    requires msb * (m - 1.0) == b && msw * (n - m) == w && k * m == n
    ensures IsCorrelation(IccRatio(msb, msw, k), b, w, n, m)
  {
    var d := msb + (k - 1.0) * msw;
    MulNonNeg(k - 1.0, msw);
    CompareSquares(msb, msw, b, w, n, m);
    if d > 0.0 {
      DivLe(msb - msw, 0.0, d);
      DivLe(msb - msw, 1.0, d);
      MulPos(k, 1.0);
      if msb > msw {
        RestOfRatio((msb - msw) / d, msb, msw, k, d);
        ScaledRest((msb - msw) / d, msb, msw, k, b, w, n, m);
      }
    }
  }

  lemma CompareSquares(msb: real, msw: real, b: real, w: real, n: real, m: real)
    requires n > m > 1.0 && msb * (m - 1.0) == b && msw * (n - m) == w
    ensures msb > msw <==> (n - m) * b > (m - 1.0) * w
  {
    MulPos(n - m, m - 1.0);
    ScaledOrder(msb, msw, (n - m) * (m - 1.0));
    assert (n - m) * (m - 1.0) * msb == (n - m) * b;
    assert (n - m) * (m - 1.0) * msw == (m - 1.0) * w;
  }

  lemma RestOfRatio(rho: real, msb: real, msw: real, k: real, d: real)
    requires d == msb + (k - 1.0) * msw && rho * d == msb - msw
    ensures (1.0 - rho) * d == k * msw
  {
    assert (1.0 - rho) * d == d - rho * d;
  }

  lemma ScaledRest(rho: real, msb: real, msw: real, k: real, b: real, w: real, n: real, m: real)
    requires msb * (m - 1.0) == b && msw * (n - m) == w && k * m == n
    requires (1.0 - rho) * (msb + (k - 1.0) * msw) == k * msw
    ensures (1.0 - rho) * (m * (n - m) * b + (n - m) * (m - 1.0) * w) == n * (m - 1.0) * w
  {
    var f := m * (n - m) * (m - 1.0);
    ScaledBetween(f, msb, b, n, m);
    ScaledWithin(f, msw, k, w, n, m);
    ScaledSum(f, 1.0 - rho, msb, k, msw, m * (n - m) * b, (n - m) * (m - 1.0) * w, n * (m - 1.0) * w);
  }

  lemma ScaledBetween(f: real, msb: real, b: real, n: real, m: real)
    requires f == m * (n - m) * (m - 1.0) && msb * (m - 1.0) == b
    ensures f * msb == m * (n - m) * b
  {
    assert f * msb == m * (n - m) * (msb * (m - 1.0));
  }

  lemma ScaledWithin(f: real, msw: real, k: real, w: real, n: real, m: real)
    requires f == m * (n - m) * (m - 1.0) && msw * (n - m) == w && k * m == n
    ensures f * (k * msw) == n * (m - 1.0) * w && f * ((k - 1.0) * msw) == (n - m) * (m - 1.0) * w
  {
    assert f * msw == m * (m - 1.0) * (msw * (n - m));
    assert f * (k * msw) == (m - 1.0) * (k * m) * (msw * (n - m));
    assert (m - 1.0) * n * w - m * (m - 1.0) * w == (n - m) * (m - 1.0) * w;
  }

  lemma ScaledSum(f: real, rest: real, msb: real, k: real, msw: real, x: real, y: real, z: real)
    requires rest * (msb + (k - 1.0) * msw) == k * msw
    requires f * msb == x && f * ((k - 1.0) * msw) == y && f * (k * msw) == z
    ensures rest * (x + y) == z
  {
    assert x + y == f * (msb + (k - 1.0) * msw);
    assert rest * (f * (msb + (k - 1.0) * msw)) == f * (rest * (msb + (k - 1.0) * msw));
  }

  /** MAIN. The intra-class correlation, in counts: zero without two cases or a repetition; otherwise positive
      exactly when the cases vary more than their repetitions do, and then the ANOVA estimate. */
  lemma IccIsCorrelation(cs: seq<CaseCount>)
    requires WellFormed(cs) && cs != []
    ensures if |cs| == 1 || Records(cs) == |cs| then IccAnova(cs) == 0.0
            else IsCorrelation(IccAnova(cs), Outside(cs), Inside(cs), Records(cs) as real, |cs| as real)
  {
    RecordsAtLeastCases(cs);
    if |cs| > 1 && Records(cs) != |cs| {
      InsideIsWithin(cs);
      OutsideIsBetween(cs);
      BetweenNonNeg(cs, GrandMean(cs));
      WithinIsZero(cs);
      RatioIsCorrelation(SsBetween(cs, GrandMean(cs)), SsWithin(cs), Records(cs) as real, |cs| as real);
    }
  }

  /** Mean size, design effect and effective sample size, multiplied out. */
  ghost predicate Sized(r: BatteryRate, n: real, m: real) {
    && r.kBar * m == n && r.deff * m == m + (n - m) * r.rho && r.nEff * (m + (n - m) * r.rho) == n * m
    && r.nEff > 0.0
  }

  /** The pass rate, and the interval as the rates the score test keeps at the effective sample size. */
  ghost predicate Intervalled(r: BatteryRate, s: real, n: real) {
    r.passRate * n == s && r.nEff > 0.0 && RateStats.Inverts(r.ci, r.passRate, r.nEff, RateStats.Z95)
  }

  /** The record of a battery, each entry in terms of the counts and of the entries before it. */
  ghost predicate Describes(r: BatteryRate, cs: seq<CaseCount>)
    requires WellFormed(cs) && cs != []
  {
    var n, m := Records(cs) as real, |cs| as real;
    && r.nRecords == Records(cs) && r.nCases == |cs| && r.passes == Passes(cs)
    && (if |cs| == 1 || Records(cs) == |cs| then r.rho == 0.0 else IsCorrelation(r.rho, Outside(cs), Inside(cs), n, m))
    && Sized(r, n, m) && Intervalled(r, Passes(cs) as real, n)
  }

  lemma DeffTimesCases(n: real, m: real, k: real, rho: real, deff: real, nEff: real)
    requires k * m == n && deff == 1.0 + (k - 1.0) * rho && nEff * deff == n
    ensures deff * m == m + (n - m) * rho && nEff * (m + (n - m) * rho) == n * m
  {
    assert m * ((k - 1.0) * rho) == (k * m - m) * rho;
    assert nEff * (deff * m) == (nEff * deff) * m;
  }

  /** MAIN. The record of a battery is what its counts make it, down to the interval, which is the set of rates
      the score test keeps at the effective sample size. */
  lemma BuildDescribes(sqrt: real -> real, cs: seq<CaseCount>)
    requires IsSqrt(sqrt) && WellFormed(cs) && cs != []
    ensures Describes(Build(sqrt, cs), cs)
  {
    IccIsCorrelation(cs);
    BuildSizes(sqrt, cs);
    BuildInterval(sqrt, cs);
  }

  lemma SizesOf(r: BatteryRate, n: real, m: real)
    requires n >= m >= 1.0 && r.kBar == n / m && 0.0 <= r.rho <= 1.0
    requires r.deff == DesignEffect(r.kBar, r.rho) && r.deff >= 1.0 && r.nEff == n / r.deff && r.nEff >= m
    ensures Sized(r, n, m)
  {
    DivLe(n, 1.0, m);
    DivLe(n, 1.0, r.deff);
    DeffTimesCases(n, m, r.kBar, r.rho, r.deff, r.nEff);
  }

  lemma BuildSizes(sqrt: real -> real, cs: seq<CaseCount>)
    requires WellFormed(cs) && cs != []
    ensures Sized(Build(sqrt, cs), Records(cs) as real, |cs| as real)
  {
    RecordsAtLeastCases(cs);
    DesignEffectBounds(sqrt, cs);
    SizesOf(Build(sqrt, cs), Records(cs) as real, |cs| as real);
  }

  lemma IntervalOf(sqrt: real -> real, r: BatteryRate, s: nat, n: nat)
    requires IsSqrt(sqrt) && s <= n && n > 0 && r.nEff > 0.0 && r.passRate == RateStats.Share(s, n)
    requires r.ci == RateStats.ScoreBounds(sqrt, r.passRate, r.nEff, RateStats.Z95)
    ensures Intervalled(r, s as real, n as real)
  {
    RateStats.ShareInUnit(s, n);
    RateStats.BoundsInvertScoreTest(sqrt, r.passRate, r.nEff, RateStats.Z95);
  }

  lemma BuildInterval(sqrt: real -> real, cs: seq<CaseCount>)
    requires IsSqrt(sqrt) && WellFormed(cs) && cs != []
    ensures Intervalled(Build(sqrt, cs), Passes(cs) as real, Records(cs) as real)
  {
    RecordsAtLeastCases(cs);
    BuildSizes(sqrt, cs);
    IntervalOf(sqrt, Build(sqrt, cs), Passes(cs), Records(cs));
  }

  // ----- from the rows to the record -----

  /** MAIN. Grouping keeps every evaluated record: the battery's totals are the evaluated rows
      and the passing ones among them. */
  lemma {:induction false} BatteryCountsEveryRecord(results: seq<ResultRow>)
    ensures Records(CountsOfResults(results)) == |Evaluated(results)|
    ensures Passes(CountsOfResults(results)) == CountTrue(Snds(Evaluated(results)))
  {
    var items := Evaluated(results);
    var groups := Groups(items, KeysInOrder(items));
    TotalsOfFlatten(groups);
    GroupingConserves(items);
    CountTrueIsMultiplicity(Flatten(groups));
    CountTrueIsMultiplicity(Snds(items));
    assert |Flatten(groups)| == |multiset(Flatten(groups))| == |multiset(Snds(items))|;
  }

  lemma {:induction false} TotalsSnoc(cs: seq<CaseCount>, c: CaseCount)
    ensures Records(cs + [c]) == Records(cs) + c.k
    ensures Passes(cs + [c]) == Passes(cs) + c.passes
  {
    if cs == [] {
      assert cs + [c] == [c];
    } else {
      assert (cs + [c])[1..] == cs[1..] + [c];
      TotalsSnoc(cs[1..], c);
    }
  }

  lemma {:induction false} TotalsOfFlatten(groups: seq<seq<bool>>)
    ensures Records(Counts(groups)) == |Flatten(groups)|
    ensures Passes(Counts(groups)) == CountTrue(Flatten(groups))
  {
    if groups != [] {
      var n := |groups| - 1;
      assert Counts(groups) == Counts(groups[..n]) + [CaseCount(CountTrue(groups[n]), |groups[n]|)];
      TotalsOfFlatten(groups[..n]);
      TotalsSnoc(Counts(groups[..n]), CaseCount(CountTrue(groups[n]), |groups[n]|));
      CountTrueConcat(Flatten(groups[..n]), groups[n]);
    }
  }

  /** The places of the evaluated rows of a case, and of the passing ones among them. */
  ghost function RowsOf(results: seq<ResultRow>, id: string): set<nat> {
    Places(results, (row: ResultRow) => !row.skipped && row.caseId == id)
  }

  ghost function PassingRowsOf(results: seq<ResultRow>, id: string): set<nat> {
    Places(results, (row: ResultRow) => !row.skipped && row.caseId == id && row.passed)
  }

  lemma {:induction false} ValuesAreRows(results: seq<ResultRow>, id: string)
    ensures |ValuesOf(Evaluated(results), id)| == |RowsOf(results, id)|
    ensures CountTrue(ValuesOf(Evaluated(results), id)) == |PassingRowsOf(results, id)|
  {
    if results == [] {
      assert RowsOf(results, id) == PassingRowsOf(results, id) == {};
    } else {
      var front, last := results[..|results| - 1], results[|results| - 1];
      assert results == front + [last];
      ValuesAreRows(front, id);
      PlacesSnoc(front, last, (row: ResultRow) => !row.skipped && row.caseId == id);
      PlacesSnoc(front, last, (row: ResultRow) => !row.skipped && row.caseId == id && row.passed);
      OneMoreValue(results, id);
    }
  }

  lemma OneMoreValue(results: seq<ResultRow>, id: string)
    requires results != []
    ensures var last, before := results[|results| - 1], ValuesOf(Evaluated(results[..|results| - 1]), id);
            ValuesOf(Evaluated(results), id)
            == if !last.skipped && last.caseId == id then before + [last.passed] else before
    ensures var last, before := results[|results| - 1], ValuesOf(Evaluated(results[..|results| - 1]), id);
            CountTrue(before + [last.passed]) == CountTrue(before) + if last.passed then 1 else 0
  {
    var last, before := results[|results| - 1], ValuesOf(Evaluated(results[..|results| - 1]), id);
    assert (before + [last.passed])[..|before|] == before;
    var rest := Evaluated(results[..|results| - 1]);
    if last.skipped {
      assert Evaluated(results) == rest + [] == rest;
    } else {
      assert Evaluated(results) == rest + [(last.caseId, last.passed)];
      Snoc(rest, last.caseId, last.passed);
    }
  }

  /** MAIN. The counts are one for each case with an evaluated row: how many such rows it has, and how many pass. */
  lemma CountsAreOfCases(results: seq<ResultRow>)
    ensures var ids := KeysInOrder(Evaluated(results));
            var cs := CountsOfResults(results);
            && Distinct(ids) && |cs| == |ids|
            && (forall id :: id in ids <==> RowsOf(results, id) != {})
            && forall i :: 0 <= i < |cs| ==>
                 cs[i].k == |RowsOf(results, ids[i])| && cs[i].passes == |PassingRowsOf(results, ids[i])|
  {
    var items := Evaluated(results);
    KeysAreTheKeys(items);
    forall id
      ensures id in KeysInOrder(items) <==> RowsOf(results, id) != {}
    {
      ValuesAreRows(results, id);
    }
    forall i | 0 <= i < |CountsOfResults(results)|
      ensures CountsOfResults(results)[i].k == |RowsOf(results, KeysInOrder(items)[i])|
      ensures CountsOfResults(results)[i].passes == |PassingRowsOf(results, KeysInOrder(items)[i])|
    {
      ValuesAreRows(results, KeysInOrder(items)[i]);
    }
  }

  function CountsOf(keys: seq<string>, groups: map<string, seq<bool>>): seq<CaseCount>
    requires forall k :: k in keys ==> k in groups
  {
    seq(|keys|, i requires 0 <= i < |keys| && keys[i] in groups =>
      CaseCount(CountTrue(groups[keys[i]]), |groups[keys[i]]|))
  }

  lemma CountsOfAre(items: seq<(string, bool)>, keys: seq<string>, groups: map<string, seq<bool>>)
    requires forall k :: k in keys ==> k in groups && groups[k] == ValuesOf(items, k)
    ensures CountsOf(keys, groups) == Counts(Groups(items, keys))
  {
    assert forall i :: 0 <= i < |keys| ==> keys[i] in keys;
  }

  datatype MaybeRate = Rate(value: BatteryRate) | NothingEvaluated

  /** Groups the evaluated rows by case and builds the corrected rate. */
  method ComputeBatteryRate(sqrt: real -> real, results: seq<ResultRow>) returns (r: MaybeRate)
    ensures r.NothingEvaluated? <==> forall i :: 0 <= i < |results| ==> results[i].skipped
    ensures r.Rate? ==>
              (CountsWellFormed(results);
               CountsOfResults(results) != [] && r.value == Build(sqrt, CountsOfResults(results)))
    ensures r.Rate? && IsSqrt(sqrt) ==> (CountsWellFormed(results); Describes(r.value, CountsOfResults(results)))
  {
    var items: seq<(string, bool)> := [];
    for n := 0 to |results|
      invariant items == Evaluated(results[..n])
      invariant items == [] <==> forall i :: 0 <= i < n ==> results[i].skipped
    {
      assert results[..n + 1][..n] == results[..n];
      if !results[n].skipped {
        items := items + [(results[n].caseId, results[n].passed)];
      }
    }
    assert results[..|results|] == results;
    var keys, groups := GroupBy(items);
    CountsWellFormed(results);
    if keys == [] {
      return NothingEvaluated;
    }
    var cs := CountsOf(keys, groups);
    CountsOfAre(items, keys, groups);
    r := Rate(Build(sqrt, cs));
    if IsSqrt(sqrt) { BuildDescribes(sqrt, cs); }
  }
}
