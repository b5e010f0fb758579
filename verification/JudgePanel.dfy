/** Panel agreement, after `evals/judge_panel.py` and the polarity claims of
    `evals/panel_metrics.py`. */
module JudgePanel {
  import opened Counting
  import opened KappaStats
  import opened Numbers
  import opened Options
  import opened Sums
  import RateStats

  datatype AgreementResult = AgreementResult(agreeing: nat, total: nat, rate: Option<real>,
                                             ci: Option<RateStats.Interval>)

  /** Unordered pairs among n raters: the nth rater adds n - 1. */
  function Pairs(n: nat): nat { if n == 0 then 0 else Pairs(n - 1) + (n - 1) }

  /** The pairs of real votes on a record, and those that agree: true with true, false with false. */
  function TotalPairs(votes: seq<Vote>): int { Pairs(|Available(votes)|) }

  function AgreeingPairs(votes: seq<Vote>): int { PairsOf(Available(votes)) }

  function PairsOf(v: seq<bool>): int {
    CountTrueBound(v);
    Pairs(CountTrue(v)) + Pairs(|v| - CountTrue(v))
  }

  lemma {:induction false} PairsDouble(n: nat)
    ensures Pairs(n) * 2 == n * (n - 1)
  {
    if n > 0 {
      PairsDouble(n - 1);
      assert n * (n - 1) == (n - 1) * (n - 2) + 2 * (n - 1);
    }
  }

  /** How many of the later votes equal x. */
  function SameAs(x: bool, later: seq<bool>): nat {
    CountTrueBound(later);
    if x then CountTrue(later) else |later| - CountTrue(later)
  }

  lemma CountCons(x: bool, later: seq<bool>)
    ensures CountTrue([x] + later) == CountTrue(later) + if x then 1 else 0
  {
    CountTrueConcat([x], later);
    assert [x][..0] == [];
  }

  lemma PairsNext(n: nat)
    ensures Pairs(n + 1) == Pairs(n) + n
  {}

  /** Taking the first vote off removes exactly its pairs with the later ones. */
  lemma PairsCons(x: bool, later: seq<bool>)
    ensures PairsOf([x] + later) == PairsOf(later) + SameAs(x, later)
  {
    CountCons(x, later);
    CountTrueBound(later);
    var t, f := CountTrue(later), |later| - CountTrue(later);
    if x {
      PairsNext(t);
      assert PairsOf([x] + later) == Pairs(t + 1) + Pairs(f);
    } else {
      PairsNext(f);
      assert PairsOf([x] + later) == Pairs(t) + Pairs(f + 1);
    }
  }

  lemma SameSnoc(x: bool, later: seq<bool>, y: bool)
    ensures SameAs(x, later + [y]) == SameAs(x, later) + if x == y then 1 else 0
  {
    assert (later + [y])[..|later|] == later;
  }

  /** The innermost loop: one vote against every later one. */
  method CountAgainst(x: bool, later: seq<bool>) returns (agreeing: int, total: int)
    ensures agreeing == SameAs(x, later) && total == |later|
  {
    agreeing, total := 0, 0;
    for j := 0 to |later|
      invariant agreeing == SameAs(x, later[..j]) && total == j
    {
      assert later[..j + 1] == later[..j] + [later[j]];
      SameSnoc(x, later[..j], later[j]);
      total := total + 1;
      if x == later[j] {
        agreeing := agreeing + 1;
      }
    }
    assert later[..|later|] == later;
  }

  /** The loop over one record's real votes. */
  method CountRecord(v: seq<bool>) returns (agreeing: int, total: int)
    ensures agreeing == PairsOf(v) && total == Pairs(|v|)
  {
    agreeing, total := 0, 0;
    for i := 0 to |v|
      invariant agreeing + PairsOf(v[i..]) == PairsOf(v)
      invariant total + Pairs(|v| - i) == Pairs(|v|)
    {
      assert v[i..] == [v[i]] + v[i + 1..];
      PairsCons(v[i], v[i + 1..]);
      PairsNext(|v| - i - 1);
      var a, t := CountAgainst(v[i], v[i + 1..]);
      agreeing, total := agreeing + a, total + t;
    }
    assert PairsOf([]) == 0;
  }

  /** What the metric reports for given totals. */
  function Report(sqrt: real -> real, agreeing: nat, total: nat): AgreementResult {
    if total == 0 then AgreementResult(0, 0, None, None)
    else AgreementResult(agreeing, total, Some(RateStats.Share(agreeing, total)),
                         Some(RateStats.WilsonInterval(sqrt, agreeing, total, RateStats.Z95).value))
  }

  /** The metric in closed form. */
  function Agreement(sqrt: real -> real, records: seq<seq<Vote>>): AgreementResult {
    PairTotals(records);
    Report(sqrt, SumOf(records, AgreeingPairs), SumOf(records, TotalPairs))
  }

  lemma RecordPairs(v: seq<bool>)
    ensures 0 <= PairsOf(v) <= Pairs(|v|)
    ensures PairsOf(v) * 2 == AgreeTwice(v) && Pairs(|v|) * 2 == PairsTwice(|v|)
  {
    CountTrueBound(v);
    var t := CountTrue(v);
    PairsDouble(t);
    PairsDouble(|v| - t);
    PairsDouble(|v|);
    GapAlgebra(t, |v|);
    ProductSign(t, |v| - t);
  }

  lemma {:induction false} PairTotals(records: seq<seq<Vote>>)
    ensures 0 <= SumOf(records, AgreeingPairs) <= SumOf(records, TotalPairs)
  {
    if records != [] {
      PairTotals(records[..|records| - 1]);
      RecordPairs(Available(records[|records| - 1]));
    }
  }

  /** The nested loops over records and pairs compute the closed form. */
  method PairwiseAgreement(sqrt: real -> real, records: seq<seq<Vote>>) returns (r: AgreementResult)
    ensures r == Agreement(sqrt, records)
  {
    var agreeing, total := 0, 0;
    for n := 0 to |records|
      invariant agreeing == SumOf(records[..n], AgreeingPairs)
      invariant total == SumOf(records[..n], TotalPairs)
    {
      assert records[..n + 1][..n] == records[..n];
      var a, t := CountRecord(Available(records[n]));
      agreeing, total := agreeing + a, total + t;
    }
    assert records[..|records|] == records;
    PairTotals(records);
    if total == 0 {
      return AgreementResult(0, 0, None, None);
    }
    var rate := RateStats.Share(agreeing, total);
    var ci := RateStats.WilsonInterval(sqrt, agreeing, total, RateStats.Z95).value;
    r := AgreementResult(agreeing, total, Some(rate), Some(ci));
  }

  // ----- agreement against kappa's observed agreement -----

  /** Records with fewer than two real votes contribute no pair. */
  lemma OnePair(v: seq<bool>)
    ensures PairsOf(v) * 2 == AgreeTwice(v) && Pairs(|v|) * 2 == PairsTwice(|v|)
    ensures |v| < 2 ==> PairsOf(v) == 0 && Pairs(|v|) == 0
  {
    RecordPairs(v);
    CountTrueBound(v);
  }

  lemma {:induction false} RateablePairsAgree(records: seq<seq<Vote>>)
    ensures SumOf(records, AgreeingPairs) * 2 == SumOf(Rateable(records), AgreeTwice)
  {
    if records != [] {
      var rest, v := records[..|records| - 1], Available(records[|records| - 1]);
      RateablePairsAgree(rest);
      OnePair(v);
      if |v| >= 2 { SumSnoc(Rateable(rest), v, AgreeTwice); }
      assert |v| < 2 ==> Rateable(records) == Rateable(rest);
    }
  }

  lemma {:induction false} RateablePairsTotal(records: seq<seq<Vote>>)
    ensures SumOf(records, TotalPairs) * 2 == SumOf(Rateable(records), TwicePairs)
  {
    if records != [] {
      var rest, v := records[..|records| - 1], Available(records[|records| - 1]);
      RateablePairsTotal(rest);
      OnePair(v);
      if |v| >= 2 { SumSnoc(Rateable(rest), v, TwicePairs); }
      assert |v| < 2 ==> Rateable(records) == Rateable(rest);
    }
  }

  lemma OnlyRateablePairsCount(records: seq<seq<Vote>>)
    ensures SumOf(records, AgreeingPairs) * 2 == SumOf(Rateable(records), AgreeTwice)
    ensures SumOf(records, TotalPairs) * 2 == SumOf(Rateable(records), TwicePairs)
  {
    RateablePairsAgree(records);
    RateablePairsTotal(records);
  }

  function TwicePairs(v: seq<bool>): int { PairsTwice(|v|) }

  lemma {:induction false} EqualTwicePairs(kept: seq<seq<bool>>, m: nat)
    requires SameRaters(kept, m)
    ensures SumOf(kept, TwicePairs) == |kept| * PairsTwice(m)
  {
    if kept != [] {
      EqualTwicePairs(kept[..|kept| - 1], m);
      NextMultiple(|kept| - 1, PairsTwice(m));
    }
  }

  lemma NextMultiple(n: int, p: int)
    ensures (n + 1) * p == n * p + p
  {}

  /** MAIN. With equal rater counts the pairwise rate is Fleiss' observed agreement. */
  lemma RateIsObservedAgreement(sqrt: real -> real, records: seq<seq<Vote>>, m: nat)
    requires m >= 2 && SameRaters(Rateable(records), m) && Rateable(records) != []
    ensures Agreement(sqrt, records).rate == Some(Fleiss(records).observed)
  {
    var kept := Rateable(records);
    RateableKeepsPairs(records);
    OnlyRateablePairsCount(records);
    EqualTwicePairs(kept, m);
    ObservedEqual(kept, m);
    PairTotals(records);
    HalfQuotient(SumOf(records, AgreeingPairs), SumOf(records, TotalPairs));
  }

  lemma HalfQuotient(a: nat, t: nat)
    requires t > 0
    ensures Quotient(a * 2, t * 2) == RateStats.Share(a, t)
  {
    DivLe(a as real, 0.0, t as real);
    DivLe((a * 2) as real, RateStats.Share(a, t), (t * 2) as real);
  }

  /** MAIN. The published interval brackets the published rate inside [0, 1]; there is neither
      when no two judges can be compared. */
  lemma AgreementIntervalBracketsRate(sqrt: real -> real, records: seq<seq<Vote>>)
    requires IsSqrt(sqrt)
    ensures var r := Agreement(sqrt, records);
            && (r.rate.None? <==> Rateable(records) == []) && (r.ci.None? <==> r.rate.None?)
            && (r.rate.Some? ==> 0.0 <= r.ci.value.low <= r.rate.value <= r.ci.value.high <= 1.0)
  {
    PairTotals(records);
    OnlyRateablePairsCount(records);
    RateableKeepsPairs(records);
    SomePairs(Rateable(records));
    RateStats.WilsonIsScoreInterval(sqrt, SumOf(records, AgreeingPairs), SumOf(records, TotalPairs), RateStats.Z95);
  }

  lemma {:induction false} SomePairs(kept: seq<seq<bool>>)
    requires AllRateable(kept)
    ensures SumOf(kept, TwicePairs) >= 0
    ensures SumOf(kept, TwicePairs) == 0 <==> kept == []
  {
    if kept != [] {
      SomePairs(kept[..|kept| - 1]);
      PairsTwicePositive(|kept[|kept| - 1]|);
    }
  }

  // ----- polarity -----

  datatype Polarity = PassOnYes | PassOnNo

  /** A YES/NO score read as pass/fail. */
  function ApplyPolarity(score: bool, p: Polarity): bool { if p == PassOnYes then score else !score }

  datatype ScoredRecord = ScoredRecord(polarity: Polarity, scores: seq<Vote>)

  function Decisions(r: ScoredRecord): seq<Vote> {
    seq(|r.scores|, i requires 0 <= i < |r.scores| =>
      match r.scores[i] case Inconclusive => Inconclusive case Cast(s) => Cast(ApplyPolarity(s, r.polarity)))
  }

  function AllDecisions(scored: seq<ScoredRecord>): seq<seq<Vote>> {
    seq(|scored|, i requires 0 <= i < |scored| => Decisions(scored[i]))
  }

  function RawScores(scored: seq<ScoredRecord>): seq<seq<Vote>> {
    seq(|scored|, i requires 0 <= i < |scored| => scored[i].scores)
  }

  lemma DecisionsInvertOrKeep(r: ScoredRecord)
    ensures Decisions(r) == if r.polarity == PassOnYes then r.scores else InvertVotes(r.scores)
  {}

  lemma PairsInvert(votes: seq<Vote>)
    ensures AgreeingPairs(InvertVotes(votes)) == AgreeingPairs(votes)
    ensures TotalPairs(InvertVotes(votes)) == TotalPairs(votes)
  {
    AvailableInverts(votes);
    CountInverted(Available(votes));
  }

  /** MAIN. Whatever mix of polarities the records have, applying them changes neither the agreeing
      nor the total pairs: agreement cannot tell whether polarity was applied. */
  lemma {:induction false} AgreementIgnoresPolarity(sqrt: real -> real, scored: seq<ScoredRecord>)
    ensures Agreement(sqrt, AllDecisions(scored)) == Agreement(sqrt, RawScores(scored))
  {
    PolarityKeepsPairs(scored);
  }

  lemma RecordPolarityKeepsPairs(r: ScoredRecord)
    ensures AgreeingPairs(Decisions(r)) == AgreeingPairs(r.scores) && TotalPairs(Decisions(r)) == TotalPairs(r.scores)
  {
    DecisionsInvertOrKeep(r);
    PairsInvert(r.scores);
  }

  lemma {:induction false} PolarityKeepsPairs(scored: seq<ScoredRecord>)
    ensures SumOf(AllDecisions(scored), AgreeingPairs) == SumOf(RawScores(scored), AgreeingPairs)
    ensures SumOf(AllDecisions(scored), TotalPairs) == SumOf(RawScores(scored), TotalPairs)
  {
    if scored != [] {
      var n := |scored| - 1;
      PolarityKeepsPairs(scored[..n]);
      assert AllDecisions(scored) == AllDecisions(scored[..n]) + [Decisions(scored[n])];
      assert RawScores(scored) == RawScores(scored[..n]) + [scored[n].scores];
      RecordPolarityKeepsPairs(scored[n]);
      SumSnoc(AllDecisions(scored[..n]), Decisions(scored[n]), AgreeingPairs);
      SumSnoc(AllDecisions(scored[..n]), Decisions(scored[n]), TotalPairs);
      SumSnoc(RawScores(scored[..n]), scored[n].scores, AgreeingPairs);
      SumSnoc(RawScores(scored[..n]), scored[n].scores, TotalPairs);
    }
  }
}
