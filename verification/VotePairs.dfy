/** Fleiss' kappa and the agreement of a panel, told from the votes and the pairs of raters. */
module VotePairs {
  import opened Counting
  import opened JudgePanel
  import opened KappaStats
  import opened Numbers
  import opened Options
  import opened Sums
  import RateStats

  /** The pairs of raters of an item that both voted. */
  ghost function BothVoted(votes: seq<Vote>): set<(nat, nat)> {
    PairsWith(votes, (a: Vote, b: Vote) => a.Cast? && b.Cast?)
  }

  /** Those that voted alike. */
  ghost function VotedAlike(votes: seq<Vote>): set<(nat, nat)> {
    PairsWith(votes, (a: Vote, b: Vote) => a.Cast? && a == b)
  }

  ghost function VotedFor(votes: seq<Vote>, value: bool): set<nat> { Places(votes, (a: Vote) => a == Cast(value)) }

  ghost function Voters(votes: seq<Vote>): set<nat> { Places(votes, (a: Vote) => a.Cast?) }

  ghost predicate Rated(votes: seq<Vote>) { BothVoted(votes) != {} }

  // ----- one item -----

  lemma AvailableSnoc(front: seq<Vote>, last: Vote)
    ensures Available(front + [last])
         == if last.Cast? then Available(front) + [last.value] else Available(front)
  {
    assert Available(front) + [] == Available(front);
    assert (front + [last])[..|front|] == front;
  }

  lemma CountSnoc(v: seq<bool>, x: bool)
    ensures CountTrue(v + [x]) == CountTrue(v) + if x then 1 else 0
  {
    assert (v + [x])[..|v|] == v;
  }

  lemma VotedForSnoc(front: seq<Vote>, last: Vote, value: bool)
    ensures |VotedFor(front + [last], value)| == |VotedFor(front, value)| + if last == Cast(value) then 1 else 0
  {
    PlacesSnoc(front, last, (a: Vote) => a == Cast(value));
  }

  lemma {:induction false} AvailableAreVoters(votes: seq<Vote>)
    ensures |Available(votes)| == |Voters(votes)| && CountTrue(Available(votes)) == |VotedFor(votes, true)|
    ensures |Voters(votes)| == |VotedFor(votes, true)| + |VotedFor(votes, false)|
  {
    if votes == [] {
      assert Voters(votes) == VotedFor(votes, true) == VotedFor(votes, false) == {};
    } else {
      var front, last := votes[..|votes| - 1], votes[|votes| - 1];
      assert votes == front + [last];
      AvailableAreVoters(front);
      AvailableSnoc(front, last);
      PlacesSnoc(front, last, (a: Vote) => a.Cast?);
      VotedForSnoc(front, last, true);
      VotedForSnoc(front, last, false);
      if last.Cast? {
        CountSnoc(Available(front), last.value);
        if last.value { assert last == Cast(true); } else { assert last == Cast(false); }
      }
    }
  }

  lemma PairsOfSnoc(v: seq<bool>, x: bool)
    ensures PairsOf(v + [x]) == PairsOf(v) + SameAs(x, v)
  {
    CountSnoc(v, x);
    CountTrueBound(v);
    var t, f := CountTrue(v), |v| - CountTrue(v);
    if x {
      PairsNext(t);
      assert PairsOf(v + [x]) == Pairs(t + 1) + Pairs(f);
    } else {
      PairsNext(f);
      assert PairsOf(v + [x]) == Pairs(t) + Pairs(f + 1);
    }
  }

  lemma BothVotedSnoc(front: seq<Vote>, last: Vote)
    ensures |BothVoted(front + [last])| == |BothVoted(front)| + if last.Cast? then |Voters(front)| else 0
  {
    if last.Cast? {
      PairsSnoc(front, last, (a: Vote, b: Vote) => a.Cast? && b.Cast?, (a: Vote) => a.Cast?);
    } else {
      PairsSnoc(front, last, (a: Vote, b: Vote) => a.Cast? && b.Cast?, (a: Vote) => false);
      assert Places(front, (a: Vote) => false) == {};
    }
  }

  lemma VotedAlikeSnoc(front: seq<Vote>, last: Vote)
    ensures |VotedAlike(front + [last])|
         == |VotedAlike(front)| + if last.Cast? then |VotedFor(front, last.value)| else 0
  {
    if last.Cast? {
      var value := last.value;
      PairsSnoc(front, last, (a: Vote, b: Vote) => a.Cast? && a == b, (a: Vote) => a == Cast(value));
    } else {
      PairsSnoc(front, last, (a: Vote, b: Vote) => a.Cast? && a == b, (a: Vote) => false);
      assert Places(front, (a: Vote) => false) == {};
    }
  }

  /** The closed forms count the pairs. */
  lemma {:induction false} PairsAreCounted(votes: seq<Vote>)
    ensures TotalPairs(votes) == |BothVoted(votes)| && AgreeingPairs(votes) == |VotedAlike(votes)|
  {
    if votes == [] {
      assert BothVoted(votes) == VotedAlike(votes) == {};
    } else {
      var front, last := votes[..|votes| - 1], votes[|votes| - 1];
      assert votes == front + [last];
      PairsAreCounted(front);
      BothVotedSnoc(front, last);
      VotedAlikeSnoc(front, last);
      AvailableSnoc(front, last);
      AvailableAreVoters(front);
      if last.Cast? { OneMoreVote(Available(front), last.value); }
    }
  }

  lemma OneMoreVote(v: seq<bool>, x: bool)
    ensures Pairs(|v + [x]|) == Pairs(|v|) + |v| && PairsOf(v + [x]) == PairsOf(v) + SameAs(x, v)
  {
    PairsNext(|v|);
    PairsOfSnoc(v, x);
  }

  // ----- panel agreement -----

  ghost function Compared(votes: seq<Vote>): int { |BothVoted(votes)| }

  ghost function Alike(votes: seq<Vote>): int { |VotedAlike(votes)| }

  /** The counts are of the pairs that could be compared and of those alike; without a pair there is neither rate
      nor interval, and otherwise the rate is the share and the interval the rates the score test keeps. */
  ghost predicate IsAgreement(r: AgreementResult, records: seq<seq<Vote>>) {
    && r.total == SumOf(records, Compared) && r.agreeing == SumOf(records, Alike)
    && (r.total == 0 ==> r.rate == None && r.ci == None)
    && (r.total > 0 ==> r.rate.Some? && r.ci.Some? && IsRate(r.rate.value, r.ci.value, r.agreeing, r.total))
  }

  ghost predicate IsRate(rate: real, ci: RateStats.Interval, agreeing: nat, total: nat) {
    rate * total as real == agreeing as real && RateStats.Inverts(ci, rate, total as real, RateStats.Z95)
  }

  lemma {:induction false} PairSums(records: seq<seq<Vote>>)
    ensures SumOf(records, TotalPairs) == SumOf(records, Compared)
    ensures SumOf(records, AgreeingPairs) == SumOf(records, Alike)
  {
    if records != [] {
      PairSums(records[..|records| - 1]);
      PairsAreCounted(records[|records| - 1]);
    }
  }

  lemma RateReported(sqrt: real -> real, agreeing: nat, total: nat)
    requires IsSqrt(sqrt) && agreeing <= total && total > 0
    ensures IsRate(RateStats.Share(agreeing, total),
                   RateStats.WilsonInterval(sqrt, agreeing, total, RateStats.Z95).value, agreeing, total)
  {
    RateStats.ShareInUnit(agreeing, total);
    RateStats.WilsonIsScoreInterval(sqrt, agreeing, total, RateStats.Z95);
  }

  /** MAIN. Panel agreement is the share of the pairs of raters, both of whom voted, that voted alike. */
  lemma AgreementOfPairs(sqrt: real -> real, records: seq<seq<Vote>>)
    requires IsSqrt(sqrt)
    ensures IsAgreement(Agreement(sqrt, records), records)
  {
    PairSums(records);
    PairTotals(records);
    var agreeing, total := SumOf(records, Alike), SumOf(records, Compared);
    if total > 0 { RateReported(sqrt, agreeing, total); }
  }

  // ----- kappa -----

  /** The shares of alike pairs on the items with a pair, added up. */
  ghost function Shares(items: seq<seq<Vote>>): real {
    if items == [] then 0.0 else Shares(items[..|items| - 1]) + ShareAlike(items[|items| - 1])
  }

  ghost function ShareAlike(votes: seq<Vote>): real {
    if Rated(votes) then Quotient(|VotedAlike(votes)|, |BothVoted(votes)|) else 0.0
  }

  /** The votes, and the true ones, on an item with a pair. */
  ghost function Counted(votes: seq<Vote>): int { if Rated(votes) then |Voters(votes)| else 0 }

  ghost function CountedTrue(votes: seq<Vote>): int { if Rated(votes) then |VotedFor(votes, true)| else 0 }

  /** Two votes drawn from n, t of them true, are alike with this chance. */
  ghost predicate IsChance(chance: real, t: int, n: int) {
    n > 0 && chance * (n as real * n as real) == t as real * t as real + (n - t) as real * (n - t) as real
  }

  ghost predicate IsMean(mean: real, n: nat, total: real) { mean * n as real == total }

  /** What the agreement exceeds chance by, in units of what it could, unless that is nothing. */
  ghost predicate IsRescaled(kappa: Option<real>, observed: real, chance: real) {
    && (kappa.None? <==> chance >= 1.0)
    && (kappa.Some? ==> kappa.value * (1.0 - chance) == observed - chance)
  }

  /** The mean share of alike pairs, the chance of the votes cast, and kappa between them. */
  ghost predicate IsKappa(r: KappaResult, items: seq<seq<Vote>>) {
    var n := |Places(items, Rated)|;
    && r.nItems == n
    && (n == 0 ==> r == KappaResult(None, 0.0, 0.0, 0))
    && (n > 0 ==>
          && IsMean(r.observed, n, Shares(items))
          && IsChance(r.chance, SumOf(items, CountedTrue), SumOf(items, Counted))
          && IsRescaled(r.kappa, r.observed, r.chance))
  }

  lemma RatedIff(votes: seq<Vote>)
    ensures Rated(votes) <==> |Available(votes)| >= 2
  {
    PairsAreCounted(votes);
    PairsDouble(|Available(votes)|);
    if |Available(votes)| >= 2 {
      PairsTwicePositive(|Available(votes)|);
    } else {
      OnePair(Available(votes));
    }
  }

  lemma ShareOfItem(votes: seq<Vote>)
    requires Rated(votes)
    ensures |Available(votes)| >= 2 && ItemAgreement(Available(votes)) == ShareAlike(votes)
  {
    var v := Available(votes);
    RatedIff(votes);
    PairsAreCounted(votes);
    RecordPairs(v);
    HalfQuotient(PairsOf(v), Pairs(|v|));
  }

  lemma {:induction false} RateableAreRated(items: seq<seq<Vote>>)
    ensures AllRateable(Rateable(items))
    ensures |Rateable(items)| == |Places(items, Rated)|
    ensures SumOf(Rateable(items), Trues) == SumOf(items, CountedTrue)
    ensures SumOf(Rateable(items), Length) == SumOf(items, Counted)
  {
    if items == [] {
      assert Places(items, Rated) == {};
    } else {
      var front, last := items[..|items| - 1], items[|items| - 1];
      assert items == front + [last];
      RateableAreRated(front);
      RatedIff(last);
      AvailableAreVoters(last);
      PlacesSnoc(front, last, Rated);
      SumSnoc(Rateable(front), Available(last), Trues);
      SumSnoc(Rateable(front), Available(last), Length);
      assert Rateable(front) + [] == Rateable(front);
    }
  }

  lemma {:induction false} SharesAreSummed(items: seq<seq<Vote>>)
    ensures AllRateable(Rateable(items)) && AgreementSum(Rateable(items)) == Shares(items)
  {
    RateableKeepsPairs(items);
    if items != [] {
      var front, last := items[..|items| - 1], items[|items| - 1];
      SharesAreSummed(front);
      RatedIff(last);
      if Rated(last) {
        ShareOfItem(last);
        assert (Rateable(front) + [Available(last)])[..|Rateable(front)|] == Rateable(front);
      } else {
        assert Rateable(items) == Rateable(front);
      }
    }
  }

  lemma ChanceOfVotes(p: real, t: int, n: int)
    requires n > 0 && p * n as real == t as real
    ensures IsChance(Chance(p), t, n)
  {
    var r := n as real;
    assert (p * p) * (r * r) == (p * r) * (p * r);
    assert ((1.0 - p) * (1.0 - p)) * (r * r) == ((1.0 - p) * r) * ((1.0 - p) * r);
    assert (1.0 - p) * r == r - p * r;
  }

  lemma KappaBetween(observed: real, chance: real)
    ensures IsRescaled(KappaAt(observed, chance), observed, chance)
  {
    if chance < 1.0 { DivLe(observed - chance, 0.0, 1.0 - chance); }
  }

  lemma MeanTimes(total: real, n: nat)
    requires n > 0
    ensures IsMean(Mean(total, n), n, total)
  {
    DivLe(total, 0.0, n as real);
  }

  lemma ChanceIs(kept: seq<seq<bool>>)
    requires AllRateable(kept) && kept != []
    ensures IsChance(Chance(PTrue(kept)), SumOf(kept, Trues), SumOf(kept, Length))
  {
    VotesExist(kept);
    QuotientTimes(SumOf(kept, Trues), SumOf(kept, Length));
    ChanceOfVotes(PTrue(kept), SumOf(kept, Trues), SumOf(kept, Length));
  }

  lemma KappaOfKept(kept: seq<seq<bool>>)
    requires AllRateable(kept) && kept != []
    ensures IsMean(Observed(kept), |kept|, AgreementSum(kept))
    ensures IsRescaled(KappaOf(kept), Observed(kept), Chance(PTrue(kept)))
  {
    MeanTimes(AgreementSum(kept), |kept|);
    KappaBetween(Observed(kept), Chance(PTrue(kept)));
  }

  /** MAIN. Fleiss' kappa of any votes: items on which fewer than two raters voted are left out, the observed
      agreement is the mean share of alike pairs on the others, the chance is that of two of their votes being
      alike, and kappa is what agreement exceeds chance by, in units of what it could. */
  lemma KappaOfPairs(items: seq<seq<Vote>>)
    ensures IsKappa(Fleiss(items), items)
  {
    var kept := Rateable(items);
    RateableAreRated(items);
    SharesAreSummed(items);
    if kept != [] {
      KappaOfKept(kept);
      ChanceIs(kept);
    }
  }

  // ----- polarity -----

  /** Read as decisions, the yes scores of a record that should answer yes are its passes, and of one that should
      answer no its failures; a seat without a score stays without a decision. */
  lemma DecisionsAre(r: ScoredRecord)
    ensures VotedFor(Decisions(r), true) == VotedFor(r.scores, r.polarity == PassOnYes)
    ensures VotedFor(Decisions(r), false) == VotedFor(r.scores, r.polarity == PassOnNo)
    ensures Voters(Decisions(r)) == Voters(r.scores)
  {
    forall i | 0 <= i < |r.scores|
      ensures Decisions(r)[i] == Cast(true) <==> r.scores[i] == Cast(r.polarity == PassOnYes)
      ensures Decisions(r)[i] == Cast(false) <==> r.scores[i] == Cast(r.polarity == PassOnNo)
      ensures Decisions(r)[i].Cast? <==> r.scores[i].Cast?
    {
      OneDecision(r, i);
    }
  }

  lemma OneDecision(r: ScoredRecord, i: nat)
    requires i < |r.scores|
    ensures Decisions(r)[i] == Cast(true) <==> r.scores[i] == Cast(r.polarity == PassOnYes)
    ensures Decisions(r)[i] == Cast(false) <==> r.scores[i] == Cast(r.polarity == PassOnNo)
    ensures Decisions(r)[i].Cast? <==> r.scores[i].Cast?
  {
    match r.scores[i]
    case Inconclusive =>
    case Cast(s) =>
      match r.polarity
      case PassOnYes => assert Decisions(r)[i] == Cast(s);
      case PassOnNo => assert Decisions(r)[i] == Cast(!s);
  }
}
