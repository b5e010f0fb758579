/** What the order-effect check of `evals/sequence_order_effect.py` reports, told from the outcomes themselves. */
module OrderReport {
  import opened Counting
  import opened Numbers
  import opened OrderEffect
  import opened PairedStats
  import opened Sums
  import RateStats

  /** The scenarios that passed at repetition i. */
  ghost function PassingAt(rows: Matrix, i: nat): set<nat> {
    Places(rows, (row: seq<bool>) => i < |row| && row[i])
  }

  /** The scenarios whose first repetition went one way and whose last went the other. */
  ghost function EndsDiffer(rows: Matrix, first: bool): set<nat> {
    Places(rows, (row: seq<bool>) => row != [] && row[0] == first && row[|row| - 1] != first)
  }

  /** Passes times failures of a scenario. */
  function Mixture(row: seq<bool>): int { multiset(row)[true] * multiset(row)[false] }

  ghost function PassCounts(rows: Matrix, k: nat): seq<int> {
    seq(k, i requires 0 <= i < k => |PassingAt(rows, i)|)
  }

  /** The squared differences of every two counts: k times their squared distances from the mean. */
  ghost function Gaps(counts: seq<int>): int {
    if counts == [] then 0
    else
      var front, last := counts[..|counts| - 1], counts[|counts| - 1];
      Gaps(front) + SumOf(front, Deviation(last))
  }

  /** The textbook statistic: k - 1 times the squared differences of the counts of passes at any two repetitions,
      over the passes times failures of the scenarios. */
  ghost predicate IsCochransQ(q: real, counts: seq<int>, mixture: int) {
    mixture > 0 && q * mixture as real == ((|counts| - 1) * Gaps(counts)) as real
  }

  /** The exact test on b scenarios that changed one way and c that changed the other. */
  ghost predicate IsExactTest(p: McNemar, b: nat, c: nat) {
    if b + c == 0 then p == NoDiscordantPairs
    else Pow2(b + c) > 0 && p == P(RateStats.Share(ExtremeCount(b, c), Pow2(b + c)))
  }

  ghost predicate RatesAre(rates: seq<real>, rows: Matrix, k: nat) {
    && |rates| == k
    && forall i :: 0 <= i < k ==> rates[i] * |rows| as real == |PassingAt(rows, i)| as real
  }

  ghost predicate Reports(sf: (real, int) -> real, r: OrderEffectResult, rows: Matrix, k: nat) {
    && r.computable == r.q.Q?
    && (r.q.Q? <==> k >= 3 && exists row :: row in rows && true in row && false in row)
    && (r.q.Q? ==> IsCochransQ(r.q.q, PassCounts(rows, k), SumOf(rows, Mixture)) && r.q.p == sf(r.q.q, k - 1))
    && RatesAre(r.rates, rows, k)
    && IsExactTest(r.mcnemarP, |EndsDiffer(rows, true)|, |EndsDiffer(rows, false)|)
  }

  // ----- counts are places -----

  lemma {:induction false} ColumnIsPassing(rows: Matrix, i: nat)
    requires forall j :: 0 <= j < |rows| ==> i < |rows[j]|
    ensures CountTrue(Column(rows, i)) == |PassingAt(rows, i)|
  {
    if rows == [] {
      assert PassingAt(rows, i) == {};
    } else {
      var front, row := rows[..|rows| - 1], rows[|rows| - 1];
      assert rows == front + [row];
      ColumnIsPassing(front, i);
      assert Column(rows, i) == Column(front, i) + [row[i]];
      assert (Column(front, i) + [row[i]])[..|front|] == Column(front, i);
      PlacesSnoc(front, row, (r: seq<bool>) => i < |r| && r[i]);
    }
  }

  lemma {:induction false} DiscordantIsEnds(rows: Matrix, first: bool)
    ensures Discordant(rows, first) == |EndsDiffer(rows, first)|
  {
    if rows == [] {
      assert EndsDiffer(rows, first) == {};
    } else {
      var front, row := rows[..|rows| - 1], rows[|rows| - 1];
      assert rows == front + [row];
      DiscordantIsEnds(front, first);
      PlacesSnoc(front, row, (r: seq<bool>) => r != [] && r[0] == first && r[|r| - 1] != first);
    }
  }

  lemma TermIsMixture(row: seq<bool>)
    ensures RowTerm(row) == Mixture(row)
    ensures Uniform(row) <==> !(true in row && false in row)
  {
    CountTrueIsMultiplicity(row);
    OutcomesAddUp(row);
    assert (true in row <==> true in multiset(row)) && (false in row <==> false in multiset(row));
  }

  lemma {:induction false} OutcomesAddUp(row: seq<bool>)
    ensures |row| == multiset(row)[true] + multiset(row)[false]
  {
    if row != [] {
      OutcomesAddUp(row[..|row| - 1]);
      var last := row[|row| - 1];
      assert row == row[..|row| - 1] + [last];
      if last { assert last == true; } else { assert last == false; }
    }
  }

  lemma {:induction false} TermsAreMixtures(rows: Matrix)
    ensures SumOf(rows, RowTerm) == SumOf(rows, Mixture)
  {
    if rows != [] {
      TermsAreMixtures(rows[..|rows| - 1]);
      TermIsMixture(rows[|rows| - 1]);
    }
  }

  // ----- the statistic -----

  lemma {:induction false} GapsAreSpread(counts: seq<int>)
    ensures Gaps(counts) == Spread(counts)
  {
    if counts != [] {
      var front, last := counts[..|counts| - 1], counts[|counts| - 1];
      assert counts == front + [last];
      GapsAreSpread(front);
      SpreadSnoc(front, last);
    }
  }

  lemma QIsTextbook(q: real, counts: seq<int>, mixture: int)
    requires mixture > 0 && q == Quotient((|counts| - 1) * Spread(counts), mixture)
    ensures IsCochransQ(q, counts, mixture)
  {
    GapsAreSpread(counts);
    QuotientTimes((|counts| - 1) * Gaps(counts), mixture);
  }

  // ----- the report -----

  lemma ColSumsAre(rows: Matrix, k: nat)
    requires Rectangular(rows, k)
    ensures ColSums(rows, k) == PassCounts(rows, k)
  {
    forall i | 0 <= i < k
      ensures ColSums(rows, k)[i] == PassCounts(rows, k)[i]
    {
      ColumnIsPassing(rows, i);
    }
  }

  lemma MixedRowExists(sf: (real, int) -> real, rows: Matrix, k: nat)
    requires Rectangular(rows, k)
    ensures CochransQ(sf, rows, k).Q? <==> exists row :: row in rows && true in row && false in row
  {
    UndefinedIffUniform(sf, rows, k);
    forall j | 0 <= j < |rows| { TermIsMixture(rows[j]); }
    if row :| row in rows && true in row && false in row {
      var j :| 0 <= j < |rows| && rows[j] == row;
      assert !Uniform(rows[j]);
    }
    if j :| 0 <= j < |rows| && !Uniform(rows[j]) {
      assert rows[j] in rows;
    }
  }

  lemma QReported(sf: (real, int) -> real, rows: Matrix, k: nat)
    requires Rectangular(rows, k) && k > 0 && CochransQ(sf, rows, k).Q?
    ensures var r := CochransQ(sf, rows, k);
            IsCochransQ(r.q, PassCounts(rows, k), SumOf(rows, Mixture)) && r.p == sf(r.q, k - 1)
  {
    UndefinedIffUniform(sf, rows, k);
    TermsAreMixtures(rows);
    ColSumsAre(rows, k);
    QIsTextbook(CochransQ(sf, rows, k).q, PassCounts(rows, k), SumOf(rows, Mixture));
  }

  lemma RatesReported(rows: Matrix, k: nat)
    requires Rectangular(rows, k) && rows != []
    ensures RatesAre(Rates(rows, k), rows, k)
  {
    forall i | 0 <= i < k
      ensures Rates(rows, k)[i] * |rows| as real == |PassingAt(rows, i)| as real
    {
      ColumnIsPassing(rows, i);
      QuotientTimes(|PassingAt(rows, i)|, |rows|);
    }
  }

  lemma ExactTestReported(rows: Matrix)
    ensures IsExactTest(FirstVsLast(rows), |EndsDiffer(rows, true)|, |EndsDiffer(rows, false)|)
  {
    DiscordantIsEnds(rows, true);
    DiscordantIsEnds(rows, false);
    McNemarIsTwoSidedExact(|EndsDiffer(rows, true)|, |EndsDiffer(rows, false)|);
  }

  lemma CheckSteps(sf: (real, int) -> real, rows: Matrix, k: nat)
    requires Rectangular(rows, k) && rows != [] && k > 0
    ensures OrderEffectCheck(sf, rows).Ok? && Reports(sf, OrderEffectCheck(sf, rows).value, rows, k)
  {
    assert |rows[0]| == k;
    MixedRowExists(sf, rows, k);
    if k >= 3 && CochransQ(sf, rows, k).Q? {
      QReported(sf, rows, k);
    }
    RatesReported(rows, k);
    ExactTestReported(rows);
  }

  ghost predicate Ragged(rows: Matrix) { exists row, row' :: row in rows && row' in rows && |row| != |row'| }

  lemma RaggedIff(rows: Matrix)
    ensures Ragged(rows) <==> rows != [] && !Rectangular(rows, |rows[0]|)
  {
    if rows != [] {
      assert rows[0] in rows;
      if j :| 0 <= j < |rows| && |rows[j]| != |rows[0]| {
        assert rows[j] in rows;
      }
    }
  }

  /** MAIN. The check of any matrix: it is refused without a scenario, when two scenarios differ in length, and
      when they have no repetition; otherwise it reports Cochran's Q, defined from three repetitions on when some
      scenario has both outcomes, with its tail at one degree of freedom less than the repetitions, the exact test
      on the scenarios whose ends differ, and the share of scenarios that passed at each repetition. */
  lemma CheckReports(sf: (real, int) -> real, rows: Matrix)
    ensures var r := OrderEffectCheck(sf, rows);
            && (r == NoScenario <==> rows == [])
            && (r == RaggedRows <==> Ragged(rows))
            && (r == NoRepetition <==> rows != [] && forall row :: row in rows ==> row == [])
            && (r.Ok? ==> rows != [] && Reports(sf, r.value, rows, |rows[0]|))
  {
    RaggedIff(rows);
    if rows != [] {
      var k := |rows[0]|;
      assert rows[0] in rows;
      if Rectangular(rows, k) {
        if k > 0 { CheckSteps(sf, rows, k); }
      } else {
        var j :| 0 <= j < |rows| && |rows[j]| != k;
        assert rows[j] in rows;
      }
    }
  }
}
