/** Which rows calibration counts, and the reports it makes of them, after `evals/calibration.py`. */
module Calibration {
  import opened CalibrationIntervals
  import opened CalibrationRecords
  import opened CohenKappa
  import opened Counting
  import opened Grouping
  import opened Numbers
  import opened Options
  import opened Sorting

  const BOOTSTRAP_RESAMPLES: nat := 2000
  const INTERVALS_PER_SCORER: nat := 2

  /** Headline: the scorer against the human. Secondary: the reference labeller against the human. */
  datatype Axis = Headline | Secondary

  datatype Failure = TooFewRows(axis: Axis) | UndefinedKappa(axis: Axis) | AllDegenerate(axis: Axis) | NoOpinions

  datatype Outcome<+T> = Computed(value: T) | Raised(failure: Failure)

  // ----- the population of an axis -----

  predicate Counted(row: CalibrationLabel, axis: Axis) {
    row.humanVerdict.Some? && !row.needsReview && (axis == Secondary ==> row.preLabel.Some?)
  }

  function Keep(rows: Rows, p: CalibrationLabel -> bool): Rows {
    if rows == [] then []
    else
      var front := Keep(rows[..|rows| - 1], p);
      if p(rows[|rows| - 1]) then front + [rows[|rows| - 1]] else front
  }

  function Population(rows: Rows, axis: Axis): Rows { Keep(rows, row => Counted(row, axis)) }

  function Judged(rows: Rows): Rows { Keep(rows, (row: CalibrationLabel) => row.humanVerdict.Some?) }

  function Flagged(rows: Rows): Rows {
    Keep(rows, (row: CalibrationLabel) => row.humanVerdict.Some? && row.needsReview)
  }

  function WithOpinion(rows: Rows): Rows {
    Keep(rows, (row: CalibrationLabel) => row.humanVerdict.Some? && row.preLabel.Some?)
  }

  lemma {:induction false} KeepIs(rows: Rows, p: CalibrationLabel -> bool)
    ensures forall row :: row in Keep(rows, p) <==> row in rows && p(row)
    ensures |Keep(rows, p)| <= |rows|
    ensures (forall row :: row in rows ==> p(row)) <==> |Keep(rows, p)| == |rows|
    ensures (forall row :: row in rows ==> p(row)) ==> Keep(rows, p) == rows
  {
    if rows != [] {
      KeepIs(rows[..|rows| - 1], p);
      assert rows == rows[..|rows| - 1] + [rows[|rows| - 1]];
    }
  }

  /** Every judged row is counted on the headline axis, or left out as flagged. */
  lemma {:induction false} ExclusionsAreExact(rows: Rows)
    ensures |Judged(rows)| == |Population(rows, Headline)| + |Flagged(rows)|
  {
    if rows != [] { ExclusionsAreExact(rows[..|rows| - 1]); }
  }

  // ----- the table and its kappa -----

  function Machine(row: CalibrationLabel, axis: Axis): bool {
    if axis == Headline then row.scorerVerdict else row.preLabel == Some(true)
  }

  function Cell(rows: Rows, axis: Axis, machine: bool, human: bool): nat {
    if rows == [] then 0
    else
      var last := rows[|rows| - 1];
      Cell(rows[..|rows| - 1], axis, machine, human)
      + if Machine(last, axis) == machine && last.humanVerdict == Some(human) then 1 else 0
  }

  function TableOf(rows: Rows, axis: Axis): Table {
    Table(Cell(rows, axis, true, true), Cell(rows, axis, true, false),
          Cell(rows, axis, false, true), Cell(rows, axis, false, false))
  }

  lemma {:induction false} TableCountsRows(rows: Rows, axis: Axis)
    requires forall row :: row in rows ==> row.humanVerdict.Some?
    ensures TableOf(rows, axis).N() == |rows|
  {
    if rows != [] {
      assert forall row :: row in rows[..|rows| - 1] ==> row in rows;
      TableCountsRows(rows[..|rows| - 1], axis);
      assert rows[|rows| - 1] in rows;
      OneMoreRow(rows, axis);
    }
  }

  lemma OneMoreRow(rows: Rows, axis: Axis)
    requires rows != [] && rows[|rows| - 1].humanVerdict.Some?
    ensures TableOf(rows, axis).N() == TableOf(rows[..|rows| - 1], axis).N() + 1
  {
    var last := rows[|rows| - 1];
    match last.humanVerdict
    case Some(human) =>
      assert human || !human;
      if human { assert last.humanVerdict == Some(true); } else { assert last.humanVerdict == Some(false); }
  }

  function KappaOver(rows: Rows, axis: Axis): Outcome<real> {
    var counted := Population(rows, axis);
    if |counted| < 2 then Raised(TooFewRows(axis))
    else
      KeepIs(rows, row => Counted(row, axis));
      TableCountsRows(counted, axis);
      var kappa := KappaFromMatrix(TableOf(counted, axis));
      if kappa.None? then Raised(UndefinedKappa(axis)) else Computed(kappa.value)
  }

  /** Flagged rows, and on the secondary axis rows without an opinion, do not touch a kappa. */
  lemma OnlyCountedRowsMatter(rows: Rows, axis: Axis)
    ensures KappaOver(rows, axis) == KappaOver(Population(rows, axis), axis)
    ensures Population(Population(rows, axis), axis) == Population(rows, axis)
  {
    KeepIs(rows, row => Counted(row, axis));
    KeepIs(Population(rows, axis), row => Counted(row, axis));
  }

  lemma KappaOverRange(rows: Rows, axis: Axis)
    ensures KappaOver(rows, axis).Computed? ==> -1.0 <= KappaOver(rows, axis).value <= 1.0
  {
    var counted := Population(rows, axis);
    if |counted| >= 2 {
      KeepIs(rows, row => Counted(row, axis));
      TableCountsRows(counted, axis);
      if KappaFromMatrix(TableOf(counted, axis)).Some? {
        KappaRange(TableOf(counted, axis));
      }
    }
  }

  // ----- agreement -----

  function Agreeing(rows: Rows): nat { |Keep(rows, (row: CalibrationLabel) => row.preLabel == row.humanVerdict)| }

  function AgreementRate(rows: Rows): Outcome<real> {
    var judged := WithOpinion(rows);
    if judged == [] then Raised(NoOpinions) else Computed(Quotient(Agreeing(judged), |judged|))
  }

  /** The judged, flagged rows with a pre-label, which the agreement rate still counts. */
  function FlaggedOpinions(rows: Rows): Rows {
    Keep(rows, (row: CalibrationLabel) => row.humanVerdict.Some? && row.preLabel.Some? && row.needsReview)
  }

  lemma AgreeingSnoc(rows: Rows, row: CalibrationLabel)
    ensures Agreeing(rows + [row]) == Agreeing(rows) + if row.preLabel == row.humanVerdict then 1 else 0
  {
    assert (rows + [row])[..|rows|] == rows;
  }

  lemma {:induction false} OpinionsSplit(rows: Rows)
    ensures |WithOpinion(rows)| == |Population(rows, Secondary)| + |FlaggedOpinions(rows)|
    ensures Agreeing(WithOpinion(rows)) == Agreeing(Population(rows, Secondary)) + Agreeing(FlaggedOpinions(rows))
  {
    if rows != [] {
      var front, last := rows[..|rows| - 1], rows[|rows| - 1];
      OpinionsSplit(front);
      if last.humanVerdict.Some? && last.preLabel.Some? {
        AgreeingSnoc(WithOpinion(front), last);
        AgreeingSnoc(Population(front, Secondary), last);
        AgreeingSnoc(FlaggedOpinions(front), last);
      }
    }
  }

  lemma {:induction false} CleanOpinions(rows: Rows)
    ensures WithOpinion(Population(rows, Secondary)) == Population(rows, Secondary)
  {
    var counted := Population(rows, Secondary);
    KeepIs(rows, row => Counted(row, Secondary));
    KeepIs(counted, (row: CalibrationLabel) => row.humanVerdict.Some? && row.preLabel.Some?);
  }

  /** Adding b of m to a of n moves the share up, down or not at all, as b/m compares with a/n. */
  lemma PooledShare(a: nat, n: nat, b: nat, m: nat)
    requires n > 0 && m > 0
    ensures Quotient(a + b, n + m) > Quotient(a, n) <==> b * n > a * m
    ensures Quotient(a + b, n + m) == Quotient(a, n) <==> b * n == a * m
  {
    var q := Quotient(a, n);
    QuotientTimes(a, n);
    DivLe((a + b) as real, q, (n + m) as real);
    assert q * (n + m) as real == a as real + q * m as real;
    ScaledOrder(b as real, q * m as real, n as real);
    assert n as real * (q * m as real) == (q * n as real) * m as real;
    assert (b * n) as real == n as real * b as real && (a * m) as real == a as real * m as real;
  }

  /** MAIN. Unlike the other statistics the agreement rate counts flagged rows, and this is when it matters:
      it differs from the rate over the clean rows exactly when the flagged rows agree at another rate,
      is the larger exactly when they agree more often, and exists alone without clean rows. */
  lemma FlaggedRowsMoveTheRate(rows: Rows)
    ensures var clean, flagged := Population(rows, Secondary), FlaggedOpinions(rows);
            var rate, cleanRate := AgreementRate(rows), AgreementRate(clean);
            && (flagged == [] ==> rate == cleanRate)
            && (clean == [] && flagged != [] ==> rate.Computed? && cleanRate == Raised(NoOpinions))
            && (clean != [] && flagged != [] ==>
                  && rate.Computed? && cleanRate.Computed?
                  && (rate == cleanRate <==> Agreeing(flagged) * |clean| == Agreeing(clean) * |flagged|)
                  && (rate.value > cleanRate.value <==> Agreeing(flagged) * |clean| > Agreeing(clean) * |flagged|))
  {
    OpinionsSplit(rows);
    CleanOpinions(rows);
    var clean, flagged := Population(rows, Secondary), FlaggedOpinions(rows);
    if clean != [] && flagged != [] {
      PooledShare(Agreeing(clean), |clean|, Agreeing(flagged), |flagged|);
    }
  }

  lemma AgreementInUnit(rows: Rows)
    ensures AgreementRate(rows).Raised? <==> WithOpinion(rows) == []
    ensures AgreementRate(rows).Computed? ==> 0.0 <= AgreementRate(rows).value <= 1.0
  {
    var judged := WithOpinion(rows);
    if judged != [] {
      KeepIs(judged, (row: CalibrationLabel) => row.preLabel == row.humanVerdict);
      QuotientInUnit(Agreeing(judged), |judged|);
    }
  }

  // ----- clusters -----

  /** The part of a record id before the first colon. */
  function CaseId(recordId: string): string {
    if recordId == [] || recordId[0] == ':' then [] else [recordId[0]] + CaseId(recordId[1..])
  }

  function Tagged(rows: Rows): seq<(string, CalibrationLabel)> {
    seq(|rows|, i requires 0 <= i < |rows| => (CaseId(rows[i].recordId), rows[i]))
  }

  function Clusters(rows: Rows): seq<Rows> { Groups(Tagged(rows), KeysInOrder(Tagged(rows))) }

  method ExtractCaseClusters(rows: Rows) returns (clusters: seq<Rows>)
    ensures clusters == Clusters(rows)
  {
    var keys, groups := GroupBy(Tagged(rows));
    clusters := [];
    for n := 0 to |keys|
      invariant clusters == Groups(Tagged(rows), keys[..n])
    {
      assert keys[n] in keys;
      clusters := clusters + [groups[keys[n]]];
    }
    assert keys[..|keys|] == keys;
  }

  /** MAIN. The clusters together hold exactly the rows, and rows without a cluster there are none. */
  lemma ClustersPartition(rows: Rows)
    ensures multiset(Flatten(Clusters(rows))) == multiset(rows)
    ensures |Flatten(Clusters(rows))| == |rows|
    ensures rows != [] ==> Clusters(rows) != []
  {
    GroupingConserves(Tagged(rows));
    assert Snds(Tagged(rows)) == rows;
    assert |Flatten(Clusters(rows))| == |multiset(Flatten(Clusters(rows)))| == |multiset(rows)|;
    if Clusters(rows) == [] {
      assert |Flatten(Clusters(rows))| == 0;
    }
  }

  // ----- the bootstrap -----

  /** Whatever the seeded generator returns: for `n` clusters, sample `s`, position `i`. */
  type Draw = (nat, nat, nat) -> nat

  function Drawn(clusters: seq<Rows>, draw: Draw, s: nat, k: nat): Rows
    requires clusters != []
  {
    if k == 0 then []
    else Drawn(clusters, draw, s, k - 1) + clusters[draw(|clusters|, s, k - 1) % |clusters|]
  }

  function Sample(clusters: seq<Rows>, draw: Draw, s: nat): Rows
    requires clusters != []
  {
    Drawn(clusters, draw, s, |clusters|)
  }

  /** The kappas of the first `m` samples that have one. */
  function Kappas(clusters: seq<Rows>, axis: Axis, draw: Draw, m: nat): seq<real>
    requires clusters != []
  {
    if m == 0 then []
    else
      var front := Kappas(clusters, axis, draw, m - 1);
      var kappa := KappaOver(Sample(clusters, draw, m - 1), axis);
      if kappa.Computed? then front + [kappa.value] else front
  }

  lemma KappasSnoc(clusters: seq<Rows>, axis: Axis, draw: Draw, m: nat, kappa: Outcome<real>)
    requires clusters != [] && m > 0 && kappa == KappaOver(Sample(clusters, draw, m - 1), axis)
    ensures Kappas(clusters, axis, draw, m)
         == Kappas(clusters, axis, draw, m - 1) + if kappa.Computed? then [kappa.value] else []
  {}

  method RunBootstrapSamples(clusters: seq<Rows>, axis: Axis, draw: Draw) returns (kappas: seq<real>, dropped: nat)
    requires clusters != []
    ensures kappas == Kappas(clusters, axis, draw, BOOTSTRAP_RESAMPLES)
    ensures |kappas| + dropped == BOOTSTRAP_RESAMPLES
  {
    kappas, dropped := [], 0;
    for s := 0 to BOOTSTRAP_RESAMPLES
      invariant kappas == Kappas(clusters, axis, draw, s)
      invariant |kappas| + dropped == s
    {
      var sample: Rows := [];
      for i := 0 to |clusters|
        invariant sample == Drawn(clusters, draw, s, i)
      {
        sample := sample + clusters[draw(|clusters|, s, i) % |clusters|];
      }
      var kappa := KappaOver(sample, axis);
      if kappa.Computed? {
        kappas := kappas + [kappa.value];
      } else {
        dropped := dropped + 1;
      }
    }
  }

  datatype KappaCI = KappaCI(lo: real, hi: real, nClusters: nat, nRows: nat, holm: Option<(real, real)>)

  function PercentilesOf(kappas: seq<real>, lo: real, hi: real): (real, real)
    requires kappas != [] && 0.0 <= lo < 0.5 && hi == 1.0 - lo
  {
    SortedSorts(kappas);
    IndicesMirror(|kappas|, lo, hi);
    (Sorted(kappas)[LoIndex(|kappas|, lo)], Sorted(kappas)[HiIndex(|kappas|, lo, hi)])
  }

  function Holm(kappas: seq<real>, familySize: nat): Option<(real, real)>
    requires kappas != []
  {
    if familySize <= 1 then None
    else
      HolmTailIsSmaller(familySize);
      Some(PercentilesOf(kappas, HolmTail(familySize), 1.0 - HolmTail(familySize)))
  }

  /** The interval of the kappas that are kept. */
  function IntervalOf(kappas: seq<real>, nClusters: nat, nRows: nat, familySize: nat): KappaCI
    requires kappas != []
  {
    var nominal := PercentilesOf(kappas, CI_LO_PERCENTILE, CI_HI_PERCENTILE);
    KappaCI(nominal.0, nominal.1, nClusters, nRows, Holm(kappas, familySize))
  }

  function Interval(rows: Rows, axis: Axis, draw: Draw, familySize: nat): Outcome<KappaCI> {
    var counted := Population(rows, axis);
    if |counted| < 2 then Raised(TooFewRows(axis))
    else
      ClustersPartition(counted);
      var clusters := Clusters(counted);
      var kappas := Kappas(clusters, axis, draw, BOOTSTRAP_RESAMPLES);
      if kappas == [] then Raised(AllDegenerate(axis))
      else Computed(IntervalOf(kappas, |clusters|, |Flatten(clusters)|, familySize))
  }

  method KappaInterval(rows: Rows, axis: Axis, draw: Draw, familySize: nat) returns (r: Outcome<KappaCI>)
    ensures r == Interval(rows, axis, draw, familySize)
  {
    var counted := Population(rows, axis);
    if |counted| < 2 {
      return Raised(TooFewRows(axis));
    }
    ClustersPartition(counted);
    var clusters := ExtractCaseClusters(counted);
    var kappas, dropped := RunBootstrapSamples(clusters, axis, draw);
    if kappas == [] {
      return Raised(AllDegenerate(axis));
    }
    SortedSorts(kappas);
    var ordered := Sorted(kappas);
    IndicesMirror(|ordered|, CI_LO_PERCENTILE, CI_HI_PERCENTILE);
    var lo := ordered[LoIndex(|ordered|, CI_LO_PERCENTILE)];
    var hi := ordered[HiIndex(|ordered|, CI_LO_PERCENTILE, CI_HI_PERCENTILE)];
    var holm := None;
    if familySize > 1 {
      holm := Holm(kappas, familySize);
    }
    r := Computed(KappaCI(lo, hi, |clusters|, |Flatten(clusters)|, holm));
  }

  lemma {:induction false} KappasInRange(clusters: seq<Rows>, axis: Axis, draw: Draw, m: nat)
    requires clusters != []
    ensures forall k :: k in Kappas(clusters, axis, draw, m) ==> -1.0 <= k <= 1.0
  {
    if m > 0 {
      KappasInRange(clusters, axis, draw, m - 1);
      KappaOverRange(Sample(clusters, draw, m - 1), axis);
    }
  }

  lemma EnclosedPercentiles(kappas: seq<real>, familySize: nat)
    requires kappas != [] && familySize >= 1
    ensures 0.0 < HolmTail(familySize) <= CI_LO_PERCENTILE
    ensures var nominal := PercentilesOf(kappas, CI_LO_PERCENTILE, CI_HI_PERCENTILE);
            var holm := PercentilesOf(kappas, HolmTail(familySize), 1.0 - HolmTail(familySize));
            && holm.0 <= nominal.0 <= nominal.1 <= holm.1
            && holm.0 in kappas && nominal.0 in kappas && nominal.1 in kappas && holm.1 in kappas
  {
    var n, tail := |kappas|, HolmTail(familySize);
    HolmTailIsSmaller(familySize);
    HolmEnclosesNominal(n, familySize);
    EnclosedAt(kappas, LoIndex(n, tail), LoIndex(n, CI_LO_PERCENTILE),
               HiIndex(n, CI_LO_PERCENTILE, CI_HI_PERCENTILE), HiIndex(n, tail, 1.0 - tail));
  }

  lemma EnclosedAt(kappas: seq<real>, i: int, j: int, k: int, l: int)
    requires 0 <= i <= j <= k <= l < |kappas|
    ensures var ordered := Sorted(kappas);
            && |ordered| == |kappas| && ordered[i] <= ordered[j] <= ordered[k] <= ordered[l]
            && ordered[i] in kappas && ordered[j] in kappas && ordered[k] in kappas && ordered[l] in kappas
  {
    SortedPair(kappas, i, j);
    SortedPair(kappas, j, k);
    SortedPair(kappas, k, l);
  }

  lemma SortedPair(kappas: seq<real>, i: int, j: int)
    requires 0 <= i <= j < |kappas|
    ensures var ordered := Sorted(kappas);
            |ordered| == |kappas| && ordered[i] <= ordered[j] && ordered[i] in kappas && ordered[j] in kappas
  {
    SortedSorts(kappas);
    assert Sorted(kappas)[i] in multiset(Sorted(kappas)) && Sorted(kappas)[j] in multiset(Sorted(kappas));
  }

  lemma IntervalOfIsSound(kappas: seq<real>, nClusters: nat, nRows: nat, familySize: nat)
    requires kappas != [] && nClusters >= 1 && forall k :: k in kappas ==> -1.0 <= k <= 1.0
    ensures SoundInterval(IntervalOf(kappas, nClusters, nRows, familySize), nRows, familySize)
  {
    EnclosedPercentiles(kappas, if familySize > 1 then familySize else 1);
  }

  /** MAIN. A computed interval lies in [-1, 1] with its ends in order, counts every row of the
      population, and with a family of intervals carries Holm bounds that enclose it. */
  lemma IntervalIsWellFormed(rows: Rows, axis: Axis, draw: Draw, familySize: nat)
    requires Interval(rows, axis, draw, familySize).Computed?
    ensures SoundInterval(Interval(rows, axis, draw, familySize).value, |Population(rows, axis)|, familySize)
  {
    var counted := Population(rows, axis);
    ClustersPartition(counted);
    var kappas := Kappas(Clusters(counted), axis, draw, BOOTSTRAP_RESAMPLES);
    KappasInRange(Clusters(counted), axis, draw, BOOTSTRAP_RESAMPLES);
    IntervalOfIsSound(kappas, |Clusters(counted)|, |Flatten(Clusters(counted))|, familySize);
  }

  // ----- one scorer, and all of them -----

  datatype ScorerReport = ScorerReport(
    scorer: string,
    counts: Table,
    kappa: real,
    ci: KappaCI,
    agreement: real,
    secondaryCounts: Table,
    secondaryKappa: real,
    secondaryCi: KappaCI)

  function OfScorer(rows: Rows, scorer: string): Rows { Keep(rows, (row: CalibrationLabel) => row.scorer == scorer) }

  /** The computations in the order they are made: the first that fails ends the report. */
  function Calibrated(scorer: string, allRows: Rows, familySize: nat, draw: Draw): Outcome<ScorerReport> {
    var rows := OfScorer(allRows, scorer);
    var kappa := KappaOver(rows, Headline);
    if kappa.Raised? then Raised(kappa.failure)
    else
      var ci := Interval(rows, Headline, draw, familySize);
      if ci.Raised? then Raised(ci.failure)
      else
        var secondary := KappaOver(rows, Secondary);
        if secondary.Raised? then Raised(secondary.failure)
        else
          var secondaryCi := Interval(rows, Secondary, draw, familySize);
          if secondaryCi.Raised? then Raised(secondaryCi.failure)
          else
            var agreement := AgreementRate(rows);
            if agreement.Raised? then Raised(agreement.failure)
            else
              Computed(ScorerReport(scorer, TableOf(Population(rows, Headline), Headline), kappa.value, ci.value,
                                    agreement.value, TableOf(Population(rows, Secondary), Secondary), secondary.value,
                                    secondaryCi.value))
  }

  /** What a report promises: each table counts its whole population, each kappa is its table's, each interval
      is in [-1, 1] over the same rows, with Holm bounds around it exactly in a family. */
  ghost predicate SoundReport(report: ScorerReport, rows: Rows, familySize: nat) {
    && SoundAxis(report.counts, report.kappa, report.ci, rows, Headline, familySize)
    && SoundAxis(report.secondaryCounts, report.secondaryKappa, report.secondaryCi, rows, Secondary, familySize)
    && 0.0 <= report.agreement <= 1.0
  }

  ghost predicate SoundAxis(t: Table, kappa: real, ci: KappaCI, rows: Rows, axis: Axis, familySize: nat) {
    && t.N() == |Population(rows, axis)| >= 2 && KappaFromMatrix(t) == Some(kappa) && -1.0 <= kappa <= 1.0
    && SoundInterval(ci, t.N(), familySize)
  }

  ghost predicate SoundInterval(ci: KappaCI, nRows: nat, familySize: nat) {
    && -1.0 <= ci.lo <= ci.hi <= 1.0 && ci.nRows == nRows && ci.nClusters >= 1
    && (ci.holm.Some? <==> familySize > 1)
    && (ci.holm.Some? ==> -1.0 <= ci.holm.value.0 <= ci.lo && ci.hi <= ci.holm.value.1 <= 1.0)
  }

  lemma AxisIsSound(rows: Rows, axis: Axis, draw: Draw, familySize: nat)
    requires KappaOver(rows, axis).Computed? && Interval(rows, axis, draw, familySize).Computed?
    ensures SoundAxis(TableOf(Population(rows, axis), axis), KappaOver(rows, axis).value,
                      Interval(rows, axis, draw, familySize).value, rows, axis, familySize)
  {
    KeepIs(rows, row => Counted(row, axis));
    TableCountsRows(Population(rows, axis), axis);
    KappaOverRange(rows, axis);
    IntervalIsWellFormed(rows, axis, draw, familySize);
  }

  // ----- what a report counts -----

  /** Judged, and not flagged for review. */
  ghost predicate Clean(row: CalibrationLabel) { row.humanVerdict.Some? && !row.needsReview }

  /** The scorer said `machine` of a clean row, and the human `human`. */
  ghost predicate ScorerSaid(row: CalibrationLabel, machine: bool, human: bool) {
    Clean(row) && row.scorerVerdict == machine && row.humanVerdict == Some(human)
  }

  /** The same of the reference labeller, on a row it labelled. */
  ghost predicate LabellerSaid(row: CalibrationLabel, machine: bool, human: bool) {
    Clean(row) && row.preLabel == Some(machine) && row.humanVerdict == Some(human)
  }

  ghost predicate RowSaid(row: CalibrationLabel, scorer: string, axis: Axis, machine: bool, human: bool) {
    && row.scorer == scorer
    && if axis == Headline then ScorerSaid(row, machine, human) else LabellerSaid(row, machine, human)
  }

  ghost function Said(rows: Rows, scorer: string, axis: Axis, machine: bool, human: bool): set<nat> {
    Places(rows, row => RowSaid(row, scorer, axis, machine, human))
  }

  lemma KeepSnoc(rows: Rows, row: CalibrationLabel, p: CalibrationLabel -> bool)
    ensures Keep(rows + [row], p) == Keep(rows, p) + if p(row) then [row] else []
  {
    assert (rows + [row])[..|rows|] == rows;
  }

  lemma CellSnoc(rows: Rows, row: CalibrationLabel, axis: Axis, machine: bool, human: bool)
    ensures Cell(rows + [row], axis, machine, human)
         == Cell(rows, axis, machine, human)
            + if Machine(row, axis) == machine && row.humanVerdict == Some(human) then 1 else 0
  {
    assert (rows + [row])[..|rows|] == rows;
  }

  lemma RowSaidIs(row: CalibrationLabel, scorer: string, axis: Axis, machine: bool, human: bool)
    ensures RowSaid(row, scorer, axis, machine, human) <==>
            && row.scorer == scorer && Counted(row, axis)
            && Machine(row, axis) == machine && row.humanVerdict == Some(human)
  {
    if axis == Secondary && row.preLabel.Some? {
      if row.preLabel.value { assert row.preLabel == Some(true); } else { assert row.preLabel == Some(false); }
    }
  }

  lemma SaidSnoc(rows: Rows, row: CalibrationLabel, scorer: string, axis: Axis, machine: bool, human: bool)
    ensures |Said(rows + [row], scorer, axis, machine, human)|
         == |Said(rows, scorer, axis, machine, human)| + if RowSaid(row, scorer, axis, machine, human) then 1 else 0
  {
    PlacesSnoc(rows, row, r => RowSaid(r, scorer, axis, machine, human));
  }

  lemma {:induction false} CellIsSaid(rows: Rows, scorer: string, axis: Axis, machine: bool, human: bool)
    ensures Cell(Population(OfScorer(rows, scorer), axis), axis, machine, human)
         == |Said(rows, scorer, axis, machine, human)|
  {
    if rows == [] {
      assert Said(rows, scorer, axis, machine, human) == {};
    } else {
      var front, row := rows[..|rows| - 1], rows[|rows| - 1];
      assert rows == front + [row];
      CellIsSaid(front, scorer, axis, machine, human);
      SaidSnoc(front, row, scorer, axis, machine, human);
      RowSaidIs(row, scorer, axis, machine, human);
      KeepSnoc(front, row, (r: CalibrationLabel) => r.scorer == scorer);
      if row.scorer == scorer {
        KeepSnoc(OfScorer(front, scorer), row, r => Counted(r, axis));
        if Counted(row, axis) {
          CellSnoc(Population(OfScorer(front, scorer), axis), row, axis, machine, human);
        }
      }
    }
  }

  ghost predicate TableSays(t: Table, rows: Rows, scorer: string, axis: Axis) {
    && t.tp == |Said(rows, scorer, axis, true, true)| && t.fp == |Said(rows, scorer, axis, true, false)|
    && t.fn == |Said(rows, scorer, axis, false, true)| && t.tn == |Said(rows, scorer, axis, false, false)|
  }

  /** MAIN. The four cells of either table are the clean rows on which the machine of its axis, the scorer or the
      reference labeller, and the human said one thing and the other. */
  lemma TableIsSaid(rows: Rows, scorer: string, axis: Axis)
    ensures TableSays(TableOf(Population(OfScorer(rows, scorer), axis), axis), rows, scorer, axis)
  {
    forall machine, human { CellIsSaid(rows, scorer, axis, machine, human); }
  }

  /** The judged rows the reference labeller labelled, flagged or not. */
  ghost predicate Opinion(row: CalibrationLabel, scorer: string) {
    row.scorer == scorer && row.humanVerdict.Some? && row.preLabel.Some?
  }

  ghost function Opinions(rows: Rows, scorer: string): set<nat> {
    Places(rows, (row: CalibrationLabel) => Opinion(row, scorer))
  }

  ghost function Agreed(rows: Rows, scorer: string): set<nat> {
    Places(rows, (row: CalibrationLabel) => Opinion(row, scorer) && row.preLabel == row.humanVerdict)
  }

  /** The share of the rows both judged on which the labeller and the human agree. */
  ghost predicate AgreementSays(rate: real, rows: Rows, scorer: string) {
    |Opinions(rows, scorer)| > 0 && rate * |Opinions(rows, scorer)| as real == |Agreed(rows, scorer)| as real
  }

  lemma {:induction false} OpinionsAre(rows: Rows, scorer: string)
    ensures |WithOpinion(OfScorer(rows, scorer))| == |Opinions(rows, scorer)|
    ensures Agreeing(WithOpinion(OfScorer(rows, scorer))) == |Agreed(rows, scorer)|
  {
    if rows == [] {
      assert Opinions(rows, scorer) == Agreed(rows, scorer) == {};
    } else {
      var front, row := rows[..|rows| - 1], rows[|rows| - 1];
      assert rows == front + [row];
      OpinionsAre(front, scorer);
      PlacesSnoc(front, row, (r: CalibrationLabel) => Opinion(r, scorer));
      PlacesSnoc(front, row, (r: CalibrationLabel) => Opinion(r, scorer) && r.preLabel == r.humanVerdict);
      KeepSnoc(front, row, (r: CalibrationLabel) => r.scorer == scorer);
      if row.scorer == scorer {
        KeepSnoc(OfScorer(front, scorer), row, (r: CalibrationLabel) => r.humanVerdict.Some? && r.preLabel.Some?);
        AgreeingSnoc(WithOpinion(OfScorer(front, scorer)), row);
      }
    }
  }

  lemma AgreementIsSaid(rows: Rows, scorer: string)
    requires AgreementRate(OfScorer(rows, scorer)).Computed?
    ensures AgreementSays(AgreementRate(OfScorer(rows, scorer)).value, rows, scorer)
  {
    OpinionsAre(rows, scorer);
    QuotientTimes(|Agreed(rows, scorer)|, |Opinions(rows, scorer)|);
  }

  method CalibrateScorer(scorer: string, allRows: Rows, familySize: nat, draw: Draw) returns (r: Outcome<ScorerReport>)
    ensures r == Calibrated(scorer, allRows, familySize, draw)
    ensures r.Computed? ==> r.value.scorer == scorer && SoundReport(r.value, OfScorer(allRows, scorer), familySize)
    ensures r.Computed? ==> TableSays(r.value.counts, allRows, scorer, Headline)
                            && TableSays(r.value.secondaryCounts, allRows, scorer, Secondary)
                            && AgreementSays(r.value.agreement, allRows, scorer)
  {
    var rows := OfScorer(allRows, scorer);
    var kappa := KappaOver(rows, Headline);
    if kappa.Raised? { return Raised(kappa.failure); }
    var ci := KappaInterval(rows, Headline, draw, familySize);
    if ci.Raised? { return Raised(ci.failure); }
    var secondary := KappaOver(rows, Secondary);
    if secondary.Raised? { return Raised(secondary.failure); }
    var secondaryCi := KappaInterval(rows, Secondary, draw, familySize);
    if secondaryCi.Raised? { return Raised(secondaryCi.failure); }
    var agreement := AgreementRate(rows);
    if agreement.Raised? { return Raised(agreement.failure); }
    AxisIsSound(rows, Headline, draw, familySize);
    AxisIsSound(rows, Secondary, draw, familySize);
    AgreementInUnit(rows);
    TableIsSaid(allRows, scorer, Headline);
    TableIsSaid(allRows, scorer, Secondary);
    AgreementIsSaid(allRows, scorer);
    r := Computed(ScorerReport(scorer, TableOf(Population(rows, Headline), Headline), kappa.value, ci.value,
                               agreement.value, TableOf(Population(rows, Secondary), Secondary), secondary.value,
                               secondaryCi.value));
  }

  /** The kappa is defined and some sample's is. */
  predicate AxisComputes(rows: Rows, axis: Axis, draw: Draw) {
    && KappaOver(rows, axis).Computed?
    && Interval(rows, axis, draw, 1).Computed?
  }

  lemma IntervalFailsAlike(rows: Rows, axis: Axis, draw: Draw, familySize: nat)
    ensures Interval(rows, axis, draw, familySize).Computed? <==> Interval(rows, axis, draw, 1).Computed?
  {}

  /** A scorer is reported exactly when both axes compute; the agreement rate then never fails. */
  lemma ReportedIff(scorer: string, allRows: Rows, familySize: nat, draw: Draw)
    ensures var rows := OfScorer(allRows, scorer);
            Calibrated(scorer, allRows, familySize, draw).Computed? <==>
            AxisComputes(rows, Headline, draw) && AxisComputes(rows, Secondary, draw)
  {
    var rows := OfScorer(allRows, scorer);
    IntervalFailsAlike(rows, Headline, draw, familySize);
    IntervalFailsAlike(rows, Secondary, draw, familySize);
    OpinionsSplit(rows);
  }

  function Eligible(rows: Rows, scorer: string): bool { |Judged(OfScorer(rows, scorer))| >= 2 }

  /** A scorer taken as eligible is refused for too few headline rows exactly when its flagged rows leave
      fewer than two of its judged rows: eligibility counts what the statistics leave out. */
  lemma EligibleButRefused(scorer: string, allRows: Rows, familySize: nat, draw: Draw)
    ensures var rows := OfScorer(allRows, scorer);
            Eligible(allRows, scorer) ==>
              (Calibrated(scorer, allRows, familySize, draw) == Raised(TooFewRows(Headline)) <==>
               |Judged(rows)| - |Flagged(rows)| < 2)
  {
    ExclusionsAreExact(OfScorer(allRows, scorer));
  }

  function Scorers(rows: Rows): seq<string> {
    KeysInOrder(seq(|rows|, i requires 0 <= i < |rows| => (rows[i].scorer, ())))
  }

  function EligibleScorers(rows: Rows, scorers: seq<string>): seq<string> {
    if scorers == [] then []
    else
      var front := EligibleScorers(rows, scorers[..|scorers| - 1]);
      if Eligible(rows, scorers[|scorers| - 1]) then front + [scorers[|scorers| - 1]] else front
  }

  function AllEligible(allRows: Rows): seq<string> { EligibleScorers(allRows, Scorers(allRows)) }

  ghost predicate AllReported(allRows: Rows, draw: Draw) {
    var eligible := AllEligible(allRows);
    forall s :: s in eligible ==> Calibrated(s, allRows, INTERVALS_PER_SCORER * |eligible|, draw).Computed?
  }

  /** What becomes of each eligible scorer. */
  ghost function Outcomes(allRows: Rows, draw: Draw): seq<Outcome<ScorerReport>> {
    var eligible := AllEligible(allRows);
    seq(|eligible|, i requires 0 <= i < |eligible| =>
      Calibrated(eligible[i], allRows, INTERVALS_PER_SCORER * |eligible|, draw))
  }

  ghost predicate ReportsSoFar(outcomes: seq<Outcome<ScorerReport>>, reports: seq<ScorerReport>) {
    |reports| <= |outcomes| && forall i :: 0 <= i < |reports| ==> outcomes[i] == Computed(reports[i])
  }

  ghost predicate AllComputed(outcomes: seq<Outcome<ScorerReport>>) {
    forall i :: 0 <= i < |outcomes| ==> outcomes[i].Computed?
  }

  ghost predicate FirstFailure(outcomes: seq<Outcome<ScorerReport>>, i: nat, failure: Failure) {
    i < |outcomes| && outcomes[i] == Raised(failure) && AllComputed(outcomes[..i])
  }

  lemma OneMoreReport(outcomes: seq<Outcome<ScorerReport>>, reports: seq<ScorerReport>, report: ScorerReport)
    requires ReportsSoFar(outcomes, reports) && |reports| < |outcomes| && outcomes[|reports|] == Computed(report)
    ensures ReportsSoFar(outcomes, reports + [report])
  {}

  lemma StopsHere(outcomes: seq<Outcome<ScorerReport>>, reports: seq<ScorerReport>, failure: Failure)
    requires ReportsSoFar(outcomes, reports) && |reports| < |outcomes| && outcomes[|reports|] == Raised(failure)
    ensures FirstFailure(outcomes, |reports|, failure) && !AllComputed(outcomes)
  {}

  lemma AllReportedIs(allRows: Rows, draw: Draw)
    ensures AllReported(allRows, draw) <==> AllComputed(Outcomes(allRows, draw))
  {
    var eligible := AllEligible(allRows);
    forall i | 0 <= i < |eligible|
      ensures eligible[i] in eligible
      ensures Outcomes(allRows, draw)[i] == Calibrated(eligible[i], allRows, INTERVALS_PER_SCORER * |eligible|, draw)
    {}
  }

  /** A run reports every eligible scorer, in order of first appearance, or fails: it succeeds
      exactly when each of them can be calibrated, and stops at the first that cannot. */
  method RunCalibration(allRows: Rows, draw: Draw) returns (r: Outcome<seq<ScorerReport>>)
    ensures r.Computed? <==> AllReported(allRows, draw)
    ensures r.Computed? ==> |r.value| == |AllEligible(allRows)| && ReportsSoFar(Outcomes(allRows, draw), r.value)
    ensures r.Raised? ==> exists i :: FirstFailure(Outcomes(allRows, draw), i, r.failure)
  {
    var scorers := Scorers(allRows);
    var eligible := EligibleScorers(allRows, scorers);
    ghost var outcomes := Outcomes(allRows, draw);
    AllReportedIs(allRows, draw);
    var reports: seq<ScorerReport> := [];
    for n := 0 to |scorers|
      invariant |reports| == |EligibleScorers(allRows, scorers[..n])|
      invariant ReportsSoFar(outcomes, reports)
    {
      NextEligible(allRows, scorers, n);
      if !Eligible(allRows, scorers[n]) {
        continue;
      }
      var report := CalibrateScorer(scorers[n], allRows, INTERVALS_PER_SCORER * |eligible|, draw);
      if report.Raised? {
        StopsHere(outcomes, reports, report.failure);
        return Raised(report.failure);
      }
      OneMoreReport(outcomes, reports, report.value);
      reports := reports + [report.value];
    }
    assert scorers[..|scorers|] == scorers;
    r := Computed(reports);
  }

  lemma {:induction false} EligiblePrefix(rows: Rows, scorers: seq<string>, n: nat)
    requires n <= |scorers|
    ensures EligibleScorers(rows, scorers[..n]) <= EligibleScorers(rows, scorers)
    decreases |scorers|
  {
    if n == |scorers| {
      assert scorers[..n] == scorers;
    } else {
      EligiblePrefix(rows, scorers[..|scorers| - 1], n);
      assert scorers[..|scorers| - 1][..n] == scorers[..n];
    }
  }

  /** The scorer at place `n`, if eligible, comes right after the eligible ones before it. */
  lemma NextEligible(rows: Rows, scorers: seq<string>, n: nat)
    requires n < |scorers|
    ensures var before := |EligibleScorers(rows, scorers[..n])|;
            if Eligible(rows, scorers[n]) then
              && |EligibleScorers(rows, scorers[..n + 1])| == before + 1
              && before < |EligibleScorers(rows, scorers)| && EligibleScorers(rows, scorers)[before] == scorers[n]
            else |EligibleScorers(rows, scorers[..n + 1])| == before
  {
    EligiblePrefix(rows, scorers, n + 1);
    assert scorers[..n + 1][..n] == scorers[..n];
  }

  // ----- one case only -----

  lemma {:induction false} KappasAllEqual(clusters: seq<Rows>, axis: Axis, draw: Draw, m: nat, kappa: real)
    requires |clusters| == 1 && KappaOver(clusters[0], axis) == Computed(kappa)
    ensures |Kappas(clusters, axis, draw, m)| == m && forall k :: k in Kappas(clusters, axis, draw, m) ==> k == kappa
  {
    if m > 0 {
      KappasAllEqual(clusters, axis, draw, m - 1, kappa);
      OneMoreKappa(clusters, axis, draw, m, kappa);
    }
  }

  lemma OneMoreKappa(clusters: seq<Rows>, axis: Axis, draw: Draw, m: nat, kappa: real)
    requires |clusters| == 1 && KappaOver(clusters[0], axis) == Computed(kappa) && m > 0
    ensures Kappas(clusters, axis, draw, m) == Kappas(clusters, axis, draw, m - 1) + [kappa]
  {
    OneClusterSample(clusters, draw, m - 1);
    KappasSnoc(clusters, axis, draw, m, KappaOver(clusters[0], axis));
  }

  lemma OneClusterSample(clusters: seq<Rows>, draw: Draw, s: nat)
    requires |clusters| == 1
    ensures Sample(clusters, draw, s) == clusters[0]
  {
    assert Drawn(clusters, draw, s, 0) == [];
    assert Sample(clusters, draw, s) == [] + clusters[0];
  }

  lemma OneCaseOneCluster(rows: Rows)
    requires rows != []
    requires forall row, row' :: row in rows && row' in rows ==> CaseId(row.recordId) == CaseId(row'.recordId)
    ensures Clusters(rows) == [rows]
  {
    var tagged := Tagged(rows);
    assert rows[0] in rows;
    assert forall i :: 0 <= i < |rows| ==> rows[i] in rows;
    OneKeyOneGroup(tagged, tagged[0].0);
    assert Snds(tagged) == rows;
  }

  /** MAIN. When every counted row is of one case and kappa is defined, resampling has nothing to vary:
      the interval is the single point kappa, whatever the generator does. */
  lemma OneCaseIsAPoint(rows: Rows, axis: Axis, draw: Draw, familySize: nat)
    requires KappaOver(rows, axis).Computed?
    requires forall row, row' :: row in Population(rows, axis) && row' in Population(rows, axis) ==>
               CaseId(row.recordId) == CaseId(row'.recordId)
    ensures Interval(rows, axis, draw, familySize).Computed?
    ensures Interval(rows, axis, draw, familySize).value.lo == Interval(rows, axis, draw, familySize).value.hi
         == KappaOver(rows, axis).value
  {
    var counted := Population(rows, axis);
    OneCaseOneCluster(counted);
    OnlyCountedRowsMatter(rows, axis);
    KappasAllEqual(Clusters(counted), axis, draw, BOOTSTRAP_RESAMPLES, KappaOver(rows, axis).value);
    EnclosedPercentiles(Kappas(Clusters(counted), axis, draw, BOOTSTRAP_RESAMPLES), 1);
  }
}
