/** Which scorers of `evals/calibration.py` can be reported, in terms of their rows alone. */
module CalibrationConditions {
  import opened Calibration
  import opened CalibrationIntervals
  import opened CalibrationRecords
  import opened CohenKappa
  import opened Grouping
  import opened Numbers
  import opened Options
  import opened Sums

  ghost predicate Says(row: CalibrationLabel, axis: Axis, b: bool) {
    Machine(row, axis) == b && row.humanVerdict == Some(b)
  }

  /** Machine and human always say `b`. */
  ghost predicate OneSided(rows: Rows, axis: Axis, b: bool) {
    forall row :: row in rows ==> Says(row, axis, b)
  }

  /** Somewhere machine and human disagree, or both verdicts occur. */
  ghost predicate Varied(rows: Rows, axis: Axis) {
    !OneSided(rows, axis, true) && !OneSided(rows, axis, false)
  }

  lemma OneSidedSnoc(rows: Rows, axis: Axis, b: bool)
    requires rows != []
    ensures OneSided(rows, axis, b) <==>
            OneSided(rows[..|rows| - 1], axis, b) && Says(rows[|rows| - 1], axis, b)
  {
    var n := |rows| - 1;
    assert rows == rows[..n] + [rows[n]];
    assert forall row :: row in rows <==> row in rows[..n] || row == rows[n];
  }

  lemma CellSnoc(rows: Rows, axis: Axis, b: bool)
    requires rows != []
    ensures var n := |rows| - 1;
            Cell(rows, axis, b, b) == Cell(rows[..n], axis, b, b) + if Says(rows[n], axis, b) then 1 else 0
  {}

  lemma {:induction false} FullCell(rows: Rows, axis: Axis, b: bool)
    ensures Cell(rows, axis, b, b) <= |rows|
    ensures Cell(rows, axis, b, b) == |rows| <==> OneSided(rows, axis, b)
  {
    if rows != [] {
      FullCell(rows[..|rows| - 1], axis, b);
      CellSnoc(rows, axis, b);
      OneSidedSnoc(rows, axis, b);
    }
  }

  /** All rows are counted on the axis. */
  ghost predicate AllCounted(rows: Rows, axis: Axis) {
    forall row :: row in rows ==> Counted(row, axis)
  }

  lemma PopulationIsCounted(rows: Rows, axis: Axis)
    ensures AllCounted(Population(rows, axis), axis)
    ensures AllCounted(rows, axis) ==> Population(rows, axis) == rows
  {
    KeepIs(rows, row => Counted(row, axis));
  }

  lemma DecimalTolerance(d: int, nn: int)
    requires nn > 0
    ensures Quotient(d, nn) >= TOLERANCE <==> d * LARGEST_EXACT >= nn
  {
    DivLe(d as real, TOLERANCE, nn as real);
    assert (d * LARGEST_EXACT) as real == d as real * 1_000_000_000_000.0;
  }

  /** MAIN. A kappa can be computed exactly when at least two rows are counted and the table's discord is not
      below the tolerance; for up to ten to the twelfth counted rows, exactly when they are varied. */
  lemma KappaComputedIff(rows: Rows, axis: Axis)
    ensures var counted := Population(rows, axis);
            && (KappaOver(rows, axis).Computed? <==>
                  |counted| >= 2 && Discord(TableOf(counted, axis)) * LARGEST_EXACT >= |counted| * |counted|)
            && (|counted| <= LARGEST_EXACT ==>
                  (KappaOver(rows, axis).Computed? <==> |counted| >= 2 && Varied(counted, axis)))
  {
    var counted := Population(rows, axis);
    PopulationIsCounted(rows, axis);
    if |counted| >= 2 {
      TableCountsRows(counted, axis);
      var t := TableOf(counted, axis);
      DefinedIff(t);
      DecimalTolerance(Discord(t), t.N() * t.N());
      FullCell(counted, axis, true);
      FullCell(counted, axis, false);
      ExpectedAgreementGap(t);
      ToleranceIsExactIff(t.N());
    }
  }

  // ----- samples -----

  /** Each sample keeps the tolerance exact: it has at most as many rows as clusters times counted rows. */
  ghost predicate Exact(rows: Rows, axis: Axis) {
    var counted := Population(rows, axis);
    |counted| * |Clusters(counted)| <= LARGEST_EXACT
  }

  lemma {:induction false} PartIsWithin(parts: seq<Rows>, i: nat)
    requires i < |parts|
    ensures |parts[i]| <= |Flatten(parts)| && forall row :: row in parts[i] ==> row in Flatten(parts)
  {
    if i < |parts| - 1 { PartIsWithin(parts[..|parts| - 1], i); }
  }

  lemma ClusterIsWithin(rows: Rows, i: nat)
    requires i < |Clusters(rows)|
    ensures |Clusters(rows)[i]| <= |rows| && forall row :: row in Clusters(rows)[i] ==> row in rows
  {
    PartIsWithin(Clusters(rows), i);
    ClustersPartition(rows);
    forall row | row in Clusters(rows)[i] ensures row in rows {
      assert row in multiset(Flatten(Clusters(rows)));
    }
  }

  lemma ClustersAreFilled(rows: Rows, i: nat)
    requires i < |Clusters(rows)|
    ensures Clusters(rows)[i] != []
  {
    KeysAreTheKeys(Calibration.Tagged(rows));
    assert KeysInOrder(Calibration.Tagged(rows))[i] in KeysInOrder(Calibration.Tagged(rows));
  }

  /** A sample is made of the population's rows, has no fewer rows than clusters drawn, and not too many. */
  lemma {:induction false} DrawnRows(rows: Rows, draw: Draw, s: nat, k: nat)
    requires Clusters(rows) != []
    ensures forall row :: row in Drawn(Clusters(rows), draw, s, k) ==> row in rows
    ensures k <= |Drawn(Clusters(rows), draw, s, k)| <= |rows| * k
  {
    if k > 0 {
      var i := draw(|Clusters(rows)|, s, k - 1) % |Clusters(rows)|;
      DrawnRows(rows, draw, s, k - 1);
      ClusterIsWithin(rows, i);
      ClustersAreFilled(rows, i);
      assert |rows| * k == |rows| * (k - 1) + |rows|;
    }
  }

  lemma FirstDrawn(clusters: seq<Rows>, draw: Draw, s: nat, k: nat, row: CalibrationLabel)
    requires clusters != [] && k > 0 && row in clusters[draw(|clusters|, s, 0) % |clusters|]
    ensures row in Drawn(clusters, draw, s, k)
  {
    if k > 1 { FirstDrawn(clusters, draw, s, k - 1, row); }
  }

  lemma VariedStays(part: Rows, whole: Rows, axis: Axis)
    requires Varied(part, axis) && forall row :: row in part ==> row in whole
    ensures Varied(whole, axis)
  {}

  /** One sample of counted rows has a kappa exactly when it has two rows and they are varied. */
  lemma SampleComputesIff(rows: Rows, axis: Axis, draw: Draw, s: nat)
    requires AllCounted(rows, axis) && rows != [] && |rows| * |Clusters(rows)| <= LARGEST_EXACT
    ensures Clusters(rows) != []
    ensures var sample := Sample(Clusters(rows), draw, s);
            KappaOver(sample, axis).Computed? <==> |sample| >= 2 && Varied(sample, axis)
  {
    ClustersPartition(rows);
    DrawnRows(rows, draw, s, |Clusters(rows)|);
    var sample := Sample(Clusters(rows), draw, s);
    PopulationIsCounted(sample, axis);
    KappaComputedIff(sample, axis);
  }

  lemma {:induction false} KappasExist(clusters: seq<Rows>, axis: Axis, draw: Draw, m: nat)
    requires clusters != []
    ensures Kappas(clusters, axis, draw, m) != [] <==>
            exists s: nat :: s < m && KappaOver(Sample(clusters, draw, s), axis).Computed?
  {
    if m > 0 {
      KappasExist(clusters, axis, draw, m - 1);
      NoneOrMore(clusters, axis, draw, m);
      if KappaOver(Sample(clusters, draw, m - 1), axis).Computed? {
        assert m - 1 < m;
      }
    }
  }

  lemma NoneOrMore(clusters: seq<Rows>, axis: Axis, draw: Draw, m: nat)
    requires clusters != [] && m > 0
    ensures Kappas(clusters, axis, draw, m) == [] <==>
            Kappas(clusters, axis, draw, m - 1) == [] && KappaOver(Sample(clusters, draw, m - 1), axis).Raised?
  {
    KappasSnoc(clusters, axis, draw, m, KappaOver(Sample(clusters, draw, m - 1), axis));
  }

  /** The draw that takes every cluster once. */
  function InOrder(): Draw { (n, s, i) => i }

  /** The draw that always takes the same cluster. */
  function Always(c: nat): Draw { (n, s, i) => c }

  lemma NextInOrder(clusters: seq<Rows>, s: nat, k: nat)
    requires 0 < k <= |clusters|
    ensures Drawn(clusters, InOrder(), s, k) == Drawn(clusters, InOrder(), s, k - 1) + clusters[k - 1]
  {
    assert InOrder()(|clusters|, s, k - 1) == k - 1;
    assert (k - 1) % |clusters| == k - 1;
  }

  lemma {:induction false} InOrderIsAll(clusters: seq<Rows>, s: nat, k: nat)
    requires clusters != [] && k <= |clusters|
    ensures Drawn(clusters, InOrder(), s, k) == Flatten(clusters[..k])
  {
    if k > 0 {
      InOrderIsAll(clusters, s, k - 1);
      NextInOrder(clusters, s, k);
      assert clusters[..k] == clusters[..k - 1] + [clusters[k - 1]];
      FlattenSnoc(clusters[..k - 1], clusters[k - 1]);
    }
  }

  lemma {:induction false} AlwaysIsOne(clusters: seq<Rows>, c: nat, s: nat, k: nat)
    requires c < |clusters|
    ensures forall row :: row in Drawn(clusters, Always(c), s, k) ==> row in clusters[c]
  {
    if k > 0 {
      AlwaysIsOne(clusters, c, s, k - 1);
      NextAlways(clusters, c, s, k);
    }
  }

  lemma NextAlways(clusters: seq<Rows>, c: nat, s: nat, k: nat)
    requires c < |clusters| && k > 0
    ensures Drawn(clusters, Always(c), s, k) == Drawn(clusters, Always(c), s, k - 1) + clusters[c]
  {
    assert Always(c)(|clusters|, s, k - 1) == c && c % |clusters| == c;
  }

  // ----- one axis -----

  ghost predicate CanCompute(rows: Rows, axis: Axis) {
    |Population(rows, axis)| >= 2 && Varied(Population(rows, axis), axis)
  }

  ghost predicate MustCompute(rows: Rows, axis: Axis) {
    var counted := Population(rows, axis);
    |counted| >= 2 && forall i :: 0 <= i < |Clusters(counted)| ==> Varied(Clusters(counted)[i], axis)
  }

  lemma IntervalComputes(rows: Rows, axis: Axis, draw: Draw)
    requires |Population(rows, axis)| >= 2
    ensures Clusters(Population(rows, axis)) != []
    ensures Interval(rows, axis, draw, 1).Computed? <==>
            exists s: nat :: s < BOOTSTRAP_RESAMPLES
                             && KappaOver(Sample(Clusters(Population(rows, axis)), draw, s), axis).Computed?
  {
    ClustersPartition(Population(rows, axis));
    KappasExist(Clusters(Population(rows, axis)), axis, draw, BOOTSTRAP_RESAMPLES);
  }

  lemma CountedIsExact(rows: Rows, axis: Axis)
    requires Exact(rows, axis) && Population(rows, axis) != []
    ensures |Population(rows, axis)| <= LARGEST_EXACT
  {
    var counted := Population(rows, axis);
    ClustersPartition(counted);
    AtLeastFactor(|Clusters(counted)|, |counted|);
  }

  lemma SampleOfVaried(rows: Rows, axis: Axis, draw: Draw, s: nat)
    requires Exact(rows, axis) && |Population(rows, axis)| >= 2
    requires Clusters(Population(rows, axis)) != []
    requires KappaOver(Sample(Clusters(Population(rows, axis)), draw, s), axis).Computed?
    ensures CanCompute(rows, axis)
  {
    var counted := Population(rows, axis);
    PopulationIsCounted(rows, axis);
    SampleComputesIff(counted, axis, draw, s);
    DrawnRows(counted, draw, s, |Clusters(counted)|);
    VariedStays(Sample(Clusters(counted), draw, s), counted, axis);
  }

  lemma InOrderComputes(rows: Rows, axis: Axis)
    requires Exact(rows, axis) && CanCompute(rows, axis)
    ensures Interval(rows, axis, InOrder(), 1).Computed?
  {
    var counted := Population(rows, axis);
    IntervalComputes(rows, axis, InOrder());
    PopulationIsCounted(rows, axis);
    SampleComputesIff(counted, axis, InOrder(), 0);
    var clusters := Clusters(counted);
    InOrderIsAll(clusters, 0, |clusters|);
    assert clusters[..|clusters|] == clusters;
    var sample := Sample(clusters, InOrder(), 0);
    ClustersPartition(counted);
    forall row | row in counted ensures row in sample {
      assert row in multiset(sample);
    }
    VariedStays(counted, sample, axis);
  }

  /** Some draw gives an interval exactly when the counted rows are two or more and varied: that is,
      exactly when they have a kappa. */
  lemma SomeDrawComputesIff(rows: Rows, axis: Axis)
    requires Exact(rows, axis)
    ensures (exists draw :: Interval(rows, axis, draw, 1).Computed?) <==> CanCompute(rows, axis)
    ensures KappaOver(rows, axis).Computed? <==> CanCompute(rows, axis)
  {
    if CanCompute(rows, axis) {
      InOrderComputes(rows, axis);
    }
    forall draw | Interval(rows, axis, draw, 1).Computed?
      ensures CanCompute(rows, axis)
    {
      IntervalComputes(rows, axis, draw);
      var s: nat :| s < BOOTSTRAP_RESAMPLES
                    && KappaOver(Sample(Clusters(Population(rows, axis)), draw, s), axis).Computed?;
      SampleOfVaried(rows, axis, draw, s);
    }
    KappaComputedIff(rows, axis);
    if |Population(rows, axis)| >= 2 {
      CountedIsExact(rows, axis);
    }
  }

  lemma SampleIsLarge(rows: Rows, draw: Draw, s: nat)
    requires |rows| >= 2 && Clusters(rows) != []
    ensures |Sample(Clusters(rows), draw, s)| >= 2
  {
    var clusters := Clusters(rows);
    DrawnRows(rows, draw, s, |clusters|);
    if |clusters| == 1 {
      ClustersPartition(rows);
      assert Flatten(clusters[..0]) == [];
      assert Flatten(clusters) == [] + clusters[0];
      assert Drawn(clusters, draw, s, 0) == [];
      assert Sample(clusters, draw, s) == [] + clusters[0];
    }
  }

  lemma VariedClustersCompute(rows: Rows, axis: Axis, draw: Draw)
    requires Exact(rows, axis) && MustCompute(rows, axis)
    ensures Interval(rows, axis, draw, 1).Computed?
  {
    var counted := Population(rows, axis);
    IntervalComputes(rows, axis, draw);
    PopulationIsCounted(rows, axis);
    SampleComputesIff(counted, axis, draw, 0);
    SampleIsLarge(counted, draw, 0);
    var clusters := Clusters(counted);
    var first := draw(|clusters|, 0, 0) % |clusters|;
    forall row | row in clusters[first] ensures row in Sample(clusters, draw, 0) {
      FirstDrawn(clusters, draw, 0, |clusters|, row);
    }
    VariedStays(clusters[first], Sample(clusters, draw, 0), axis);
  }

  lemma OneSidedClusterFails(rows: Rows, axis: Axis, c: nat)
    requires Exact(rows, axis) && |Population(rows, axis)| >= 2
    requires c < |Clusters(Population(rows, axis))| && !Varied(Clusters(Population(rows, axis))[c], axis)
    ensures Interval(rows, axis, Always(c), 1).Raised?
  {
    var counted := Population(rows, axis);
    var clusters := Clusters(counted);
    IntervalComputes(rows, axis, Always(c));
    PopulationIsCounted(rows, axis);
    forall s: nat | s < BOOTSTRAP_RESAMPLES
      ensures KappaOver(Sample(clusters, Always(c), s), axis).Raised?
    {
      SampleComputesIff(counted, axis, Always(c), s);
      AlwaysIsOne(clusters, c, s, |clusters|);
      if Varied(Sample(clusters, Always(c), s), axis) {
        VariedStays(Sample(clusters, Always(c), s), clusters[c], axis);
      }
    }
  }

  /** Every draw gives an interval exactly when the counted rows are two or more and varied within
      every case: otherwise it is left to the generator. */
  lemma EveryDrawComputesIff(rows: Rows, axis: Axis)
    requires Exact(rows, axis)
    ensures (forall draw :: Interval(rows, axis, draw, 1).Computed?) <==> MustCompute(rows, axis)
  {
    var counted := Population(rows, axis);
    if MustCompute(rows, axis) {
      forall draw ensures Interval(rows, axis, draw, 1).Computed? {
        VariedClustersCompute(rows, axis, draw);
      }
    } else if |counted| < 2 {
      assert Interval(rows, axis, InOrder(), 1).Raised?;
    } else {
      var c :| 0 <= c < |Clusters(counted)| && !Varied(Clusters(counted)[c], axis);
      OneSidedClusterFails(rows, axis, c);
    }
  }

  // ----- one scorer -----

  ghost predicate ExactScorer(rows: Rows) { Exact(rows, Headline) && Exact(rows, Secondary) }

  ghost predicate CanReport(rows: Rows) { CanCompute(rows, Headline) && CanCompute(rows, Secondary) }

  ghost predicate MustReport(rows: Rows) { MustCompute(rows, Headline) && MustCompute(rows, Secondary) }

  lemma InOrderReports(scorer: string, allRows: Rows, familySize: nat)
    requires ExactScorer(OfScorer(allRows, scorer))
    ensures Calibrated(scorer, allRows, familySize, InOrder()).Computed? <==> CanReport(OfScorer(allRows, scorer))
  {
    var rows := OfScorer(allRows, scorer);
    ReportedIff(scorer, allRows, familySize, InOrder());
    SomeDrawComputesIff(rows, Headline);
    SomeDrawComputesIff(rows, Secondary);
    if CanReport(rows) {
      InOrderComputes(rows, Headline);
      InOrderComputes(rows, Secondary);
    }
  }

  /** MAIN. A scorer can be reported, by some draw, exactly when on both axes its counted rows are two or
      more and varied. */
  lemma SomeDrawReportsIff(scorer: string, allRows: Rows, familySize: nat)
    requires ExactScorer(OfScorer(allRows, scorer))
    ensures (exists draw :: Calibrated(scorer, allRows, familySize, draw).Computed?) <==>
              CanReport(OfScorer(allRows, scorer))
  {
    var rows := OfScorer(allRows, scorer);
    InOrderReports(scorer, allRows, familySize);
    SomeDrawComputesIff(rows, Headline);
    SomeDrawComputesIff(rows, Secondary);
    forall draw | Calibrated(scorer, allRows, familySize, draw).Computed?
      ensures CanReport(rows)
    {
      ReportedIff(scorer, allRows, familySize, draw);
    }
  }

  lemma MustImpliesCan(rows: Rows, axis: Axis)
    requires MustCompute(rows, axis)
    ensures CanCompute(rows, axis)
  {
    var counted := Population(rows, axis);
    ClustersPartition(counted);
    ClusterIsWithin(counted, 0);
    VariedStays(Clusters(counted)[0], counted, axis);
  }

  /** MAIN. A scorer is reported whatever is drawn exactly when on both axes its counted rows are two or more
      and varied within every case. */
  lemma EveryDrawReportsIff(scorer: string, allRows: Rows, familySize: nat)
    requires ExactScorer(OfScorer(allRows, scorer))
    ensures (forall draw :: Calibrated(scorer, allRows, familySize, draw).Computed?) <==>
              MustReport(OfScorer(allRows, scorer))
  {
    var rows := OfScorer(allRows, scorer);
    EveryDrawComputesIff(rows, Headline);
    EveryDrawComputesIff(rows, Secondary);
    if MustReport(rows) {
      MustImpliesCan(rows, Headline);
      MustImpliesCan(rows, Secondary);
      SomeDrawComputesIff(rows, Headline);
      SomeDrawComputesIff(rows, Secondary);
    }
    forall draw
      ensures Calibrated(scorer, allRows, familySize, draw).Computed? <==>
              AxisComputes(rows, Headline, draw) && AxisComputes(rows, Secondary, draw)
    {
      ReportedIff(scorer, allRows, familySize, draw);
    }
    if forall draw :: Calibrated(scorer, allRows, familySize, draw).Computed? {
      forall draw
        ensures Interval(rows, Headline, draw, 1).Computed? && Interval(rows, Secondary, draw, 1).Computed?
      {
        assert Calibrated(scorer, allRows, familySize, draw).Computed?;
      }
    }
  }

  // ----- a whole run -----

  ghost predicate ExactRun(allRows: Rows) {
    forall s :: s in AllEligible(allRows) ==> ExactScorer(OfScorer(allRows, s))
  }

  /** MAIN. A run, which promises a report for every scorer with two judged rows, can keep the promise exactly
      when every such scorer's counted rows are two or more and varied on both axes, and keeps it whatever
      is drawn exactly when they are also varied within every case. */
  lemma RunSucceedsIff(allRows: Rows)
    requires ExactRun(allRows)
    ensures var eligible := AllEligible(allRows);
            && ((exists draw :: AllReported(allRows, draw)) <==>
                  forall s :: s in eligible ==> CanReport(OfScorer(allRows, s)))
            && ((forall draw :: AllReported(allRows, draw)) <==>
                  forall s :: s in eligible ==> MustReport(OfScorer(allRows, s)))
  {
    var eligible := AllEligible(allRows);
    var familySize := INTERVALS_PER_SCORER * |eligible|;
    forall s | s in eligible
      ensures Calibrated(s, allRows, familySize, InOrder()).Computed? <==> CanReport(OfScorer(allRows, s))
      ensures (exists draw :: Calibrated(s, allRows, familySize, draw).Computed?) <==> CanReport(OfScorer(allRows, s))
      ensures (forall draw :: Calibrated(s, allRows, familySize, draw).Computed?) <==> MustReport(OfScorer(allRows, s))
    {
      InOrderReports(s, allRows, familySize);
      SomeDrawReportsIff(s, allRows, familySize);
      EveryDrawReportsIff(s, allRows, familySize);
    }
    if forall s :: s in eligible ==> CanReport(OfScorer(allRows, s)) {
      assert AllReported(allRows, InOrder());
    }
    forall draw, s | AllReported(allRows, draw) && s in eligible
      ensures CanReport(OfScorer(allRows, s))
    {
      assert Calibrated(s, allRows, familySize, draw).Computed?;
    }
    forall s | (forall draw :: AllReported(allRows, draw)) && s in eligible
      ensures MustReport(OfScorer(allRows, s))
    {
      forall draw ensures Calibrated(s, allRows, familySize, draw).Computed? {
        assert AllReported(allRows, draw);
      }
    }
  }

  // ----- refusals, and an agreement rate that moves -----

  /** A judged row on which the machine says `machine` and the reference labeller what the human says. */
  function Row(machine: bool, human: bool, preLabel: bool, needsReview: bool): CalibrationLabel {
    CalibrationLabel("case:0", "tone", "", machine, Some(preLabel), "model", Some(human), None, "", "", "", map[],
                     1, "", "", "", "", "", needsReview, None)
  }

  lemma KeepTwo(a: CalibrationLabel, b: CalibrationLabel, p: CalibrationLabel -> bool)
    ensures Keep([a, b], p) == (if p(a) then [a] else []) + (if p(b) then [b] else [])
  {
    assert [a, b][..1] == [a] && [a][..0] == [];
    assert Keep([a], p) == if p(a) then [a] else [];
  }

  lemma TwoOfScorer(a: CalibrationLabel, b: CalibrationLabel)
    requires a.scorer == b.scorer && a.humanVerdict.Some? && b.humanVerdict.Some?
    ensures OfScorer([a, b], a.scorer) == [a, b] && Eligible([a, b], a.scorer)
  {
    KeepTwo(a, b, (row: CalibrationLabel) => row.scorer == a.scorer);
    KeepTwo(a, b, (row: CalibrationLabel) => row.humanVerdict.Some?);
  }

  /** Two clean rows on which all say yes make an eligible scorer that no draw can report, with no flag. */
  lemma AgreeingRowsAreRefused(familySize: nat, draw: Draw)
    ensures var rows := [Row(true, true, true, false), Row(true, true, true, false)];
            Eligible(rows, "tone") && Flagged(rows) == []
            && Calibrated("tone", rows, familySize, draw) == Raised(UndefinedKappa(Headline))
  {
    var row := Row(true, true, true, false);
    TwoOfScorer(row, row);
    KeepTwo(row, row, (r: CalibrationLabel) => r.humanVerdict.Some? && r.needsReview);
    AgreeingHaveNoKappa(row);
  }

  lemma AgreeingHaveNoKappa(row: CalibrationLabel)
    requires Counted(row, Headline) && Says(row, Headline, true)
    ensures KappaOver([row, row], Headline) == Raised(UndefinedKappa(Headline))
  {
    var rows := [row, row];
    KeepTwo(row, row, r => Counted(r, Headline));
    assert Population(rows, Headline) == rows;
    assert OneSided(rows, Headline, true);
    KappaComputedIff(rows, Headline);
  }

  /** One clean and one flagged row make an eligible scorer with too few rows. */
  lemma FlaggedRowsAreRefused(familySize: nat, draw: Draw)
    ensures var rows := [Row(true, true, true, false), Row(true, false, true, true)];
            Eligible(rows, "tone") && Calibrated("tone", rows, familySize, draw) == Raised(TooFewRows(Headline))
  {
    var a, b := Row(true, true, true, false), Row(true, false, true, true);
    TwoOfScorer(a, b);
    KeepTwo(a, b, (r: CalibrationLabel) => r.humanVerdict.Some?);
    KeepTwo(a, b, (r: CalibrationLabel) => r.humanVerdict.Some? && r.needsReview);
    EligibleButRefused("tone", [a, b], familySize, draw);
  }

  /** A flagged disagreement halves an agreement rate that is perfect on the clean row. */
  lemma FlaggedRowHalvesAgreement()
    ensures var rows := [Row(true, true, true, false), Row(true, false, true, true)];
            && AgreementRate(Population(rows, Secondary)) == Computed(1.0)
            && AgreementRate(rows) == Computed(Quotient(1, 2))
  {
    var a, b := Row(true, true, true, false), Row(true, false, true, true);
    KeepTwo(a, b, (row: CalibrationLabel) => row.humanVerdict.Some? && row.preLabel.Some?);
    KeepTwo(a, b, r => Counted(r, Secondary));
    assert [a][..0] == [];
    KeepTwo(a, b, (row: CalibrationLabel) => row.preLabel == row.humanVerdict);
    assert WithOpinion([a]) == [a] && Agreeing([a]) == 1;
    DivLe(1.0, 1.0, 1.0);
  }
}
