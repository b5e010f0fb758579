/** What the two axes of a calibration report of `evals/calibration.py` read of a row, and what they do not. */
module ReportAxes {
  import opened Calibration
  import opened CalibrationRecords
  import opened CohenKappa
  import opened Grouping
  import opened Options

  /** Two rows an axis cannot tell apart. */
  ghost predicate AlikeRow(row: CalibrationLabel, row': CalibrationLabel, axis: Axis) {
    && row.recordId == row'.recordId && row.humanVerdict == row'.humanVerdict
    && (Counted(row, axis) <==> Counted(row', axis)) && Machine(row, axis) == Machine(row', axis)
  }

  ghost predicate Alike(rows: Rows, rows': Rows, axis: Axis) {
    |rows| == |rows'| && forall i :: 0 <= i < |rows| ==> AlikeRow(rows[i], rows'[i], axis)
  }

  lemma {:induction false} AlikePopulations(rows: Rows, rows': Rows, axis: Axis)
    requires Alike(rows, rows', axis)
    ensures Alike(Population(rows, axis), Population(rows', axis), axis)
  {
    if rows != [] {
      var n := |rows| - 1;
      AlikePopulations(rows[..n], rows'[..n], axis);
      assert AlikeRow(rows[n], rows'[n], axis);
    }
  }

  lemma {:induction false} AlikeCells(rows: Rows, rows': Rows, axis: Axis, machine: bool, human: bool)
    requires Alike(rows, rows', axis)
    ensures Cell(rows, axis, machine, human) == Cell(rows', axis, machine, human)
  {
    if rows != [] {
      var n := |rows| - 1;
      AlikeCells(rows[..n], rows'[..n], axis, machine, human);
      assert AlikeRow(rows[n], rows'[n], axis);
    }
  }

  lemma AlikeTables(rows: Rows, rows': Rows, axis: Axis)
    requires Alike(rows, rows', axis)
    ensures TableOf(rows, axis) == TableOf(rows', axis)
  {
    AlikeCells(rows, rows', axis, true, true);
    AlikeCells(rows, rows', axis, true, false);
    AlikeCells(rows, rows', axis, false, true);
    AlikeCells(rows, rows', axis, false, false);
  }

  lemma AlikeKappas(rows: Rows, rows': Rows, axis: Axis)
    requires Alike(rows, rows', axis)
    ensures KappaOver(rows, axis) == KappaOver(rows', axis)
  {
    AlikePopulations(rows, rows', axis);
    AlikeTables(Population(rows, axis), Population(rows', axis), axis);
  }

  // ----- clusters and samples -----

  lemma TaggedSnoc(rows: Rows)
    requires rows != []
    ensures var last := rows[|rows| - 1];
            Tagged(rows) == Tagged(rows[..|rows| - 1]) + [(CaseId(last.recordId), last)]
  {}

  lemma {:induction false} AlikeKeys(rows: Rows, rows': Rows, axis: Axis)
    requires Alike(rows, rows', axis)
    ensures KeysInOrder(Tagged(rows)) == KeysInOrder(Tagged(rows'))
  {
    if rows != [] {
      var n := |rows| - 1;
      AlikeKeys(rows[..n], rows'[..n], axis);
      assert AlikeRow(rows[n], rows'[n], axis);
      TaggedSnoc(rows);
      TaggedSnoc(rows');
      Snoc(Tagged(rows[..n]), CaseId(rows[n].recordId), rows[n]);
      Snoc(Tagged(rows'[..n]), CaseId(rows'[n].recordId), rows'[n]);
    }
  }

  lemma AlikeConcat(a: Rows, a': Rows, b: Rows, b': Rows, axis: Axis)
    requires Alike(a, a', axis) && Alike(b, b', axis)
    ensures Alike(a + b, a' + b', axis)
  {}

  lemma {:induction false} AlikeValues(rows: Rows, rows': Rows, axis: Axis, key: string)
    requires Alike(rows, rows', axis)
    ensures Alike(ValuesOf(Tagged(rows), key), ValuesOf(Tagged(rows'), key), axis)
  {
    if rows != [] {
      var n := |rows| - 1;
      AlikeValues(rows[..n], rows'[..n], axis, key);
      assert AlikeRow(rows[n], rows'[n], axis);
      ValuesSnoc(rows, key);
      ValuesSnoc(rows', key);
      AlikeConcat(ValuesOf(Tagged(rows[..n]), key), ValuesOf(Tagged(rows'[..n]), key), [rows[n]], [rows'[n]], axis);
    }
  }

  lemma ValuesSnoc(rows: Rows, key: string)
    requires rows != []
    ensures var last, before := rows[|rows| - 1], ValuesOf(Tagged(rows[..|rows| - 1]), key);
            ValuesOf(Tagged(rows), key) == if CaseId(last.recordId) == key then before + [last] else before
  {
    TaggedSnoc(rows);
    Snoc(Tagged(rows[..|rows| - 1]), CaseId(rows[|rows| - 1].recordId), rows[|rows| - 1]);
  }

  ghost predicate AlikeParts(parts: seq<Rows>, parts': seq<Rows>, axis: Axis) {
    |parts| == |parts'| && forall i :: 0 <= i < |parts| ==> Alike(parts[i], parts'[i], axis)
  }

  lemma AlikeClusters(rows: Rows, rows': Rows, axis: Axis)
    requires Alike(rows, rows', axis)
    ensures AlikeParts(Clusters(rows), Clusters(rows'), axis)
  {
    AlikeKeys(rows, rows', axis);
    forall i | 0 <= i < |Clusters(rows)|
      ensures Alike(Clusters(rows)[i], Clusters(rows')[i], axis)
    {
      AlikeValues(rows, rows', axis, KeysInOrder(Tagged(rows))[i]);
    }
  }

  lemma {:induction false} AlikeDrawn(parts: seq<Rows>, parts': seq<Rows>, axis: Axis, draw: Draw, s: nat, k: nat)
    requires parts != [] && AlikeParts(parts, parts', axis)
    ensures Alike(Drawn(parts, draw, s, k), Drawn(parts', draw, s, k), axis)
  {
    if k > 0 {
      var i := draw(|parts|, s, k - 1) % |parts|;
      AlikeDrawn(parts, parts', axis, draw, s, k - 1);
      AlikeConcat(Drawn(parts, draw, s, k - 1), Drawn(parts', draw, s, k - 1), parts[i], parts'[i], axis);
    }
  }

  lemma AlikeSample(parts: seq<Rows>, parts': seq<Rows>, axis: Axis, draw: Draw, s: nat)
    requires parts != [] && AlikeParts(parts, parts', axis)
    ensures parts' != [] && KappaOver(Sample(parts, draw, s), axis) == KappaOver(Sample(parts', draw, s), axis)
  {
    AlikeDrawn(parts, parts', axis, draw, s, |parts|);
    AlikeKappas(Sample(parts, draw, s), Sample(parts', draw, s), axis);
  }

  lemma {:induction false} SameSamples(parts: seq<Rows>, parts': seq<Rows>, axis: Axis, draw: Draw, m: nat)
    requires parts != [] && parts' != []
    requires forall s: nat :: s < m ==>
               KappaOver(Sample(parts, draw, s), axis) == KappaOver(Sample(parts', draw, s), axis)
    ensures Kappas(parts, axis, draw, m) == Kappas(parts', axis, draw, m)
  {
    if m > 0 {
      SameSamples(parts, parts', axis, draw, m - 1);
      AlikeKappasSnoc(parts, parts', axis, draw, m, KappaOver(Sample(parts, draw, m - 1), axis));
    }
  }

  lemma AlikeKappasSnoc(parts: seq<Rows>, parts': seq<Rows>, axis: Axis, draw: Draw, m: nat, kappa: Outcome<real>)
    requires parts != [] && parts' != [] && m > 0
    requires Kappas(parts, axis, draw, m - 1) == Kappas(parts', axis, draw, m - 1)
    requires kappa == KappaOver(Sample(parts, draw, m - 1), axis) == KappaOver(Sample(parts', draw, m - 1), axis)
    ensures Kappas(parts, axis, draw, m) == Kappas(parts', axis, draw, m)
  {
    KappasSnoc(parts, axis, draw, m, kappa);
    KappasSnoc(parts', axis, draw, m, kappa);
  }

  lemma AlikeSamples(parts: seq<Rows>, parts': seq<Rows>, axis: Axis, draw: Draw, m: nat)
    requires parts != [] && AlikeParts(parts, parts', axis)
    ensures parts' != [] && Kappas(parts, axis, draw, m) == Kappas(parts', axis, draw, m)
  {
    forall s: nat | s < m { AlikeSample(parts, parts', axis, draw, s); }
    SameSamples(parts, parts', axis, draw, m);
  }

  lemma AlikeIntervals(rows: Rows, rows': Rows, axis: Axis, draw: Draw, familySize: nat)
    requires Alike(rows, rows', axis)
    ensures Interval(rows, axis, draw, familySize) == Interval(rows', axis, draw, familySize)
  {
    AlikePopulations(rows, rows', axis);
    var counted, counted' := Population(rows, axis), Population(rows', axis);
    if |counted| >= 2 {
      ClustersPartition(counted);
      ClustersPartition(counted');
      AlikeClusters(counted, counted', axis);
      AlikeSamples(Clusters(counted), Clusters(counted'), axis, draw, BOOTSTRAP_RESAMPLES);
    }
  }

  // ----- what does not reach an axis -----

  ghost predicate SameAxis(rows: Rows, rows': Rows, axis: Axis, draw: Draw, familySize: nat) {
    && TableOf(Population(rows, axis), axis) == TableOf(Population(rows', axis), axis)
    && KappaOver(rows, axis) == KappaOver(rows', axis)
    && Interval(rows, axis, draw, familySize) == Interval(rows', axis, draw, familySize)
  }

  lemma AlikeIsSame(rows: Rows, rows': Rows, axis: Axis, draw: Draw, familySize: nat)
    requires Alike(rows, rows', axis)
    ensures SameAxis(rows, rows', axis, draw, familySize)
  {
    AlikePopulations(rows, rows', axis);
    AlikeTables(Population(rows, axis), Population(rows', axis), axis);
    AlikeKappas(rows, rows', axis);
    AlikeIntervals(rows, rows', axis, draw, familySize);
  }

  /** Both say the same of record, human verdict and review flag. */
  ghost predicate SameJudgement(row: CalibrationLabel, row': CalibrationLabel) {
    row.recordId == row'.recordId && row.humanVerdict == row'.humanVerdict && row.needsReview == row'.needsReview
  }

  /** MAIN. Nothing but record, human verdict, review flag and scorer verdict reaches the headline table, kappa and
      interval: the reference labeller's opinions least of all. */
  lemma HeadlineReadsTheScorer(rows: Rows, rows': Rows, draw: Draw, familySize: nat)
    requires |rows| == |rows'|
    requires forall i :: 0 <= i < |rows| ==>
               SameJudgement(rows[i], rows'[i]) && rows[i].scorerVerdict == rows'[i].scorerVerdict
    ensures SameAxis(rows, rows', Headline, draw, familySize)
  {
    forall i | 0 <= i < |rows| ensures AlikeRow(rows[i], rows'[i], Headline) {
      assert SameJudgement(rows[i], rows'[i]);
    }
    AlikeIsSame(rows, rows', Headline, draw, familySize);
  }

  /** MAIN. Nor does anything but these and the pre-label reach the secondary ones: the scorer's verdicts do not. */
  lemma SecondaryReadsTheLabeller(rows: Rows, rows': Rows, draw: Draw, familySize: nat)
    requires |rows| == |rows'|
    requires forall i :: 0 <= i < |rows| ==>
               SameJudgement(rows[i], rows'[i]) && rows[i].preLabel == rows'[i].preLabel
    ensures SameAxis(rows, rows', Secondary, draw, familySize)
  {
    forall i | 0 <= i < |rows| ensures AlikeRow(rows[i], rows'[i], Secondary) {
      assert SameJudgement(rows[i], rows'[i]);
    }
    AlikeIsSame(rows, rows', Secondary, draw, familySize);
  }

  // ----- perfect agreement -----

  /** The machine of the axis agrees with the human on the row. */
  ghost predicate Agrees(row: CalibrationLabel, axis: Axis) {
    if axis == Headline then row.humanVerdict == Some(row.scorerVerdict) else row.humanVerdict == row.preLabel
  }

  lemma {:induction false} NoDisagreement(rows: Rows, axis: Axis)
    requires forall row :: row in rows ==> Counted(row, axis)
    ensures Cell(rows, axis, true, false) + Cell(rows, axis, false, true) == 0 <==>
            forall row :: row in rows ==> Agrees(row, axis)
  {
    if rows != [] {
      var front, last := rows[..|rows| - 1], rows[|rows| - 1];
      assert rows == front + [last];
      NoDisagreement(front, axis);
      assert last in rows;
      AgreesIs(last, axis);
    }
  }

  lemma AgreesIs(row: CalibrationLabel, axis: Axis)
    requires Counted(row, axis)
    ensures Agrees(row, axis) <==>
            !(Machine(row, axis) && row.humanVerdict == Some(false))
            && !(!Machine(row, axis) && row.humanVerdict == Some(true))
  {
    TrueOrFalse(row.humanVerdict);
    if axis == Secondary { TrueOrFalse(row.preLabel); }
    TrueOrFalse(Some(row.scorerVerdict));
  }

  lemma TrueOrFalse(b: Option<bool>)
    requires b.Some?
    ensures b == Some(true) || b == Some(false)
  {
    if b.value { assert b == Some(true); } else { assert b == Some(false); }
  }

  /** MAIN. A defined kappa is 1 exactly when, on every clean row, the human said what the scorer said; on the
      secondary axis, what the reference labeller said wherever it said something. */
  lemma KappaIsOneIff(rows: Rows, axis: Axis)
    requires KappaOver(rows, axis).Computed?
    ensures KappaOver(rows, axis).value == 1.0 <==>
            forall row :: row in rows && Clean(row) && (axis == Headline || row.preLabel.Some?) ==> Agrees(row, axis)
  {
    var counted := Population(rows, axis);
    KeepIs(rows, row => Counted(row, axis));
    TableCountsRows(counted, axis);
    KappaRange(TableOf(counted, axis));
    NoDisagreement(counted, axis);
  }
}
