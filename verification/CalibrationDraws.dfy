/** What a calibration interval of `evals/calibration.py` is: its clusters, its samples and the ends it takes. */
module CalibrationDraws {
  import opened Calibration
  import opened CalibrationIntervals
  import opened CalibrationRecords
  import opened Counting
  import opened Grouping
  import opened Numbers
  import opened Options
  import opened Resampling
  import opened Selection
  import opened Sorting

  // ----- cases -----

  /** `c` is all of the record id before its first colon. */
  ghost predicate IsCase(recordId: string, c: string) { ':' !in c && (recordId == c || c + ":" <= recordId) }

  lemma {:induction false} CaseIdIsCase(recordId: string, c: string)
    ensures IsCase(recordId, c) <==> c == CaseId(recordId)
  {
    if recordId == [] || recordId[0] == ':' {
      if c != [] {
        assert c + ":" <= recordId ==> c[0] == (c + ":")[0] == recordId[0];
        assert c[0] in c;
      }
    } else if c != [] {
      CaseIdIsCase(recordId[1..], c[1..]);
      assert c == [c[0]] + c[1..] && recordId == [recordId[0]] + recordId[1..];
      assert ':' in c <==> c[0] == ':' || ':' in c[1..];
      if c[0] == recordId[0] {
        assert c + ":" <= recordId <==> c[1..] + ":" <= recordId[1..];
      }
    }
  }

  /** One cluster for each case of the rows, in the order the cases are first seen, holding the rows of the case
      in their order. */
  ghost predicate ByCase(clusters: seq<Rows>, ids: seq<string>, rows: Rows) {
    && |clusters| == |ids|
    && (forall row :: row in rows ==> exists i :: 0 <= i < |ids| && IsCase(row.recordId, ids[i]))
    && (forall i :: 0 <= i < |ids| ==> clusters[i] != [] && Selects(rows, OfCase(ids[i]), clusters[i]))
    && forall i, j :: 0 <= i < j < |ids| ==> CaseSeenBefore(rows, ids[i], ids[j])
  }

  ghost function OfCase(c: string): CalibrationLabel -> bool { (row: CalibrationLabel) => IsCase(row.recordId, c) }

  ghost predicate CaseSeenBefore(rows: Rows, c: string, c': string) {
    exists p :: 0 <= p < |rows| && IsCase(rows[p].recordId, c)
                && forall q :: 0 <= q <= p ==> !IsCase(rows[q].recordId, c')
  }

  lemma {:induction false} GroupSelects(rows: Rows, c: string)
    ensures Selects(rows, OfCase(c), ValuesOf(Tagged(rows), c))
  {
    if rows == [] {
      SelectsNone(OfCase(c));
    } else {
      var front, last := rows[..|rows| - 1], rows[|rows| - 1];
      assert rows == front + [last];
      assert Tagged(rows) == Tagged(front) + [(CaseId(last.recordId), last)];
      GroupSelects(front, c);
      Snoc(Tagged(front), CaseId(last.recordId), last);
      CaseIdIsCase(last.recordId, c);
      SelectsSnoc(front, last, OfCase(c), ValuesOf(Tagged(front), c));
    }
  }

  lemma SeenAsCase(rows: Rows, c: string, c': string)
    requires SeenBefore(Tagged(rows), c, c')
    ensures CaseSeenBefore(rows, c, c')
  {
    var p :| 0 <= p < |Tagged(rows)| && Tagged(rows)[p].0 == c && forall q :: 0 <= q <= p ==> Tagged(rows)[q].0 != c';
    CaseIdIsCase(rows[p].recordId, c);
    forall q | 0 <= q <= p
      ensures !IsCase(rows[q].recordId, c')
    {
      assert Tagged(rows)[q].0 != c';
      CaseIdIsCase(rows[q].recordId, c');
    }
  }

  /** MAIN. The clusters are the cases of the rows. */
  lemma ClustersAreCases(rows: Rows)
    ensures ByCase(Clusters(rows), KeysInOrder(Tagged(rows)), rows)
  {
    var ids := KeysInOrder(Tagged(rows));
    KeysAreTheKeys(Tagged(rows));
    forall i | 0 <= i < |ids|
      ensures Clusters(rows)[i] != [] && Selects(rows, OfCase(ids[i]), Clusters(rows)[i])
    {
      assert ids[i] in ids;
      GroupSelects(rows, ids[i]);
    }
    forall i, j | 0 <= i < j < |ids|
      ensures CaseSeenBefore(rows, ids[i], ids[j])
    {
      KeysAsSeen(Tagged(rows), i, j);
      SeenAsCase(rows, ids[i], ids[j]);
    }
    forall row | row in rows
      ensures exists i :: 0 <= i < |ids| && IsCase(row.recordId, ids[i])
    {
      HasItsCase(rows, row);
    }
  }

  lemma HasItsCase(rows: Rows, row: CalibrationLabel)
    requires row in rows
    ensures var ids := KeysInOrder(Tagged(rows)); exists i :: 0 <= i < |ids| && IsCase(row.recordId, ids[i])
  {
    var ids, c := KeysInOrder(Tagged(rows)), CaseId(row.recordId);
    KeysOccur(Tagged(rows), c);
    CaseIdIsCase(row.recordId, c);
    var p :| 0 <= p < |rows| && rows[p] == row;
    assert Tagged(rows)[p].0 == c;
    assert Occurs(Tagged(rows), c);
    var i :| 0 <= i < |ids| && ids[i] == c;
  }

  // ----- samples -----

  /** The clusters a sample chooses, in order. */
  function Chosen(clusters: seq<Rows>, draw: Draw, s: nat, k: nat): seq<Rows>
    requires clusters != []
  {
    seq(k, i requires 0 <= i < k => clusters[draw(|clusters|, s, i) % |clusters|])
  }

  lemma {:induction false} DrawnIsChosen(clusters: seq<Rows>, draw: Draw, s: nat, k: nat)
    requires clusters != []
    ensures Drawn(clusters, draw, s, k) == Flatten(Chosen(clusters, draw, s, k))
  {
    if k > 0 {
      DrawnIsChosen(clusters, draw, s, k - 1);
      assert Chosen(clusters, draw, s, k)[..k - 1] == Chosen(clusters, draw, s, k - 1);
    }
  }

  /** The kappa of the chosen clusters laid end to end, if it has one. */
  function KappaOfChosen(clusters: seq<Rows>, axis: Axis, draw: Draw, s: nat): Option<real>
    requires clusters != []
  {
    var kappa := KappaOver(Flatten(Chosen(clusters, draw, s, |clusters|)), axis);
    if kappa.Computed? then Some(kappa.value) else None
  }

  ghost function OfSamples(clusters: seq<Rows>, axis: Axis, draw: Draw, m: nat): seq<Option<real>>
    requires clusters != []
  {
    seq(m, s requires 0 <= s < m => KappaOfChosen(clusters, axis, draw, s))
  }

  lemma {:induction false} KappasAreValues(clusters: seq<Rows>, axis: Axis, draw: Draw, m: nat)
    requires clusters != []
    ensures Kappas(clusters, axis, draw, m) == Values(OfSamples(clusters, axis, draw, m))
  {
    if m > 0 {
      KappasAreValues(clusters, axis, draw, m - 1);
      OneMoreSample(clusters, axis, draw, m);
      KappasSnoc(clusters, axis, draw, m, KappaOver(Sample(clusters, draw, m - 1), axis));
    }
  }

  lemma OneMoreSample(clusters: seq<Rows>, axis: Axis, draw: Draw, m: nat)
    requires clusters != [] && m > 0
    ensures var kappa := KappaOver(Sample(clusters, draw, m - 1), axis);
            Values(OfSamples(clusters, axis, draw, m))
            == Values(OfSamples(clusters, axis, draw, m - 1)) + if kappa.Computed? then [kappa.value] else []
  {
    DrawnIsChosen(clusters, draw, m - 1, |clusters|);
    assert OfSamples(clusters, axis, draw, m)[..m - 1] == OfSamples(clusters, axis, draw, m - 1);
  }

  // ----- ends -----

  lemma PercentilesAtTails(kappas: seq<real>, tail: real)
    requires kappas != [] && 0.0 <= tail < 0.5
    ensures var ends := PercentilesOf(kappas, tail, 1.0 - tail); AtTails(Sorted(kappas), tail, ends.0, ends.1)
  {
    SortedSorts(kappas);
    TailsAt(Sorted(kappas), tail);
  }

  /** The ends at the five percent level shared equally by the members of a family, half of it on either side. */
  ghost predicate AtFamilyTails(s: seq<real>, familySize: nat, ends: (real, real)) {
    exists tail :: 2.0 * (tail * familySize as real) == 0.05 && AtTails(s, tail, ends.0, ends.1)
  }

  /** The ends of an interval on its own, and in a family of more than one also those of the family. */
  ghost predicate EndsOf(ci: KappaCI, s: seq<real>, familySize: nat) {
    && AtTails(s, 0.025, ci.lo, ci.hi)
    && (ci.holm.Some? <==> familySize > 1) && (ci.holm.Some? ==> AtFamilyTails(s, familySize, ci.holm.value))
  }

  lemma HolmTailShares(familySize: nat)
    requires familySize > 0
    ensures 2.0 * (HolmTail(familySize) * familySize as real) == 0.05
  {
    DivLe(CI_NOMINAL_ALPHA, 0.0, familySize as real);
  }

  lemma IntervalEnds(kappas: seq<real>, nClusters: nat, nRows: nat, familySize: nat)
    requires kappas != []
    ensures EndsOf(IntervalOf(kappas, nClusters, nRows, familySize), Sorted(kappas), familySize)
  {
    PercentilesAtTails(kappas, 0.025);
    if familySize > 1 { HolmEnds(kappas, familySize); }
  }

  lemma HolmEnds(kappas: seq<real>, familySize: nat)
    requires kappas != [] && familySize > 1
    ensures AtFamilyTails(Sorted(kappas), familySize, Holm(kappas, familySize).value)
  {
    HolmTailIsSmaller(familySize);
    HolmTailShares(familySize);
    PercentilesAtTails(kappas, HolmTail(familySize));
  }

  /** The interval of an axis over its counted rows, clustered as given. */
  ghost predicate IsIntervalOf(r: Outcome<KappaCI>, clusters: seq<Rows>, axis: Axis, draw: Draw, familySize: nat)
    requires clusters != []
  {
    var ks := OfSamples(clusters, axis, draw, 2000);
    && (r == Raised(AllDegenerate(axis)) <==> DefinedIn(ks) == {})
    && (DefinedIn(ks) != {} ==>
          && r.Computed? && r.value.nClusters == |clusters|
          && forall s :: Distribution(s, ks) ==> EndsOf(r.value, s, familySize))
  }

  lemma IntervalIs(kappas: seq<real>, clusters: seq<Rows>, nRows: nat, axis: Axis, draw: Draw, familySize: nat)
    requires clusters != [] && kappas == Values(OfSamples(clusters, axis, draw, 2000))
    ensures IsIntervalOf(if kappas == [] then Raised(AllDegenerate(axis))
                         else Computed(IntervalOf(kappas, |clusters|, nRows, familySize)),
                         clusters, axis, draw, familySize)
  {
    var ks := OfSamples(clusters, axis, draw, 2000);
    ValuesAreCounted(ks, 0.0);
    forall s | kappas != [] && Distribution(s, ks)
      ensures EndsOf(IntervalOf(kappas, |clusters|, nRows, familySize), s, familySize)
    {
      SameDistribution(s, ks);
      IntervalEnds(kappas, |clusters|, nRows, familySize);
    }
  }

  /** MAIN. With two counted rows or more, the interval is that of 2000 samples of as many clusters as there are,
      drawn with replacement from the cases of the counted rows: it fails when no sample has a kappa, and otherwise
      cuts off two and a half percent of the kappas at either end, or for the bounds of a family a share of that. */
  lemma IntervalOfDraws(rows: Rows, axis: Axis, draw: Draw, familySize: nat)
    ensures var counted, r := Population(rows, axis), Interval(rows, axis, draw, familySize);
            && (r == Raised(TooFewRows(axis)) <==> |counted| < 2)
            && (|counted| >= 2 ==> exists clusters, ids :: ByCase(clusters, ids, counted) && clusters != []
                                                           && IsIntervalOf(r, clusters, axis, draw, familySize))
            && (r.Computed? ==> r.value.nRows == |counted|)
  {
    var counted := Population(rows, axis);
    if |counted| >= 2 {
      var clusters := Clusters(counted);
      ClustersPartition(counted);
      ClustersAreCases(counted);
      KappasAreValues(clusters, axis, draw, 2000);
      IntervalIs(Kappas(clusters, axis, draw, 2000), clusters, |Flatten(clusters)|, axis, draw, familySize);
    }
  }

  lemma {:induction false} KeepSelects(rows: Rows, p: CalibrationLabel -> bool)
    ensures Selects(rows, p, Keep(rows, p))
  {
    if rows == [] {
      SelectsNone(p);
    } else {
      KeepSelects(rows[..|rows| - 1], p);
      assert rows == rows[..|rows| - 1] + [rows[|rows| - 1]];
      SelectsSnoc(rows[..|rows| - 1], rows[|rows| - 1], p, Keep(rows[..|rows| - 1], p));
    }
  }

  /** Clean, and on the secondary axis labelled by the reference labeller. */
  ghost function CleanOn(axis: Axis): CalibrationLabel -> bool {
    (row: CalibrationLabel) => Clean(row) && (axis == Secondary ==> row.preLabel.Some?)
  }

  /** The rows an axis counts. */
  lemma CountedRowsAre(rows: Rows, axis: Axis)
    ensures Selects(rows, CleanOn(axis), Population(rows, axis))
  {
    KeepSelects(rows, row => Counted(row, axis));
    SelectsAlike(rows, row => Counted(row, axis), CleanOn(axis), Population(rows, axis));
  }

  // ----- a run -----

  ghost function JudgedOf(rows: Rows, scorer: string): set<nat> {
    Places(rows, (row: CalibrationLabel) => row.scorer == scorer && row.humanVerdict.Some?)
  }

  lemma {:induction false} JudgedAreCounted(rows: Rows, scorer: string)
    ensures |Judged(OfScorer(rows, scorer))| == |JudgedOf(rows, scorer)|
  {
    if rows == [] {
      assert JudgedOf(rows, scorer) == {};
    } else {
      var front, row := rows[..|rows| - 1], rows[|rows| - 1];
      assert rows == front + [row];
      JudgedAreCounted(front, scorer);
      PlacesSnoc(front, row, (r: CalibrationLabel) => r.scorer == scorer && r.humanVerdict.Some?);
      KeepSnoc(front, row, (r: CalibrationLabel) => r.scorer == scorer);
      if row.scorer == scorer {
        KeepSnoc(OfScorer(front, scorer), row, (r: CalibrationLabel) => r.humanVerdict.Some?);
      }
    }
  }

  /** Two rows or more of the scorer are judged, flagged or not. */
  ghost function TwoJudged(rows: Rows): string -> bool { (scorer: string) => |JudgedOf(rows, scorer)| >= 2 }

  lemma {:induction false} EligibleSelected(rows: Rows, scorers: seq<string>)
    ensures Selects(scorers, TwoJudged(rows), EligibleScorers(rows, scorers))
  {
    if scorers == [] {
      SelectsNone(TwoJudged(rows));
    } else {
      var front, last := scorers[..|scorers| - 1], scorers[|scorers| - 1];
      assert scorers == front + [last];
      EligibleSelected(rows, front);
      JudgedAreCounted(rows, last);
      SelectsSnoc(front, last, TwoJudged(rows), EligibleScorers(rows, front));
    }
  }

  /** The interval is that of an axis over the rows, in a family of that size. */
  ghost predicate IntervalSays(ci: KappaCI, rows: Rows, axis: Axis, draw: Draw, familySize: nat) {
    exists clusters, ids :: ByCase(clusters, ids, Population(rows, axis)) && clusters != []
                            && IsIntervalOf(Computed(ci), clusters, axis, draw, familySize)
  }

  lemma ComputedSays(rows: Rows, axis: Axis, draw: Draw, familySize: nat)
    requires Interval(rows, axis, draw, familySize).Computed?
    ensures IntervalSays(Interval(rows, axis, draw, familySize).value, rows, axis, draw, familySize)
  {
    IntervalOfDraws(rows, axis, draw, familySize);
    var clusters, ids :| ByCase(clusters, ids, Population(rows, axis)) && clusters != []
                         && IsIntervalOf(Interval(rows, axis, draw, familySize), clusters, axis, draw, familySize);
    assert Interval(rows, axis, draw, familySize) == Computed(Interval(rows, axis, draw, familySize).value);
  }

  /** MAIN. The reports of a run are those of the scorers with two judged rows, in the order they first appear, and
      their intervals, one for each axis of each of them, are one family. */
  lemma RunIsOneFamily(allRows: Rows, draw: Draw)
    ensures Selects(Scorers(allRows), TwoJudged(allRows), AllEligible(allRows))
    ensures |Outcomes(allRows, draw)| == |AllEligible(allRows)|
    ensures forall i :: 0 <= i < |Outcomes(allRows, draw)| && Outcomes(allRows, draw)[i].Computed? ==>
              var report, scorer := Outcomes(allRows, draw)[i].value, AllEligible(allRows)[i];
              var rows, family := OfScorer(allRows, scorer), 2 * |AllEligible(allRows)|;
              && report.scorer == scorer
              && IntervalSays(report.ci, rows, Headline, draw, family)
              && IntervalSays(report.secondaryCi, rows, Secondary, draw, family)
  {
    EligibleSelected(allRows, Scorers(allRows));
    forall i | 0 <= i < |Outcomes(allRows, draw)| && Outcomes(allRows, draw)[i].Computed?
      ensures var report, scorer := Outcomes(allRows, draw)[i].value, AllEligible(allRows)[i];
              var rows, family := OfScorer(allRows, scorer), 2 * |AllEligible(allRows)|;
              && report.scorer == scorer
              && IntervalSays(report.ci, rows, Headline, draw, family)
              && IntervalSays(report.secondaryCi, rows, Secondary, draw, family)
    {
      ReportSays(allRows, AllEligible(allRows)[i], draw, 2 * |AllEligible(allRows)|);
    }
  }

  lemma ReportSays(allRows: Rows, scorer: string, draw: Draw, familySize: nat)
    requires Calibrated(scorer, allRows, familySize, draw).Computed?
    ensures var report, rows := Calibrated(scorer, allRows, familySize, draw).value, OfScorer(allRows, scorer);
            && report.scorer == scorer
            && IntervalSays(report.ci, rows, Headline, draw, familySize)
            && IntervalSays(report.secondaryCi, rows, Secondary, draw, familySize)
  {
    ComputedSays(OfScorer(allRows, scorer), Headline, draw, familySize);
    ComputedSays(OfScorer(allRows, scorer), Secondary, draw, familySize);
  }
}
