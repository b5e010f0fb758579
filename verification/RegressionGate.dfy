/** The regression gate of `evals/regression_gate.py`. */
module RegressionGate {
  import opened Numbers
  import opened Options
  import Compare
  import Grouping
  import PairedStats
  import RateStats

  /** One published rate; `rate` and the bounds are absent when the denominator was 0. */
  datatype RateWithCI = RateWithCI(rate: Option<real>, ciLow: Option<real>, ciHigh: Option<real>)

  datatype TrendRow = TrendRow(guard: Option<RateWithCI>, capability: Option<RateWithCI>,
                               inconclusiveRate: Option<real>)

  datatype Metric = GuardRate | CapabilityRate | PairedMcNemar | InconclusiveRate

  datatype RegressionReport = RegressionReport(regressed: bool, findings: seq<Metric>)

  predicate RateRegressed(candidate: Option<RateWithCI>, baseline: Option<RateWithCI>) {
    && candidate.Some? && baseline.Some?
    && candidate.value.rate.Some? && baseline.value.rate.Some? && candidate.value.ciHigh.Some?
    && candidate.value.ciHigh.value < baseline.value.rate.value
  }

  predicate Fires(m: Metric, candidate: TrendRow, baseline: TrendRow, paired: Option<PairedStats.PairedResult>,
                  maxInconclusive: real) {
    match m
    case GuardRate => RateRegressed(candidate.guard, baseline.guard)
    case CapabilityRate => RateRegressed(candidate.capability, baseline.capability)
    case PairedMcNemar => paired.Some? && paired.value.verdict == PairedStats.Worse
    case InconclusiveRate => candidate.inconclusiveRate.Some? && candidate.inconclusiveRate.value > maxInconclusive
  }

  /** At most one more finding, of a later kind than those already there. */
  method Note(findings: seq<Metric>, m: Metric, fires: bool) returns (r: seq<Metric>)
    requires Ordered(findings) && forall x :: x in findings ==> Order(x) < Order(m)
    ensures Ordered(r) && forall x :: x in r <==> x in findings || (x == m && fires)
  {
    r := if fires then findings + [m] else findings;
    assert forall i :: 0 <= i < |findings| ==> findings[i] in findings;
  }

  ghost predicate Ordered(findings: seq<Metric>) {
    forall i, j :: 0 <= i < j < |findings| ==> Order(findings[i]) < Order(findings[j])
  }

  /** Every check runs; the findings are those that fired, in the source's order, each once. */
  method CheckRegression(candidate: TrendRow, baseline: TrendRow, paired: Option<PairedStats.PairedResult>,
                         maxInconclusive: real)
    returns (r: RegressionReport)
    ensures forall m :: m in r.findings <==> Fires(m, candidate, baseline, paired, maxInconclusive)
    ensures r.regressed <==> exists m :: Fires(m, candidate, baseline, paired, maxInconclusive)
    ensures Ordered(r.findings)
  {
    var findings := Note([], GuardRate, RateRegressed(candidate.guard, baseline.guard));
    findings := Note(findings, CapabilityRate, RateRegressed(candidate.capability, baseline.capability));
    findings := Note(findings, PairedMcNemar, paired.Some? && paired.value.verdict == PairedStats.Worse);
    findings := Note(findings, InconclusiveRate,
                     candidate.inconclusiveRate.Some? && candidate.inconclusiveRate.value > maxInconclusive);
    r := RegressionReport(findings != [], findings);
    if findings != [] {
      assert findings[0] in findings;
    }
  }

  function Order(m: Metric): nat {
    match m case GuardRate => 0 case CapabilityRate => 1 case PairedMcNemar => 2 case InconclusiveRate => 3
  }

  /** A rate published with its score interval at some (possibly corrected) sample size. */
  function Published(sqrt: real -> real, p: real, n: real): RateWithCI
    requires n > 0.0
  {
    var i := RateStats.ScoreBounds(sqrt, p, n, RateStats.Z95);
    RateWithCI(Some(p), Some(i.low), Some(i.high))
  }

  /** MAIN. A rate check fires exactly when the candidate lies below the baseline's rate and the
      candidate's score test rejects that rate. */
  lemma GateIsOneSidedScoreTest(sqrt: real -> real, p: real, n: real, baseline: RateWithCI)
    requires IsSqrt(sqrt) && 0.0 <= p <= 1.0 && n > 0.0 && baseline.rate.Some?
    ensures RateRegressed(Some(Published(sqrt, p, n)), Some(baseline)) <==>
            p < baseline.rate.value && !RateStats.Keeps(p, n, RateStats.Z95, baseline.rate.value)
  {
    var i := RateStats.ScoreBounds(sqrt, p, n, RateStats.Z95);
    RateStats.BoundsInvertScoreTest(sqrt, p, n, RateStats.Z95);
    RateStats.IntervalBracketsEstimate(sqrt, p, n, RateStats.Z95);
    assert i.low <= baseline.rate.value <= i.high <==> RateStats.Keeps(p, n, RateStats.Z95, baseline.rate.value);
  }

  /** The rate is unmeasured, or published with the interval that goes with it. */
  ghost predicate WellPublished(sqrt: real -> real, r: Option<RateWithCI>) {
    r.Some? && r.value.rate.Some? ==>
      exists p: real, n: real :: 0.0 <= p <= 1.0 && n > 0.0 && r.value == Published(sqrt, p, n)
  }

  /** MAIN. A run compared against itself never fires a rate check, whatever the sample sizes. */
  lemma SelfComparisonNeverFires(sqrt: real -> real, row: TrendRow)
    requires IsSqrt(sqrt) && WellPublished(sqrt, row.guard) && WellPublished(sqrt, row.capability)
    ensures !RateRegressed(row.guard, row.guard) && !RateRegressed(row.capability, row.capability)
  {
    SelfRate(sqrt, row.guard);
    SelfRate(sqrt, row.capability);
  }

  lemma SelfRate(sqrt: real -> real, r: Option<RateWithCI>)
    requires IsSqrt(sqrt) && WellPublished(sqrt, r)
    ensures !RateRegressed(r, r)
  {
    if r.Some? && r.value.rate.Some? {
      var p: real, n: real :| 0.0 <= p <= 1.0 && n > 0.0 && r.value == Published(sqrt, p, n);
      RateStats.IntervalBracketsEstimate(sqrt, p, n, RateStats.Z95);
    }
  }

  /** A published rate lies below the baseline's, which its score test rejects. */
  ghost predicate RejectsBaseline(sqrt: real -> real, candidate: Option<RateWithCI>, baseline: Option<RateWithCI>) {
    exists p: real, n: real, q: real ::
      && 0.0 <= p <= 1.0 && n > 0.0 && candidate == Some(Published(sqrt, p, n))
      && baseline.Some? && baseline.value.rate == Some(q) && p < q && !RateStats.Keeps(p, n, RateStats.Z95, q)
  }

  lemma RateFiresWhen(sqrt: real -> real, candidate: Option<RateWithCI>, baseline: Option<RateWithCI>)
    requires IsSqrt(sqrt) && WellPublished(sqrt, candidate)
    ensures RateRegressed(candidate, baseline) <==> RejectsBaseline(sqrt, candidate, baseline)
  {
    if RejectsBaseline(sqrt, candidate, baseline) {
      var p: real, n: real, q: real :|
        && 0.0 <= p <= 1.0 && n > 0.0 && candidate == Some(Published(sqrt, p, n))
        && baseline.Some? && baseline.value.rate == Some(q) && p < q && !RateStats.Keeps(p, n, RateStats.Z95, q);
      GateIsOneSidedScoreTest(sqrt, p, n, baseline.value);
    }
    if RateRegressed(candidate, baseline) {
      var p: real, n: real :| 0.0 <= p <= 1.0 && n > 0.0 && candidate.value == Published(sqrt, p, n);
      GateIsOneSidedScoreTest(sqrt, p, n, baseline.value);
      assert baseline.value.rate == Some(baseline.value.rate.value);
    }
  }

  /** MAIN. What each check of a run is about: the guard and the capability rate each against the baseline's own,
      a significant loss among the paired cases, and an inconclusive rate above what is allowed. An unmeasured
      rate and a missing comparison fire nothing. */
  lemma FiresWhen(sqrt: real -> real, candidate: TrendRow, baseline: TrendRow, improved: nat, regressed: nat, same: nat,
                  maxInconclusive: real)
    requires IsSqrt(sqrt) && WellPublished(sqrt, candidate.guard) && WellPublished(sqrt, candidate.capability)
    ensures var paired := Some(PairedStats.Judge(improved, regressed, same));
            && (Fires(GuardRate, candidate, baseline, paired, maxInconclusive) <==>
                  RejectsBaseline(sqrt, candidate.guard, baseline.guard))
            && (Fires(CapabilityRate, candidate, baseline, paired, maxInconclusive) <==>
                  RejectsBaseline(sqrt, candidate.capability, baseline.capability))
            && (Fires(PairedMcNemar, candidate, baseline, paired, maxInconclusive) <==>
                  PairedStats.SignificantLoss(improved, regressed))
            && !Fires(PairedMcNemar, candidate, baseline, None, maxInconclusive)
            && (Fires(InconclusiveRate, candidate, baseline, paired, maxInconclusive) <==>
                  exists rate :: candidate.inconclusiveRate == Some(rate) && rate > maxInconclusive)
  {
    RateFiresWhen(sqrt, candidate.guard, baseline.guard);
    RateFiresWhen(sqrt, candidate.capability, baseline.capability);
    PairedStats.WorseIsSignificantLoss(improved, regressed, same);
  }

  predicate Overlap(a: RateWithCI, b: RateWithCI)
    requires a.ciLow.Some? && a.ciHigh.Some? && b.ciLow.Some? && b.ciHigh.Some?
  {
    a.ciLow.value <= b.ciHigh.value && b.ciLow.value <= a.ciHigh.value
  }

  lemma KeptRateMeansOverlap(sqrt: real -> real, p: real, n: real, q: real, m: real)
    requires IsSqrt(sqrt) && 0.0 <= p <= 1.0 && 0.0 <= q <= 1.0 && n > 0.0 && m > 0.0
    ensures Overlap(Published(sqrt, p, n), Published(sqrt, q, m)) <==>
            exists x: real :: RateStats.Keeps(p, n, RateStats.Z95, x) && RateStats.Keeps(q, m, RateStats.Z95, x)
  {
    var i, j := RateStats.ScoreBounds(sqrt, p, n, RateStats.Z95), RateStats.ScoreBounds(sqrt, q, m, RateStats.Z95);
    RateStats.BoundsInvertScoreTest(sqrt, p, n, RateStats.Z95);
    RateStats.BoundsInvertScoreTest(sqrt, q, m, RateStats.Z95);
    RateStats.IntervalBracketsEstimate(sqrt, p, n, RateStats.Z95);
    RateStats.IntervalBracketsEstimate(sqrt, q, m, RateStats.Z95);
    if i.low <= j.high && j.low <= i.high {
      var x := Max(i.low, j.low);
      assert i.low <= x <= i.high && j.low <= x <= j.high;
      assert RateStats.Keeps(p, n, RateStats.Z95, x) && RateStats.Keeps(q, m, RateStats.Z95, x);
    }
    forall x: real | RateStats.Keeps(p, n, RateStats.Z95, x) && RateStats.Keeps(q, m, RateStats.Z95, x)
      ensures i.low <= x <= i.high && j.low <= x <= j.high
    {
    }
  }

  /** MAIN. "Overlapping intervals never fire" is false of exactly these runs: the candidate is below the
      baseline, its score test rejects the baseline's rate, and yet some rate is kept by both tests. */
  lemma OverlapFiresExactly(sqrt: real -> real, p: real, n: real, q: real, m: real)
    requires IsSqrt(sqrt) && 0.0 <= p <= 1.0 && 0.0 <= q <= 1.0 && n > 0.0 && m > 0.0
    ensures var c, b := Published(sqrt, p, n), Published(sqrt, q, m);
            RateRegressed(Some(c), Some(b)) && Overlap(c, b) <==>
            && p < q && !RateStats.Keeps(p, n, RateStats.Z95, q)
            && exists x: real :: RateStats.Keeps(p, n, RateStats.Z95, x) && RateStats.Keeps(q, m, RateStats.Z95, x)
  {
    KeptRateMeansOverlap(sqrt, p, n, q, m);
    GateIsOneSidedScoreTest(sqrt, p, n, Published(sqrt, q, m));
  }

  /** It does fail: one failing trial against one passing trial fires although the two
      intervals overlap. */
  lemma OverlapCanFire(sqrt: real -> real)
    requires IsSqrt(sqrt)
    ensures var c, b := Published(sqrt, 0.0, 1.0), Published(sqrt, 1.0, 1.0);
            RateRegressed(Some(c), Some(b)) && Overlap(c, b)
  {
    var h := 3.8416 / 4.8416;
    assert Sq(RateStats.Z95) == 3.8416;
    DivLe(3.8416, 0.0, 4.8416);
    RateStats.AllFailInterval(sqrt, 1, RateStats.Z95, h);
    RateStats.WilsonMirrors(sqrt, 0, 1, RateStats.Z95);
    RateStats.WilsonIsScoreInterval(sqrt, 0, 1, RateStats.Z95);
    RateStats.WilsonIsScoreInterval(sqrt, 1, 1, RateStats.Z95);
    RateStats.ShareInUnit(0, 1);
    RateStats.ShareInUnit(1, 1);
  }

  // ----- what evasion hides -----

  /** MAIN. The gate reads only the verdict `worse`, and evasion replaces it. A loss the test calls
      significant goes unnoticed by the paired check exactly when capability cases net lose, the other
      known cases net gain, and together the losses still outweigh the gains significantly. */
  lemma EvasionHidesFromGate(ids: seq<string>, before: map<string, PairedStats.CaseStat>,
                             after: map<string, PairedStats.CaseStat>, battery: string -> Compare.Battery,
                             candidate: TrendRow, baseline: TrendRow, maxInconclusive: real)
    requires Grouping.Distinct(ids) && forall id :: id in ids <==> id in before
    ensures var ms := Compare.MovesOf(Compare.StableSort(Compare.Joined(ids, before, after)), battery);
            var tested := PairedStats.Compare(before, after);
            var final := Compare.Overridden(tested, Compare.EvasionFires(ms));
            var lost, won := Lost(ms), Won(ms);
            tested.verdict == PairedStats.Worse
              && !Fires(PairedMcNemar, candidate, baseline, Some(final), maxInconclusive) <==>
            && lost.capability > won.capability && won.other > lost.other
            && PairedStats.SignificantLoss(won.All(), lost.All())
  {
    var ms := Compare.MovesOf(Compare.StableSort(Compare.Joined(ids, before, after)), battery);
    Compare.ComparisonOfMoves(ids, before, after, battery);
    HiddenLoss(ms, PairedStats.Compare(before, after), candidate, baseline, maxInconclusive);
  }

  lemma HiddenLoss(ms: seq<Compare.Move>, tested: PairedStats.PairedResult, candidate: TrendRow, baseline: TrendRow,
                   maxInconclusive: real)
    requires tested == PairedStats.Judge(Compare.Total(ms, PairedStats.Improved),
                                         Compare.Total(ms, PairedStats.Regressed),
                                         Compare.Total(ms, PairedStats.Unchanged))
    ensures var final := Compare.Overridden(tested, Compare.EvasionFires(ms));
            var lost, won := Lost(ms), Won(ms);
            tested.verdict == PairedStats.Worse
              && !Fires(PairedMcNemar, candidate, baseline, Some(final), maxInconclusive) <==>
            && lost.capability > won.capability && won.other > lost.other
            && PairedStats.SignificantLoss(won.All(), lost.All())
  {
    assert Lost(ms).All() == Compare.Total(ms, PairedStats.Regressed);
    assert Won(ms).All() == Compare.Total(ms, PairedStats.Improved);
    PairedStats.WorseIsSignificantLoss(Won(ms).All(), Lost(ms).All(), Compare.Total(ms, PairedStats.Unchanged));
  }

  /** Moves of one direction: capability cases, guard and excluded cases, and cases of no known prefix. */
  datatype Tally = Tally(capability: nat, other: nat, unknown: nat)
  {
    function All(): nat { capability + other + unknown }
  }

  function TallyOf(ms: seq<Compare.Move>, c: PairedStats.Change): Tally {
    Tally(Compare.Count(ms, Compare.Move(Compare.Capability, c)),
          Compare.Count(ms, Compare.Move(Compare.Guard, c)) + Compare.Count(ms, Compare.Move(Compare.Excluded, c)),
          Compare.Count(ms, Compare.Move(Compare.Unknown, c)))
  }

  function Lost(ms: seq<Compare.Move>): Tally { TallyOf(ms, PairedStats.Regressed) }

  function Won(ms: seq<Compare.Move>): Tally { TallyOf(ms, PairedStats.Improved) }

  /** Eight capability cases lost and one guard case won. */
  function Evading(): seq<Compare.Move> {
    seq(8, i => Compare.Move(Compare.Capability, PairedStats.Regressed))
    + [Compare.Move(Compare.Guard, PairedStats.Improved)]
  }

  lemma EvadingCount(m: Compare.Move)
    ensures Compare.Count(Evading(), m)
         == if m == Compare.Move(Compare.Capability, PairedStats.Regressed) then 8
            else if m == Compare.Move(Compare.Guard, PairedStats.Improved) then 1 else 0
  {
    Copies(Evading()[..8], Compare.Move(Compare.Capability, PairedStats.Regressed), m);
  }

  lemma EvadingTallies()
    ensures Lost(Evading()) == Tally(8, 0, 0) && Won(Evading()) == Tally(0, 1, 0)
  {
    forall m ensures Compare.Count(Evading(), m)
         == if m == Compare.Move(Compare.Capability, PairedStats.Regressed) then 8
            else if m == Compare.Move(Compare.Guard, PairedStats.Improved) then 1 else 0
    {
      EvadingCount(m);
    }
  }

  lemma EightAgainstOne()
    ensures PairedStats.SignificantLoss(1, 8)
  {
    NineCoins();
    DivLe(20.0, 0.05, 512.0);
  }

  /** Nine case ids, told apart by their length. */
  function Id(i: nat): string { if i == 0 then "" else Id(i - 1) + "x" }

  function Ids(n: nat): seq<string> { seq(n, i requires 0 <= i < n => Id(i)) }

  lemma {:induction false} IdLength(i: nat)
    ensures |Id(i)| == i
  {
    if i > 0 { IdLength(i - 1); }
  }

  /** The stat of a case run once. */
  function RunOnce(sqrt: real -> real, id: string, passed: bool): PairedStats.CaseStat {
    Compare.StatOf(sqrt, id, [passed])
  }

  /** The first eight cases pass before and fail after, and the ninth does the opposite. */
  function RunBefore(sqrt: real -> real): map<string, PairedStats.CaseStat> {
    map id | id in Ids(9) :: RunOnce(sqrt, id, |id| < 8)
  }

  function RunAfter(sqrt: real -> real): map<string, PairedStats.CaseStat> {
    map id | id in Ids(9) :: RunOnce(sqrt, id, |id| == 8)
  }

  function BatteryOf(id: string): Compare.Battery { if |id| < 8 then Compare.Capability else Compare.Guard }

  function DeltaOf(sqrt: real -> real, i: nat): Compare.CaseDelta {
    Compare.CaseDelta(Id(i), RunOnce(sqrt, Id(i), i < 8), RunOnce(sqrt, Id(i), i == 8),
                      if i < 8 then PairedStats.Regressed else PairedStats.Improved)
  }

  function Deltas(sqrt: real -> real, n: nat): seq<Compare.CaseDelta> {
    seq(n, i requires 0 <= i < n => DeltaOf(sqrt, i))
  }

  /** The two runs have case `i`, and the table shows it as `d`. */
  ghost predicate Shows(before: map<string, PairedStats.CaseStat>, after: map<string, PairedStats.CaseStat>, i: nat,
                        d: Compare.CaseDelta) {
    && Id(i) in before && Id(i) in after
    && d == Compare.CaseDelta(Id(i), before[Id(i)], after[Id(i)], PairedStats.ChangeOf(before[Id(i)], after[Id(i)]))
  }

  lemma RunsShow(sqrt: real -> real, i: nat)
    requires i < 9
    ensures Shows(RunBefore(sqrt), RunAfter(sqrt), i, DeltaOf(sqrt, i))
  {
    assert Ids(9)[i] == Id(i);
    IdLength(i);
    assert [true][..0] == [] && [false][..0] == [];
  }

  lemma {:induction false} JoinedShows(before: map<string, PairedStats.CaseStat>,
                                       after: map<string, PairedStats.CaseStat>, deltas: seq<Compare.CaseDelta>)
    requires forall i :: 0 <= i < |deltas| ==> Shows(before, after, i, deltas[i])
    ensures forall id :: id in Ids(|deltas|) ==> id in before
    ensures Compare.Joined(Ids(|deltas|), before, after) == deltas
  {
    var n := |deltas|;
    forall id | id in Ids(n) ensures id in before {
      var i :| 0 <= i < n && Ids(n)[i] == id;
      assert Shows(before, after, i, deltas[i]);
    }
    if n > 0 {
      JoinedShows(before, after, deltas[..n - 1]);
      assert Ids(n)[..n - 1] == Ids(n - 1);
      assert Ids(n)[n - 1] == Id(n - 1);
      assert Shows(before, after, n - 1, deltas[n - 1]);
      assert deltas == deltas[..n - 1] + [deltas[n - 1]];
    }
  }

  lemma SortedDeltas(sqrt: real -> real)
    ensures Compare.StableSort(Deltas(sqrt, 9)) == Deltas(sqrt, 9)
  {
    var lost, won := Deltas(sqrt, 8), [DeltaOf(sqrt, 8)];
    assert Deltas(sqrt, 9) == lost + won;
    Compare.PickConcat(lost, won, PairedStats.Regressed);
    Compare.PickConcat(lost, won, PairedStats.Improved);
    Compare.PickConcat(lost, won, PairedStats.Unchanged);
    Compare.AllPicked(lost, PairedStats.Regressed);
    Compare.NonePicked(lost, PairedStats.Improved);
    Compare.NonePicked(lost, PairedStats.Unchanged);
    Compare.NonePicked(won, PairedStats.Regressed);
    Compare.AllPicked(won, PairedStats.Improved);
    Compare.NonePicked(won, PairedStats.Unchanged);
  }

  lemma MoveAt(deltas: seq<Compare.CaseDelta>, i: nat)
    requires i < |deltas|
    ensures Compare.MovesOf(deltas, BatteryOf)[i] == Compare.Move(BatteryOf(deltas[i].caseId), deltas[i].change)
  {}

  lemma MovesAreEvading(sqrt: real -> real)
    ensures Compare.MovesOf(Deltas(sqrt, 9), BatteryOf) == Evading()
  {
    var ms := Compare.MovesOf(Deltas(sqrt, 9), BatteryOf);
    forall i | 0 <= i < 9
      ensures ms[i] == Compare.Move(if i < 8 then Compare.Capability else Compare.Guard,
                                    if i < 8 then PairedStats.Regressed else PairedStats.Improved)
    {
      MoveAt(Deltas(sqrt, 9), i);
      assert Deltas(sqrt, 9)[i].caseId == Id(i);
      IdLength(i);
    }
    assert |ms| == 9 == |Evading()|;
    assert ms == Evading();
  }

  lemma IdsAreTheCases(sqrt: real -> real)
    ensures Grouping.Distinct(Ids(9)) && forall id :: id in Ids(9) <==> id in RunBefore(sqrt)
  {
    forall i, j | 0 <= i < j < 9 ensures Ids(9)[i] != Ids(9)[j] {
      IdLength(i);
      IdLength(j);
    }
  }

  /** It can happen: comparing these two runs, a significant loss passes the paired check. */
  lemma EvasionCanHide(sqrt: real -> real, candidate: TrendRow, baseline: TrendRow, maxInconclusive: real)
    ensures var before, after := RunBefore(sqrt), RunAfter(sqrt);
            && Grouping.Distinct(Ids(9)) && (forall id :: id in Ids(9) <==> id in before)
            && var ms := Compare.MovesOf(Compare.StableSort(Compare.Joined(Ids(9), before, after)), BatteryOf);
               var tested := PairedStats.Compare(before, after);
               var final := Compare.Overridden(tested, Compare.EvasionFires(ms));
               tested.verdict == PairedStats.Worse
               && !Fires(PairedMcNemar, candidate, baseline, Some(final), maxInconclusive)
  {
    IdsAreTheCases(sqrt);
    forall i: nat | i < 9 { RunsShow(sqrt, i); }
    JoinedShows(RunBefore(sqrt), RunAfter(sqrt), Deltas(sqrt, 9));
    SortedDeltas(sqrt);
    MovesAreEvading(sqrt);
    EvadingTallies();
    EightAgainstOne();
    EvasionHidesFromGate(Ids(9), RunBefore(sqrt), RunAfter(sqrt), BatteryOf, candidate, baseline, maxInconclusive);
  }

  lemma {:induction false} Copies(ms: seq<Compare.Move>, x: Compare.Move, m: Compare.Move)
    requires forall i :: 0 <= i < |ms| ==> ms[i] == x
    ensures Compare.Count(ms, m) == if m == x then |ms| else 0
  {
    if ms != [] { Copies(ms[..|ms| - 1], x, m); }
  }

  lemma NineCoins()
    ensures PairedStats.Below(9, 2) == 10 && PairedStats.Pow2(9) == 512
  {
    ChooseOne(9);
    assert PairedStats.Below(9, 1) == PairedStats.Below(9, 0) + PairedStats.Choose(9, 0);
    assert PairedStats.Pow2(3) == 8;
    assert PairedStats.Pow2(6) == 64;
  }

  lemma {:induction false} ChooseOne(n: nat)
    ensures PairedStats.Choose(n, 1) == n
  {
    if n > 0 { ChooseOne(n - 1); }
  }
}
