# A verified model of the evaluation harness

The harness judges a dialogue engine, and two of its parts must not be wrong. One is the hand-written
statistics that decide whether a run got better or worse. The other is the label store, which must never
lose a human verdict or silently attach it to criteria nobody judged. This project models both, together
with the orderers and interleavers around them and the graph snapshot used to reset a demo, and proves
what their documentation promises, or exactly when they keep the promise.

`dafny verify dfyconfig.toml` checks everything. Each module is one file of the same name.

- **Statistics.** `RateStats` (Wilson interval), `BatteryRates` (ANOVA intra-class correlation and design
  effect), `RegressionGate`, `PairedStats` (McNemar's exact test), `Compare` (the delta table and evasion),
  `OrderEffect` (Cochran's Q), `KappaStats` and `KappaIntervals` (Fleiss' kappa, percentiles, bootstrap),
  `JudgePanel` (pairwise agreement), `PanelPolarity` (what polarity does to kappa), `CohenKappa`,
  `CalibrationIntervals`, `Calibration`, `CalibrationConditions` (which scorers can be reported), `ReportAxes`
  (what reaches which axis of a report).
- **Reports read from their data.** What the numbers above are, told from the rows, votes and outcomes alone:
  `ComparedRows`, `OrderReport`, `VotePairs`, `CalibrationDraws`, and for the label store `SurvivalReport`.
- **Label store.** `CalibrationRecords`, `LabelImport`, `LabelMerge`, `LabelStore`, `Adjudicate`,
  `LabelLifecycle` (whole runs), `LabelSurvival` (the predictor).
- **Orders.** `LabelSampling` (labelling order), `PairedArms` (interleaved generation).
- **Snapshot.** `SnapshotCodec`, `SnapshotRestore`.
- **Shared.** `Numbers`, `Options`, `Counting`, `Sums`, `Sorting`, `Selection`, `Resampling`, `Grouping`.

Every `float` is an exact `real`. `sqrt` is any function that returns the nonnegative root of every
nonnegative argument (`Numbers.IsSqrt`). Random draws and shuffles are arbitrary functions, so what is
proved holds for every seed. Hashing, clocks, the chi-square tail and the judged engine are parameters.

## Where the code and its documentation differ

The model follows the code. Each point below is a member that says exactly when the documented behaviour
holds.

- `evals/regression_gate.py:153-155` says overlapping confidence intervals never fire. The test at
  `evals/regression_gate.py:99` only compares the candidate's upper bound with the baseline's rate
  (`RegressionGate.OverlapFiresExactly`, `RegressionGate.OverlapCanFire`).
- `evals/regression_gate.py:168` tests for the verdict `worse` only, and `evals/compare.py:389-396` replaces that
  verdict when evasion is detected: a loss the paired test calls significant can pass the gate's paired check
  (`RegressionGate.EvasionHidesFromGate`, `RegressionGate.EvasionCanHide`).
- `evals/label_merge.py:48-49` and the report at `evals/label_merge.py:111-118` call the `drifted` rows flagged
  under a human verdict. The loop at `evals/label_merge.py:251-252` lists every drifting row, also those nobody
  judged, which are not flagged, and those flagged before (`LabelMerge.DriftReportVersusFlags`,
  `LabelMerge.UnjudgedDriftIsReported`).
- `evals/label_import.py:271-277` writes a fresh import without looking for repeated keys, and every later
  reader then refuses the file, also with `--force-overwrite` (`LabelStore.ReadableAfterStoring`,
  `LabelStore.RepeatedKeyLocksTheStore`, `LabelLifecycle.RunReadableIff`).
- `evals/label_survival.py:39-41` says that a key without a transcript item survives; the code at
  `evals/label_survival.py:138-140` reports it as orphaned, and the model follows the code
  (`LabelSurvival.PartialBatch`).
- `evals/calibration.py:813-820` promises a report for every scorer with two judged rows. It counts flagged rows,
  which the statistics leave out; and a scorer whose rows all agree on one verdict has no kappa, so one such
  scorer, flagged rows or not, ends the whole run (`CalibrationConditions.RunSucceedsIff`,
  `CalibrationConditions.AgreeingRowsAreRefused`, `CalibrationConditions.FlaggedRowsAreRefused`).
- `evals/calibration_records.py:118-124` says flagged rows are excluded from every calibration statistic.
  `agreement_rate` (`evals/calibration.py:585`) counts them (`Calibration.FlaggedRowsMoveTheRate`,
  `CalibrationConditions.FlaggedRowHalvesAgreement`).
- `evals/panel_metrics.py:14-20` says that pooling raw scores inflates kappa. It does so, or deflates it, by
  where the raw share of true votes lies (`PanelPolarity.PolarityMovesKappa`, `PanelPolarity.PoolingGoesBothWays`).
- `demo_game/snapshot.py:88-96` takes every dict with the reserved key for a temporal, so the codec is not the
  inverse its own format suggests on such dicts; graph properties never hold one (`SnapshotCodec.RoundTripIff`,
  `SnapshotCodec.TaggedDictsDiffer`, `SnapshotCodec.PropertyValuesComeBack`).
- `evals/calibration.py:342` decides undefinedness with a tolerance; the test is exact for all tables of a size
  if and only if the size is at most ten to the twelfth (`CohenKappa.ToleranceIsExactIff`).
- `evals/compare.py:314-316` says that cases of neither battery do not contribute to evasion; excluded cases
  do (`Compare.EvasionMatchesDocumentation`).
- `evals/label_merge.py:163-169` trusts a row whenever either hash is empty. That is safe only because an
  import always stamps a hash (`LabelMerge.LastBatchWins`, `LabelLifecycle.EmptyHashMovesVerdict`).

## Model

| member | source | states |
|---|---|---|
| RateStats.BoundsInvertScoreTest | evals/rate_stats.py:57-88 | the interval is exactly the set of rates the score test keeps; its two ends are exactly the roots of n(p-x)^2 = z^2 x(1-x) |
| RateStats.IntervalBracketsEstimate | evals/rate_stats.py:83-88 | 0 <= low <= p <= high <= 1; low is 0 exactly at p = 0 and high is 1 exactly at p = 1, so the clip never bites |
| RateStats.WilsonIsScoreInterval | evals/rate_stats.py:22-54 | putting the degenerate ends on 0 and 1 changes nothing in exact arithmetic; undefined exactly without trials |
| RateStats.WilsonMirrors | evals/rate_stats.py:57-88 | counting failures instead of passes mirrors the interval |
| RateStats.WilsonMonotone | evals/rate_stats.py:57-88 | more passes out of the same trials move neither end down |
| RateStats.SmallerSampleContains | evals/rate_stats.py:57-88 | at the same estimate, the interval of a smaller sample contains that of a larger one |
| RateStats.MonotoneInEstimate | evals/battery_rates.py:124-143 | the same for an arbitrary estimate and a real-valued sample size |
| RateStats.MirrorSymmetry | evals/battery_rates.py:124-143 | mirror symmetry for an arbitrary estimate and a real-valued sample size |
| BatteryRates.ComputeBatteryRate | evals/battery_rates.py:146-208 | skipped results are left out, the rest grouped by case, and every entry of the record, down to rho and the interval, is what the counts of those groups make it; none when nothing was evaluated |
| BatteryRates.BatteryCountsEveryRecord | evals/battery_rates.py:146-160 | grouping keeps every evaluated record and every pass |
| BatteryRates.CountsAreOfCases | evals/battery_rates.py:146-160 | one count for each case with an evaluated row: how many such rows it has and how many of them pass |
| BatteryRates.SumsOfSquaresPartition | evals/battery_rates.py:68-90 | between and within sums of squares add up to n p (1 - p) |
| BatteryRates.IccIsCorrelation | evals/battery_rates.py:93-121 | rho is 0 without two cases or a repetition; otherwise it is positive exactly when (n - m) times the squared deviations of the cases exceed (m - 1) times those within them, and then the ANOVA estimate, multiplied out |
| BatteryRates.BuildDescribes | evals/battery_rates.py:163-193 | mean size, design effect and effective size in the counts and rho, and the interval as the rates the score test keeps at the effective size |
| BatteryRates.IccIsOne | evals/battery_rates.py:93-121 | rho is 1 exactly when cases are internally unanimous, disagree with each other, and some case repeats |
| BatteryRates.DesignEffectBounds | evals/battery_rates.py:163-193 | 0 <= rho <= 1, 1 <= deff <= k-bar, cases <= n_eff <= records; the floor at 1 never bites |
| BatteryRates.EffectiveSizeIsCases | evals/battery_rates.py:163-193 | when exactly all repetitions count as one observation per case |
| BatteryRates.CorrectionNeverNarrows | evals/battery_rates.py:163-193 | the corrected interval contains the uncorrected Wilson interval, and both contain the rate |
| RegressionGate.CheckRegression | evals/regression_gate.py:134-173 | every check runs; the findings are exactly those that fire, each once, in order |
| RegressionGate.FiresWhen | evals/regression_gate.py:134-173 | each check in its own terms: the guard and the capability rate against the baseline's own by the score test, a significant loss among the paired cases, an inconclusive rate above what is allowed; what is unmeasured fires nothing |
| RegressionGate.GateIsOneSidedScoreTest | evals/regression_gate.py:67-99 | a rate check fires exactly when the candidate is below the baseline rate and its score test rejects that rate |
| RegressionGate.SelfComparisonNeverFires | evals/regression_gate.py:134-173 | a run compared with itself never fires a rate check |
| RegressionGate.OverlapFiresExactly | evals/regression_gate.py:153-155 | intervals overlap and the check fires exactly when the candidate is below the baseline, its score test rejects the baseline's rate, and some rate is kept by both score tests |
| RegressionGate.OverlapCanFire | evals/regression_gate.py:89-99 | one failing trial against one passing trial fires although the intervals overlap |
| RegressionGate.EvasionHidesFromGate | evals/regression_gate.py:168 | a significant loss passes the paired check exactly when capability cases net lose, the other known cases net gain, and the losses still outweigh the gains significantly |
| RegressionGate.EvasionCanHide | evals/regression_gate.py:168 | two concrete runs of nine cases: the test calls the loss significant and the paired check does not fire |
| PairedStats.McNemarIsTwoSidedExact | evals/paired_stats.py:92-123 | the doubled-tail formula is the two-sided exact p-value under fair coins; it is symmetric |
| PairedStats.PValueRange | evals/paired_stats.py:92-123 | 0 < p <= 1, and p = 1 exactly when the counts differ by at most one |
| PairedStats.UnevenIsSmaller | evals/paired_stats.py:92-123 | for a fixed number of discordant pairs a more uneven split has a strictly smaller p |
| PairedStats.VerdictFollowsMajority | evals/paired_stats.py:141-166 | the fall-through `worse` is reached only with more regressions than improvements |
| PairedStats.SixDiscordantPairsNeeded | evals/paired_stats.py:141-166 | a directional verdict is reachable with n discordant pairs exactly when n >= 6 |
| PairedStats.PairedCompare | evals/paired_stats.py:169-228 | the counting loop computes the comparison of the two indexed runs; `ComparedRows.CompareRows` says what it counts |
| PairedStats.ComparisonIsSymmetricJoin | evals/paired_stats.py:192-228 | the counts partition the shared cases; swapping the runs swaps improved and regressed, keeps p and mirrors the verdict |
| PairedStats.FewChangesAreNoVerdict | evals/paired_stats.py:169-228 | fewer than six changed cases never give a direction |
| Compare.BuildCaseStats | evals/compare.py:155-189 | one stat per case, in order of first appearance, over all of its rows: passes, rate, interval and classification |
| Compare.StableCasesReachAnEnd | evals/compare.py:155-189 | a case is classified as stable exactly when its interval reaches an end of [0, 1], and at which end it is stable |
| Compare.BuildDeltaTable | evals/compare.py:277-308 | the loop and the sort give the stable sort of the inner join |
| Compare.StableSortIsTheStableSort | evals/compare.py:277-308 | the sort keeps every delta, puts regressions first, keeps the order within a kind, and is the only order that does |
| Compare.TableAgreesWithTest | evals/compare.py:277-308 | the table shows exactly the counts the paired test judged |
| Compare.CompareRuns | evals/compare.py:386-396 | the paired test, the table, and the verdict as evasion overrides it |
| ComparedRows.CompareRows | evals/compare.py:350-396 | from the rows of two runs: a case counts as improved exactly when its passing rows do not outnumber its failing ones before and do after, as regressed the other way round, a tie failing; the counts, the exact p-value, and one delta per shared case with the stats of its rows, regressions first |
| ComparedRows.ChangedAreCases | evals/paired_stats.py:138 | the cases the comparison puts in each kind are those whose rows went that way, by majority |
| Compare.ComparisonOfMoves | evals/compare.py:386-387 | the paired test's result can be read off the table's moves |
| Compare.DetectEvasion | evals/compare.py:311-347 | what the four counters decide |
| Compare.EvasionMatchesDocumentation | evals/compare.py:314-316 | code and documentation agree whatever changes exactly when there is no excluded or no capability case |
| OrderEffect.UndefinedIffUniform | evals/sequence_order_effect.py:70-84 | Q is undefined exactly when every scenario is all-pass or all-fail |
| OrderEffect.QRange | evals/sequence_order_effect.py:70-84 | 0 <= Q <= mixed scenarios times (k - 1); 0 exactly for equal column sums; one mixed scenario gives exactly k - 1 |
| OrderEffect.QAtMostAllScenarios | evals/sequence_order_effect.py:70-84 | Q <= n(k - 1) |
| OrderEffect.UniformRowsDropOut | evals/sequence_order_effect.py:19-22 | deleting uniform scenarios changes nothing |
| OrderEffect.RowOrderIrrelevant | evals/sequence_order_effect.py:70-84 | the order of scenarios does not matter |
| OrderEffect.ColumnOrderIrrelevant | evals/sequence_order_effect.py:70-84 | the order of repetitions does not matter to Q |
| OrderEffect.InversionInvariant | evals/sequence_order_effect.py:70-84 | inverting every outcome changes nothing |
| OrderEffect.ReversalInvariant | evals/sequence_order_effect.py:96-140 | running the repetitions backwards keeps both tests and reverses the rates |
| OrderReport.CheckReports | evals/sequence_order_effect.py:62-140 | which matrices are refused and why; Cochran's Q as the textbook states it, from three repetitions on and with some mixed scenario, its tail at k - 1 degrees of freedom; the exact test on the scenarios whose ends differ, counted; the share that passed at each repetition |
| KappaStats.KeepRateable | evals/kappa_stats.py:68-81 | the filter keeps exactly the items with two real votes, without their missing votes |
| KappaStats.FleissKappa | evals/kappa_stats.py:84-136 | the accumulating loop computes the specified statistic |
| VotePairs.KappaOfPairs | evals/kappa_stats.py:84-136 | from any votes: items with a pair of raters who voted, the mean share of their alike pairs, the chance of two of their votes being alike, and kappa between the two |
| KappaStats.UndefinedIffNoVariance | evals/kappa_stats.py:84-136 | kappa is undefined exactly without rateable items or with all votes in one category |
| KappaStats.KappaAtMostOne | evals/kappa_stats.py:84-136 | kappa <= 1, and 1 exactly when every item is unanimous |
| KappaStats.KappaLowerBound | evals/kappa_stats.py:84-136 | with m votes on every item kappa >= -1/(m - 1) |
| KappaStats.RaggedKappaIsUnbounded | evals/kappa_stats.py:87-89 | with unequal vote counts no bound holds: below every number lies the kappa of some panel |
| KappaStats.KappaInversionInvariant | evals/kappa_stats.py:84-136 | inverting every vote changes nothing |
| KappaIntervals.BootstrapKappaCi | evals/kappa_stats.py:150-179 | the loops give the two percentiles of the defined kappas of the drawn samples, or none with fewer than two clusters or under half of the samples defined |
| KappaIntervals.IntervalOfSamples | evals/kappa_stats.py:150-179 | the ends interpolate, at 2.5 and 97.5 percent, the ascending kappas of 2000 samples, each the chosen clusters end to end; there is none exactly with fewer than two clusters or a kappa in under half of the samples |
| KappaIntervals.PercentileInterpolates | evals/kappa_stats.py:139-147 | for any ascending arrangement of the values, (n - 1) pct/100 = i + w puts the percentile at (1 - w) s[i] + w s[i + 1] |
| KappaIntervals.IntervalIsWellFormed | evals/kappa_stats.py:150-179 | for every draw two bounds or none, low <= high <= 1, and no bound below a floor that every resample respects |
| KappaIntervals.PercentileOrderFree | evals/kappa_stats.py:139-147 | the percentile depends only on the values |
| KappaIntervals.PercentileMonotone | evals/kappa_stats.py:139-147 | the percentile is monotone in the percentage, also across segments |
| KappaIntervals.PercentileWithin | evals/kappa_stats.py:139-147 | the percentile stays within minimum and maximum and reaches them |
| KappaIntervals.EqualRatersGiveFloor | evals/kappa_stats.py:150-179 | with m judges on every item the whole interval is at least -1/(m - 1) |
| JudgePanel.PairwiseAgreement | evals/judge_panel.py:173-202 | the nested pair-counting loops compute the closed form in true and false votes |
| VotePairs.AgreementOfPairs | evals/judge_panel.py:173-202 | the total is the pairs of judges who both voted, the agreeing ones those who voted alike, the rate their share, and the interval the rates the score test keeps |
| JudgePanel.RateIsObservedAgreement | evals/judge_panel.py:173-202 | with equal rater counts the rate is Fleiss' observed agreement |
| JudgePanel.AgreementIntervalBracketsRate | evals/judge_panel.py:173-202 | the interval brackets the rate in [0, 1]; neither exists without comparable judges |
| JudgePanel.AgreementIgnoresPolarity | evals/panel_metrics.py:14-20 | inverting any subset of records changes neither agreeing nor total pairs |
| VotePairs.DecisionsAre | evals/panel_metrics.py:110-116 | the passes of a record are the seats that said what its polarity expects, the failures those that said the opposite; a seat without a score stays without a decision |
| PanelPolarity.PolarityMovesKappa | evals/panel_metrics.py:14-20 | observed agreement never depends on polarity; kappa on raw scores is larger than on decisions exactly when agreement is imperfect and the raw true share lies nearer one half, and equal exactly when agreement is perfect or the shares lie equally far from it |
| PanelPolarity.PoolingGoesBothWays | evals/panel_metrics.py:14-20 | a panel on which pooling raw scores inflates kappa, and one on which it deflates it |
| CohenKappa.KappaRange | evals/calibration.py:324-346 | kappa is 2(tp tn - fp fn) over its marginal products, lies in [-1, 1], and when exactly it is 1, -1 and 0 |
| CohenKappa.KappaSymmetric | evals/calibration.py:324-346 | exchanging the raters or inverting every verdict changes nothing |
| CohenKappa.ExpectedAgreementGap | evals/calibration.py:336-343 | 1 - Pe is 0 exactly when all counts are in one agreeing cell, and otherwise at least 1/n |
| CohenKappa.ToleranceIsExactIff | evals/calibration.py:342-343 | the tolerance test is exact for all tables of size n if and only if n <= 10^12 |
| CalibrationIntervals.IndicesMirror | evals/calibration.py:478-481 | the percentile indices are in range, in order and mirror images; the clamps never bite |
| CalibrationIntervals.HolmEnclosesNominal | evals/calibration.py:438-445 | for every family size the Holm indices enclose the nominal ones |
| CalibrationIntervals.TailsAt | evals/calibration.py:438-445 | the two ends leave equally many values outside: that share of them, rounded down |
| Calibration.TableCountsRows | evals/calibration.py:256-297 | the four cells of the table account for every counted row, each once |
| Calibration.TableIsSaid | evals/calibration.py:256-297 | each of the eight cells is the number of clean rows on which the scorer, or the reference labeller, and the human said one thing and the other |
| Calibration.OnlyCountedRowsMatter | evals/calibration.py:349-391 | flagged rows, and on the secondary axis rows without an opinion, do not touch a kappa |
| Calibration.FlaggedRowsMoveTheRate | evals/calibration.py:570-589 | the rate differs from the rate over the clean rows exactly when the flagged rows agree at another rate, is larger exactly when they agree more often, and exists alone without clean rows |
| CalibrationConditions.FlaggedRowHalvesAgreement | evals/calibration.py:570-589 | one flagged disagreement halves a perfect rate |
| Calibration.AgreementInUnit | evals/calibration.py:570-589 | the rate lies in [0, 1] and fails exactly without such rows |
| Calibration.AgreementIsSaid | evals/calibration.py:570-589 | the rate is the share, among the judged rows with a pre-label, of those on which the two are equal |
| Calibration.ExtractCaseClusters | evals/calibration.py:394-410 | the dict loop gives the clusters in order of first occurrence |
| Calibration.ClustersPartition | evals/calibration.py:394-410 | the clusters together hold exactly the rows |
| CalibrationDraws.ClustersAreCases | evals/calibration.py:394-410 | a cluster holds, in order, the rows whose id up to the first colon is the same; clusters stand in the order their cases are first seen |
| Calibration.RunBootstrapSamples | evals/calibration.py:413-435 | the loop computes the defined kappas of the drawn samples; kept and dropped add up to the resamples |
| Calibration.KappaInterval | evals/calibration.py:448-567 | the interval method computes the specified interval on either axis |
| CalibrationDraws.IntervalOfDraws | evals/calibration.py:413-567 | the interval is that of 2000 samples of as many clusters as there are cases, drawn with replacement; it cuts off 2.5 percent of their kappas at either end, and for a family the five percent shared equally by its members; when exactly it fails |
| CalibrationDraws.CountedRowsAre | evals/calibration.py:186-230 | the counted rows are the judged, unflagged ones, in order, and on the secondary axis those with a pre-label |
| Calibration.IntervalIsWellFormed | evals/calibration.py:448-485 | -1 <= lo <= hi <= 1, every row counted, and Holm bounds that enclose the nominal ones exactly for families |
| Calibration.OneCaseIsAPoint | evals/calibration.py:448-485 | with one case the interval is the single point kappa for every seed |
| Calibration.CalibrateScorer | evals/calibration.py:659-680 | a report's eight cells and its agreement rate are counts of what scorer, labeller and human said on the rows, each kappa is its table's and in [-1, 1], each interval is ordered in [-1, 1] with enclosing Holm bounds exactly for families; otherwise the first failure |
| ReportAxes.HeadlineReadsTheScorer | evals/calibration.py:488-526 | changing pre-labels, or anything but record, human verdict, flag and scorer verdict, changes neither headline table nor kappa nor interval |
| ReportAxes.SecondaryReadsTheLabeller | evals/calibration.py:529-567 | changing scorer verdicts, or anything but record, human verdict, flag and pre-label, changes none of the secondary ones |
| ReportAxes.KappaIsOneIff | evals/calibration.py:349-391 | a defined kappa is 1 exactly when on every clean row the scorer, or the labeller where it has an opinion, said what the human said |
| CalibrationConditions.KappaComputedIff | evals/calibration.py:349-391 | a kappa exists exactly when two rows or more are counted and the table's discord passes the tolerance; up to 10^12 rows, exactly when the rows are not all on one agreeing verdict |
| CalibrationConditions.SomeDrawComputesIff | evals/calibration.py:448-485 | some draw gives an interval exactly when the kappa exists |
| CalibrationConditions.EveryDrawComputesIff | evals/calibration.py:448-485 | every draw does exactly when, within every case, the rows are not all on one agreeing verdict |
| CalibrationConditions.SomeDrawReportsIff | evals/calibration.py:659-680 | which scorers can be reported |
| CalibrationConditions.EveryDrawReportsIff | evals/calibration.py:659-680 | which scorers are reported whatever is drawn |
| CalibrationConditions.RunSucceedsIff | evals/calibration.py:813-820 | a run can keep its promise of a report per eligible scorer exactly when each has, on both axes, two counted rows not all on one agreeing verdict; and keeps it for every draw exactly when that also holds within every case |
| CalibrationConditions.AgreeingRowsAreRefused | evals/calibration.py:342-343 | two clean rows on which all say yes are an eligible scorer no draw can report |
| CalibrationConditions.FlaggedRowsAreRefused | evals/calibration.py:817-820 | one clean and one flagged row are an eligible scorer with too few rows |
| Calibration.RunCalibration | evals/calibration.py:803-837 | every eligible scorer is reported, in order of first appearance, or the run ends with the first failure |
| CalibrationDraws.RunIsOneFamily | evals/calibration.py:803-837 | the reported scorers are those with two judged rows, flagged or not, in order of first appearance, and the intervals of both axes of all of them form one family |
| CalibrationRecords.CheckDuplicates | evals/calibration_records.py:247-252 | reading succeeds exactly on distinct keys and names the first repeated one |
| CalibrationRecords.LabelFile.Read | evals/calibration_records.py:226-252 | the reader refuses a file in which a key occurs twice |
| CalibrationRecords.LabelFile.Write | evals/calibration_records.py:198-223 | a write replaces the rows and checks nothing |
| LabelImport.ImportLabels | evals/label_import.py:73-144 | all or nothing: every row is joined with its own item and verdict, or the first offending row names the check it fails |
| LabelImport.RefusedOrJoined | evals/label_import.py:104-143 | which check refuses a row, in their order; otherwise what the labeller gave is kept, the texts are the item's with their own hashes, the scorer's verdict is the judged one, and no human field is set |
| LabelImport.ImportedRowsAreStamped | evals/label_import.py:124-143 | imported rows are unjudged and unflagged, and carry non-empty hashes of the texts beside them |
| LabelStore.LoadExistingOrRefuse | evals/label_merge.py:65-97 | when a store is read, unreadable, or refused because it holds verdicts |
| LabelStore.StoreLabels | evals/label_import.py:267-279 | the store and the report after a batch |
| LabelStore.StoredIs | evals/label_import.py:267-279 | which of merge, replacement and the three refusals a batch meets; merged rows take the batch's machine fields and keep the human ones, the pre-label follows the flag and the criteria, a verdict whose criteria moved is flagged; a refusal leaves the file and counts the verdicts it saves |
| LabelStore.VerdictsSurviveImport | evals/label_merge.py:71-97 | without a forced overwrite no verdict leaves the store |
| LabelStore.ReadableAfterStoring | evals/label_import.py:267-279 | the store can be read after a batch exactly when it could before and the batch repeats no key, is merged into rows, or is refused to save verdicts |
| LabelStore.RepeatedKeyLocksTheStore | evals/label_import.py:271-277 | an import of a repeated key leaves a file that turns away every later batch, under any flags |
| LabelLifecycle.RunReadableIff | evals/label_import.py:267-279 | a run ends with a readable store exactly when it starts with one and no step writes a repeated key afresh; an unreadable store stays as it is through every run |
| LabelMerge.Index | evals/label_merge.py:127-134 | the index is the lookup, or a repeated key is refused |
| LabelMerge.MergeLabels | evals/label_merge.py:212-266 | the dictionaries and loops compute the merge; refused exactly on a repeated key of either side |
| LabelMerge.LastBatchWins | evals/label_merge.py:172-209 | a second batch leaves the same machine and human fields with or without a batch before it, and the review flag remembers the first exactly when the criteria moved and came back, or a hash is missing and the other two differ |
| LabelMerge.MergeKeepsKeys | evals/label_merge.py:246-266 | the keys are the existing ones in order, then the unseen incoming ones in order, without repeats |
| LabelMerge.MergeConservesHumanWork | evals/label_merge.py:220-226 | human fields are kept; a flag is never cleared and set exactly on drift under a verdict; added rows are as they came |
| LabelMerge.VerdictsAreConserved | evals/label_merge.py:246-266 | the verdicts after a merge are the preserved ones, the orphans' and those the added rows brought |
| LabelMerge.MergeIsIdempotent | evals/label_merge.py:212-266 | merging the same rows again changes no row, reports no drift and adds nothing |
| LabelMerge.DriftReportVersusFlags | evals/label_merge.py:111-118 | the rows reported as flagged are the newly flagged ones, the drifting unjudged ones and those flagged before; right exactly when every drifting row is judged and unflagged |
| LabelMerge.UnjudgedDriftIsReported | evals/label_merge.py:111-118 | one drifting unjudged row is reported as flagged and is not flagged |
| Adjudicate.ReadCommand | evals/adjudicate_console.py:65-96 | the loop returns the first accepted command |
| Adjudicate.NextAnswerIsFirst | evals/adjudicate_console.py:88-96 | every line before it was rejected, and it is what its line says |
| Adjudicate.CollectPending | evals/adjudicate.py:38-59 | the loop collects the unjudged and the flagged rows, in order |
| Adjudicate.PendingAreShown | evals/adjudicate.py:38-59 | the rows shown are those without a verdict or with a flag, in order, a judged one with its verdict as the prior one |
| Adjudicate.AcceptedCommandsApply | evals/adjudicate.py:62-113 | a verdict fails exactly when it refers to a missing pre-label; accepted commands never do; the shown prior verdict leaves no trace |
| Adjudicate.LineSays | evals/adjudicate_console.py:20-96 | a prompt accepts exactly the lines, short or long, that skip or give its row a verdict, and which verdict that is |
| Adjudicate.ReplaceRow | evals/adjudicate.py:126-147 | the row with the key is replaced, or a key that matches several rows is refused |
| Adjudicate.RunAdjudication | evals/adjudicate.py:155-198 | on distinct keys the loop never fails, and the file then holds, for every row shown, the verdict its own line gives it on its pre-label, the time of its own prompt, no flag and no prior verdict, and everything else as it was; rows skipped or not reached stay as they were |
| Adjudicate.SessionShrinksPending | evals/adjudicate.py:155-198 | keys stay, only answered rows change, pending afterwards is the old list without the answered rows, and the count is the difference |
| Adjudicate.ResumingIsUninterrupted | evals/adjudicate.py:155-198 | however often it is stopped and resumed, the work ends in the rows of one uninterrupted session, up to times |
| LabelLifecycle.TrustOverEveryRun | evals/label_merge.py:137-209 | over every run of imports, merges and sessions, a verdict that still counts was given under the criteria hash its row carries, or under none; the same for pre-labels |
| LabelLifecycle.TrustIsAboutTheText | evals/label_merge.py:137-209 | over every run on properly hashed rows, such a verdict was given on criteria whose hash is that of the row's criteria now: the same text, if the hash tells texts apart |
| LabelLifecycle.CalibratedRowsAreTrusted | evals/calibration.py:186-230 | every row calibration counts after any run is trusted in that sense |
| LabelLifecycle.OnlyAnswersClearFlags | evals/adjudicate.py:91-113 | in every step on a readable store, either the batch overwrites it with unjudged, unflagged rows, or every row stays and a verdict changes and a flag goes only by a non-skip answer |
| LabelLifecycle.NoVerdictIsLost | evals/label_merge.py:71-97 | over every run from a readable store without a forced overwrite, every verdict found or given is held, as last given, in a readable store |
| LabelLifecycle.BatchHoldsVerdictsIff | evals/label_merge.py:71-97 | one batch loses a verdict exactly when it overwrites by force what it could have merged into |
| LabelLifecycle.RefreshKeepsTrustIffHashed | evals/label_merge.py:163-169 | one refresh keeps the trust of a hashed row exactly when the incoming hash is not empty |
| LabelLifecycle.EmptyHashMovesVerdict | evals/label_merge.py:163-169 | two merges, the first without a hash, move a counted verdict to other criteria unreported |
| LabelSurvival.SimulateSurvival | evals/label_survival.py:81-147 | the dictionaries and loops compute the prediction, a repeated key keeping its first place and its last row |
| SurvivalReport.ReportSorts | evals/label_survival.py:81-147 | the last rows of each key are sorted into those without an item, those whose item has other criteria as far as the hashes tell, and the rest, and the items without a row are listed, all in order |
| LabelSurvival.PredictionMatchesMerge | evals/label_survival.py:81-147 | drifts and orphans are those the merge reports, in its order; the new keys are the added ones; frozen exactly when the merge reports neither |
| LabelSurvival.PartialBatch | evals/label_survival.py:81-147 | against a batch for part of the transcript the merge reports the predicted drifts it labels, the predicted orphans are the merge's without an item, and when exactly the lists are equal and the merge is quiet |
| LabelSurvival.ImportCoversTranscript | evals/label_import.py:106-143 | labels of the whole transcript under composite ids are imported as a batch the prediction is about |
| LabelSampling.Stratify | evals/label_sampling.py:49-72 | grouping and sorting give the sorted strata |
| LabelSampling.StrataSmallestFirst | evals/label_sampling.py:49-72 | the strata are the distinct (scorer, verdict) pairs, strictly ordered by size, scorer and verdict |
| LabelSampling.StrataAre | evals/label_sampling.py:49-72 | each stratum has the keys of its rows in order, every row has one, and they stand by size, then scorer alphabetically, then false before true |
| LabelSampling.InputOrderIrrelevant | evals/label_sampling.py:52-54 | the strata, their order and their contents do not depend on input order |
| LabelSampling.Shuffle | evals/label_sampling.py:95-98 | the in-place swaps leave the specified arrangement for any draws |
| LabelSampling.ShufflePermutes | evals/label_sampling.py:95-98 | which is a permutation |
| LabelSampling.ShuffleReaches | evals/label_sampling.py:95-98 | every order of the keys, and no other, is reached by some draws |
| LabelSampling.Interleave | evals/label_sampling.py:100-107 | the while loop ends and gives the round-robin order |
| LabelSampling.OrderForLabelling | evals/label_sampling.py:75-107 | the whole computation gives the specified order |
| LabelSampling.OrderIsAPermutation | evals/label_sampling.py:87-90 | for every draw the order lists exactly the keys, as often as they occur |
| LabelSampling.ScheduleOfOrder | evals/label_sampling.py:100-107 | the schedule says where each key of the order is taken from |
| LabelSampling.EveryPrefixIsFair | evals/label_sampling.py:78-82 | in every prefix two strata not exhausted differ by at most one, the smaller never behind |
| LabelSampling.StrataKeepTheirOrder | evals/label_sampling.py:100-107 | each stratum's keys come in its own order, none skipped |
| LabelSampling.EveryStratumTouchedFirst | evals/label_sampling.py:78-82 | the first keys are one of each stratum, smallest stratum first |
| PairedArms.ProfilesRoundTrip | evals/paired_arms.py:78-99 | any list of names joined by commas is read back as given exactly when it has two names or more, none repeated, empty, with a comma, or with white space at an end |
| PairedArms.ProfilesAreRead | evals/paired_arms.py:78-99 | any flag is read as the parts between its commas, stripped, without the empty ones: fewer than two are refused, then a repeated one |
| PairedArms.CollectRecords | evals/generation_collection.py:144-177 | the solo run, under a profile or the engine's default, makes exactly its calls and returns their records |
| PairedArms.CollectPairedRecords | evals/paired_arms.py:114-151 | the paired run makes the interleaved calls, and each arm holds what its own calls return |
| PairedArms.ArmIsTheSoloRun | evals/paired_arms.py:114-151 | with distinct profiles each arm is the solo run of its profile, in order |
| PairedArms.CallAt | evals/paired_arms.py:143-151 | k times cases times profiles calls, each at its mixed-radix place, so those of one case and repetition are contiguous |
| SnapshotCodec.DecodeEncode | demo_game/snapshot.py:60-96 | decoding undoes encoding but for temporals, which become their ISO strings, and other objects, which become text |
| SnapshotCodec.StoredIsPlain | demo_game/snapshot.py:60-80 | what is stored holds only what JSON can, and a value is stored unchanged exactly when it holds nothing else |
| SnapshotCodec.ErasedIsFixed | demo_game/snapshot.py:60-96 | what is decoded is a fixed point of another round |
| SnapshotCodec.RoundTripIff | demo_game/snapshot.py:60-96 | decoding undoes encoding of a value exactly when every dict reached in it is untagged or mirrors the encoding of its own value |
| SnapshotCodec.PropertyValuesComeBack | demo_game/snapshot.py:60-96 | every value a graph property can hold comes back up to temporals and other objects, and as it was exactly when it holds none of these |
| SnapshotCodec.TaggedDictsDiffer | demo_game/snapshot.py:88-96 | of two tagged dicts one is lost and one comes back |
| SnapshotRestore.RestoreNodes | demo_game/snapshot.py:222-229 | the loop creates one tagged node per entry, or fails on an undecodable one |
| SnapshotRestore.RestoreRels | demo_game/snapshot.py:232-242 | the loop connects the nodes that match by sentinel |
| SnapshotRestore.RestoreAll | demo_game/snapshot.py:214-219 | wipe, nodes, relationships and stripping give the rebuilt graph, with no relationship hanging |
| SnapshotRestore.RestoreRebuilds | demo_game/snapshot.py:214-242 | over any graph: one node per entry with its labels and decoded properties, no sentinel left, one relationship per entry with both endpoints |
| SnapshotRestore.RetryGivesTheSameNodes | demo_game/snapshot.py:162-163 | a retry gives the same nodes |
| SnapshotRestore.RetryGivesTheSameRels | demo_game/snapshot.py:162-163 | and the same relationships, up to where the ids start |
| SnapshotRestore.RestoreOfSnapshot | demo_game/snapshot.py:111-141 | restoring a snapshot of a returnable graph gives a graph isomorphic to it, up to temporals and other objects |
| SnapshotRestore.ComesBackIff | demo_game/snapshot.py:111-242 | the graphs whose nodes and relationships all come back are exactly those in which every node has a label and no property named like the sentinel, and every property is non-null and one the codec returns |
| SnapshotRestore.RestoredWorldIsSettled | demo_game/snapshot.py:111-242 | a restored graph can be exported and restored again, and no property of it changes any more |
| Grouping.GroupBy | evals/battery_rates.py:146-160 | filling a dict of lists gives, for each key in order of first appearance, its values in order |
| Grouping.KeysAsSeen | evals/battery_rates.py:146-160 | the keys stand in the order they are first seen in |
| Grouping.GroupingConserves | evals/calibration.py:394-410 | the groups together hold exactly the values |

## Left out

- RateStats.BoundsInvertScoreTest: z is nonnegative here and in the other members about the interval; a negative z exchanges the two ends in the code and has no meaning as a quantile.
- BatteryRates.ComputeBatteryRate: the confidence level is the module's constant, as in the code; the printed summary is not modelled.
- OrderEffect.QRange: the p-value of Q is an opaque function of the statistic and the degrees of freedom; the truncated series of `evals/chi_square.py` is not part of this model.
- CalibrationConditions.RunSucceedsIff: like the lemmas it is built from, for counted rows times cases up to 10^12, where the tolerance is exact on every sample; `KappaComputedIff` states the condition above that size too.
- KappaIntervals.BootstrapKappaCi: says where the bounds lie for any draws, not how well a given seed covers.
- LabelSurvival.SimulateSurvival: takes items with distinct ids, as the index of the transcript holds them.
- LabelSurvival.PartialBatch: takes labels with distinct keys, as a merge refuses any others.
- LabelImport.ImportLabels: a required field of the wrong type counts as absent, and either is an invalid row; lenient coercions of the validation library, and how an item id is split and composed, are a parameter.
- Adjudicate.RunAdjudication: lines are taken as already stripped and lower-cased; prompts are not modelled, and the time of a verdict is a function of the prompt's position.
- LabelSampling.Shuffle: the swap scheme of the library's shuffle is written out, with arbitrary draws in place of its generator.
- PairedArms.CollectRecords: the collectors depend only on case, repetition and profile.
- PairedArms.CollectPairedRecords: writing each arm's directory is not modelled.
- SnapshotRestore.RestoreAll: runs inside a transaction of the database, which is not modelled; nothing is said of the graph when an entry cannot be decoded.
- SnapshotRestore.RestoreRebuilds: two entries with one element id would each be matched by a relationship; the exporter never writes such a payload.
- SnapshotRestore.RestoreOfSnapshot: the labels of a node are a list as exported; that the database keeps them as a set is not modelled.
- Floating-point rounding, the quality of the random generator and collision resistance of hashes.
- All network, database-driver, file-system and console code, including the backup copy and the atomic rename of a write.
- Precision, recall and the single-rater test of calibration, judge prompting, panel consensus, the per-criterion breakdown and the repeat-flip decomposition: each is settled by reading one short loop.
- `coverage_report`, the trust policy, baseline selection, record identity and the report writers: easy members beside the ones above.
