/** McNemar's exact test and the paired comparison of `evals/paired_stats.py`. */
module PairedStats {
  import opened Numbers
  import RateStats

  const SIGNIFICANCE_THRESHOLD: real := 0.05

  /** `math.comb`, by Pascal's rule. */
  function Choose(n: nat, k: nat): nat {
    if k == 0 then 1 else if n == 0 then 0 else Choose(n - 1, k - 1) + Choose(n - 1, k)
  }

  function Pow2(n: nat): nat { if n == 0 then 1 else 2 * Pow2(n - 1) }

  /** The sum of the first m entries of row n of Pascal's triangle. */
  function Below(n: nat, m: nat): nat {
    if m == 0 then 0 else Below(n, m - 1) + Choose(n, m - 1)
  }

  function MinNat(a: nat, b: nat): nat { if a <= b then a else b }

  function Gap(b: nat, c: nat): nat { if b >= c then b - c else c - b }

  datatype McNemar = P(value: real) | NoDiscordantPairs

  function McNemarExact(b: nat, c: nat): McNemar {
    if b + c == 0 then NoDiscordantPairs
    else
      Pow2Positive(b + c);
      P(Min(2.0 * Below(b + c, MinNat(b, c) + 1) as real / Pow2(b + c) as real, 1.0))
  }

  /** The weight of the outcomes k < m of n fair coins that are at least `gap` away from an even
      split: the textbook meaning of a two-sided exact p-value. */
  function ExtremeWeight(n: nat, gap: nat, m: nat): nat {
    if m == 0 then 0
    else ExtremeWeight(n, gap, m - 1)
         + if 2 * (m - 1) - n >= gap || n - 2 * (m - 1) >= gap then Choose(n, m - 1) else 0
  }

  /** The weight of the splits of b + c at least as uneven as b against c. */
  function ExtremeCount(b: nat, c: nat): nat { ExtremeWeight(b + c, Gap(b, c), b + c + 1) }

  // ----- Pascal's triangle -----

  lemma {:induction false} Pow2Positive(n: nat)
    ensures Pow2(n) > 0
  {
    if n > 0 { Pow2Positive(n - 1); }
  }

  lemma {:induction false} ChooseOutside(n: nat, k: nat)
    ensures k > n ==> Choose(n, k) == 0
    ensures k == n ==> Choose(n, k) == 1
    ensures k <= n ==> Choose(n, k) >= 1
  {
    if k > 0 && n > 0 {
      ChooseOutside(n - 1, k - 1);
      ChooseOutside(n - 1, k);
    }
  }

  lemma {:induction false} ChooseSymmetric(n: nat, k: nat)
    requires k <= n
    ensures Choose(n, k) == Choose(n, n - k)
  {
    if k == 0 || k == n {
      ChooseOutside(n, n);
    } else {
      ChooseSymmetric(n - 1, k - 1);
      ChooseSymmetric(n - 1, k);
    }
  }

  lemma {:induction false} BelowPascal(n: nat, m: nat)
    ensures Below(n + 1, m + 1) == Below(n, m + 1) + Below(n, m)
  {
    if m > 0 { BelowPascal(n, m - 1); }
  }

  /** Row n sums to 2^n. */
  lemma {:induction false} RowSum(n: nat)
    ensures Below(n, n + 1) == Pow2(n)
  {
    if n > 0 {
      BelowPascal(n - 1, n);
      ChooseOutside(n - 1, n);
      RowSum(n - 1);
    }
  }

  lemma {:induction false} BelowMonotone(n: nat, m: nat, m': nat)
    requires m <= m'
    ensures Below(n, m) <= Below(n, m')
    ensures m < m' && m <= n ==> Below(n, m) < Below(n, m')
    decreases m'
  {
    if m < m' {
      BelowMonotone(n, m, m' - 1);
      ChooseOutside(n, m' - 1);
    }
  }

  /** The lower tail of m entries weighs as much as the upper tail of m entries. */
  lemma {:induction false} TailsMirror(n: nat, m: nat)
    requires m <= n + 1
    ensures Below(n, m) == Pow2(n) - Below(n, n + 1 - m)
  {
    if m == 0 {
      RowSum(n);
    } else {
      TailsMirror(n, m - 1);
      ChooseSymmetric(n, m - 1);
    }
  }

  // ----- the p-value -----

  /** Up to m, the extreme outcomes are the lower tail, then nothing, then the upper tail. */
  lemma {:induction false} ExtremeSplits(n: nat, lo: nat, m: nat)
    requires 2 * lo < n && m <= n + 1
    ensures ExtremeWeight(n, n - 2 * lo, m)
            == if m <= lo + 1 then Below(n, m)
               else if m <= n - lo then Below(n, lo + 1)
               else Below(n, lo + 1) + Below(n, m) - Below(n, n - lo)
  {
    if m > 0 { ExtremeSplits(n, lo, m - 1); }
  }

  lemma {:induction false} ExtremeAll(n: nat, m: nat)
    ensures ExtremeWeight(n, 0, m) == Below(n, m)
  {
    if m > 0 { ExtremeAll(n, m - 1); }
  }

  /** An uneven split: twice the lower tail, and less than everything unless the gap is 1. */
  lemma UnevenTails(n: nat, lo: nat)
    requires 2 * lo < n
    ensures ExtremeWeight(n, n - 2 * lo, n + 1) == 2 * Below(n, lo + 1) <= Pow2(n)
    ensures 2 * Below(n, lo + 1) == Pow2(n) <==> n - 2 * lo == 1
  {
    TwoTails(n, lo);
    BelowMonotone(n, lo + 1, n - lo);
  }

  /** Both tails have the weight of the lower one, and what lies between them is the rest. */
  lemma TwoTails(n: nat, lo: nat)
    requires 2 * lo < n
    ensures ExtremeWeight(n, n - 2 * lo, n + 1) == 2 * Below(n, lo + 1)
    ensures Below(n, lo + 1) + Below(n, n - lo) == Pow2(n)
  {
    TailsMirror(n, lo + 1);
    RowSum(n);
    ExtremeSplits(n, lo, n + 1);
  }

  /** An even split: everything is at least as uneven, and the doubled tail exceeds it. */
  lemma EvenTails(lo: nat)
    ensures ExtremeWeight(2 * lo, 0, 2 * lo + 1) == Pow2(2 * lo) < 2 * Below(2 * lo, lo + 1)
  {
    TailsMirror(2 * lo, lo + 1);
    RowSum(2 * lo);
    ExtremeAll(2 * lo, 2 * lo + 1);
    BelowMonotone(2 * lo, lo, lo + 1);
  }

  lemma ExtremeIsTwoTails(b: nat, c: nat)
    ensures ExtremeCount(b, c) == MinNat(2 * Below(b + c, MinNat(b, c) + 1), Pow2(b + c))
    ensures ExtremeCount(b, c) == Pow2(b + c) <==> Gap(b, c) <= 1
  {
    if b == c { EvenTails(b); } else { UnevenTails(b + c, MinNat(b, c)); }
  }

  lemma CappedRatio(t: nat, w: nat)
    requires w > 0
    ensures Min(2.0 * t as real / w as real, 1.0) == RateStats.Share(MinNat(2 * t, w), w)
  {
    DivLe((2 * t) as real, 1.0, w as real);
    DivLe(w as real, 1.0, w as real);
  }

  /** MAIN. The doubled-tail formula is the two-sided exact p-value: the probability, under fair
      coins, of a split at least as uneven as the one seen. It is symmetric. */
  lemma McNemarIsTwoSidedExact(b: nat, c: nat)
    ensures McNemarExact(b, c).NoDiscordantPairs? <==> b == 0 && c == 0
    ensures b + c > 0 ==>
              && Pow2(b + c) > 0
              && McNemarExact(b, c) == P(RateStats.Share(ExtremeCount(b, c), Pow2(b + c)))
              && McNemarExact(c, b) == McNemarExact(b, c)
  {
    if b + c > 0 {
      Pow2Positive(b + c);
      ExtremeIsTwoTails(b, c);
      CappedRatio(Below(b + c, MinNat(b, c) + 1), Pow2(b + c));
    }
  }

  lemma {:induction false} ExtremePositive(b: nat, c: nat)
    requires b + c > 0
    ensures 1 <= ExtremeCount(b, c) <= Pow2(b + c)
    ensures b + c >= 2 ==> ExtremeCount(b, c) >= 2
    ensures b + c >= 2 && MinNat(b, c) == 0 ==> ExtremeCount(b, c) == 2
  {
    ExtremeIsTwoTails(b, c);
    BelowMonotone(b + c, 1, MinNat(b, c) + 1);
    assert Below(b + c, 1) == Choose(b + c, 0) == 1;
    Pow2Positive(b + c - 1);
    if b + c >= 2 { Pow2Positive(b + c - 2); }
  }

  /** MAIN. 0 < p <= 1, and p is 1 exactly when the two counts differ by at most one. */
  lemma PValueRange(b: nat, c: nat)
    requires b + c > 0
    ensures 0.0 < McNemarExact(b, c).value <= 1.0
    ensures McNemarExact(b, c).value == 1.0 <==> Gap(b, c) <= 1
  {
    McNemarIsTwoSidedExact(b, c);
    ExtremePositive(b, c);
    ExtremeIsTwoTails(b, c);
    RateStats.ShareInUnit(ExtremeCount(b, c), Pow2(b + c));
  }

  lemma {:induction false} FurtherIsRarer(b: nat, c: nat, b': nat, c': nat)
    requires b + c == b' + c' > 0 && Gap(b, c) < Gap(b', c')
    ensures ExtremeCount(b', c') < ExtremeCount(b, c)
  {
    ExtremeIsTwoTails(b, c);
    ExtremeIsTwoTails(b', c');
    BelowMonotone(b + c, MinNat(b', c') + 1, MinNat(b, c) + 1);
  }

  /** MAIN. For a fixed number of discordant pairs, a more uneven split has a strictly smaller p. */
  lemma UnevenIsSmaller(b: nat, c: nat, b': nat, c': nat)
    requires b + c == b' + c' > 0 && Gap(b, c) < Gap(b', c')
    ensures McNemarExact(b', c').value < McNemarExact(b, c).value
  {
    McNemarIsTwoSidedExact(b, c);
    McNemarIsTwoSidedExact(b', c');
    FurtherIsRarer(b, c, b', c');
    ShareStrict(ExtremeCount(b', c'), ExtremeCount(b, c), Pow2(b + c));
  }

  lemma ShareStrict(s: nat, s': nat, n: nat)
    requires s < s' && 0 < n
    ensures RateStats.Share(s, n) < RateStats.Share(s', n)
  {
    DivLe(s' as real, 0.0, n as real);
    DivLe(s as real, RateStats.Share(s', n), n as real);
    RateStats.ShareMonotone(s, s', n);
  }

  // ----- the verdict -----

  datatype Verdict = Better | Worse | NoDetectableChange | RegressionEvasion

  function VerdictOf(p: real, improved: nat, regressed: nat): Verdict {
    if p >= SIGNIFICANCE_THRESHOLD then NoDetectableChange
    else if improved > regressed then Better
    else Worse
  }

  lemma {:induction false} Pow2Monotone(m: nat, n: nat)
    requires m <= n
    ensures Pow2(m) <= Pow2(n)
  {
    if m < n { Pow2Monotone(m, n - 1); }
  }

  lemma Pow2Values()
    ensures Pow2(5) == 32 && Pow2(6) == 64
  {
    assert Pow2(2) == 4;
    assert Pow2(4) == 16;
  }

  /** MAIN. `Worse`, the fall-through branch, is reached only with more regressions than
      improvements, `Better` only with more improvements. */
  lemma VerdictFollowsMajority(improved: nat, regressed: nat)
    requires improved + regressed > 0
    ensures var v := VerdictOf(McNemarExact(regressed, improved).value, improved, regressed);
            && (v == Worse <==>
                 McNemarExact(regressed, improved).value < SIGNIFICANCE_THRESHOLD && regressed > improved)
            && (v == Better <==>
                 McNemarExact(regressed, improved).value < SIGNIFICANCE_THRESHOLD && improved > regressed)
  {
    PValueRange(regressed, improved);
  }

  /** MAIN. n discordant pairs can reach a directional verdict at all exactly when n >= 6. */
  lemma SixDiscordantPairsNeeded(n: nat)
    requires n > 0
    ensures (exists b: nat, c: nat :: b + c == n && McNemarExact(b, c).value < SIGNIFICANCE_THRESHOLD) <==> n >= 6
  {
    Pow2Values();
    if n >= 6 {
      Pow2Monotone(6, n);
      BelowThreshold(n, 0);
      assert n + 0 == n && McNemarExact(n, 0).value < SIGNIFICANCE_THRESHOLD;
    } else {
      Pow2Monotone(n, 5);
      forall b: nat, c: nat | b + c == n
        ensures McNemarExact(b, c).value >= SIGNIFICANCE_THRESHOLD
      {
        AboveThreshold(b, c);
      }
    }
  }

  lemma BelowThreshold(b: nat, c: nat)
    requires b + c >= 2 && MinNat(b, c) == 0 && Pow2(b + c) >= 64
    ensures McNemarExact(b, c).value < SIGNIFICANCE_THRESHOLD
  {
    McNemarIsTwoSidedExact(b, c);
    ExtremePositive(b, c);
    DivLe(2.0, SIGNIFICANCE_THRESHOLD, Pow2(b + c) as real);
  }

  lemma AboveThreshold(b: nat, c: nat)
    requires b + c > 0 && Pow2(b + c) <= 32
    ensures McNemarExact(b, c).value >= SIGNIFICANCE_THRESHOLD
  {
    McNemarIsTwoSidedExact(b, c);
    ExtremePositive(b, c);
    if b + c == 1 { assert Pow2(1) == 2 * Pow2(0); }
    ShareAboveThreshold(ExtremeCount(b, c), Pow2(b + c));
  }

  lemma ShareAboveThreshold(extreme: nat, all: nat)
    requires 0 < all <= 20 * extreme
    ensures RateStats.Share(extreme, all) >= SIGNIFICANCE_THRESHOLD
  {
    DivLe(extreme as real, SIGNIFICANCE_THRESHOLD, all as real);
  }

  // ----- the paired comparison -----

  datatype Classification = StablePass | StableFail | Flaky

  datatype CaseStat = CaseStat(
    caseId: string,
    k: nat,
    passes: nat,
    passRate: real,
    ci: RateStats.Interval,
    classification: Classification)

  datatype Change = Regressed | Improved | Unchanged

  /** Majority vote over the repetitions. */
  predicate BinaryPass(s: CaseStat) { s.passes * 2 > s.k }

  function ChangeOf(before: CaseStat, after: CaseStat): Change {
    if !BinaryPass(before) && BinaryPass(after) then Improved
    else if BinaryPass(before) && !BinaryPass(after) then Regressed
    else Unchanged
  }

  /** `same` counts the shared cases that neither improved nor regressed. */
  datatype PairedResult = PairedResult(improved: nat, regressed: nat, same: nat, pValue: real, verdict: Verdict)

  /** The shared cases that changed in the given way. */
  function Changed(before: map<string, CaseStat>, after: map<string, CaseStat>, c: Change): set<string> {
    set id | id in before.Keys && id in after && ChangeOf(before[id], after[id]) == c
  }

  function Judge(improved: nat, regressed: nat, same: nat): PairedResult {
    if improved + regressed == 0 then PairedResult(improved, regressed, same, 1.0, NoDetectableChange)
    else
      var p := McNemarExact(regressed, improved).value;
      PairedResult(improved, regressed, same, p, VerdictOf(p, improved, regressed))
  }

  /** More losses than gains, by a significant margin. */
  predicate SignificantLoss(improved: nat, regressed: nat) {
    regressed > improved && McNemarExact(regressed, improved).value < SIGNIFICANCE_THRESHOLD
  }

  lemma WorseIsSignificantLoss(improved: nat, regressed: nat, same: nat)
    ensures Judge(improved, regressed, same).verdict == Worse <==> SignificantLoss(improved, regressed)
  {
    if improved + regressed > 0 {
      VerdictFollowsMajority(improved, regressed);
    }
  }

  function Compare(before: map<string, CaseStat>, after: map<string, CaseStat>): PairedResult {
    Judge(|Changed(before, after, Improved)|, |Changed(before, after, Regressed)|, |Changed(before, after, Unchanged)|)
  }

  /** `{s.case_id: s for s in stats}`: the last stat of a repeated id wins. */
  function ById(stats: seq<CaseStat>): map<string, CaseStat> {
    if stats == [] then map[] else ById(stats[..|stats| - 1])[stats[|stats| - 1].caseId := stats[|stats| - 1]]
  }

  method IndexById(stats: seq<CaseStat>) returns (m: map<string, CaseStat>)
    ensures m == ById(stats)
  {
    m := map[];
    for n := 0 to |stats|
      invariant m == ById(stats[..n])
    {
      assert stats[..n + 1][..n] == stats[..n];
      m := m[stats[n].caseId := stats[n]];
    }
    assert stats[..|stats|] == stats;
  }

  /** The loop over the reference run's cases, bumping three counters. */
  method PairedCompare(before: seq<CaseStat>, after: seq<CaseStat>) returns (r: PairedResult)
    ensures r == Compare(ById(before), ById(after))
  {
    var b := IndexById(before);
    var a := IndexById(after);
    var improved, regressed, same := 0, 0, 0;
    var todo := b.Keys;
    AllDone(b, a);
    while todo != {}
      invariant todo <= b.Keys
      invariant improved == Done(b, a, Improved, todo) && regressed == Done(b, a, Regressed, todo)
      invariant same == Done(b, a, Unchanged, todo)
    {
      var id :| id in todo;
      OneMoreDone(b, a, Improved, todo, id);
      OneMoreDone(b, a, Regressed, todo, id);
      OneMoreDone(b, a, Unchanged, todo, id);
      todo := todo - {id};
      if id in a {
        var wasPass, isPass := BinaryPass(b[id]), BinaryPass(a[id]);
        if !wasPass && isPass {
          improved := improved + 1;
        } else if wasPass && !isPass {
          regressed := regressed + 1;
        } else {
          same := same + 1;
        }
      }
    }
    AllDone(b, a);
    if improved + regressed == 0 {
      r := PairedResult(improved, regressed, same, 1.0, NoDetectableChange);
    } else {
      var p := McNemarExact(regressed, improved).value;
      r := PairedResult(improved, regressed, same, p, VerdictOf(p, improved, regressed));
    }
  }

  /** How many cases of the kind the loop has passed. */
  ghost function Done(b: map<string, CaseStat>, a: map<string, CaseStat>, c: Change, todo: set<string>): nat {
    |Changed(b, a, c) - todo|
  }

  lemma OneMoreDone(b: map<string, CaseStat>, a: map<string, CaseStat>, c: Change, todo: set<string>, id: string)
    requires id in todo && id in b
    ensures Done(b, a, c, todo - {id}) == Done(b, a, c, todo) + if id in a && ChangeOf(b[id], a[id]) == c then 1 else 0
  {
    var s := Changed(b, a, c);
    if id in s {
      assert s - (todo - {id}) == (s - todo) + {id};
    } else {
      assert s - (todo - {id}) == s - todo;
    }
  }

  lemma AllDone(b: map<string, CaseStat>, a: map<string, CaseStat>)
    ensures forall c :: Done(b, a, c, {}) == |Changed(b, a, c)|
    ensures forall c :: Done(b, a, c, b.Keys) == 0
  {
    forall c
      ensures Done(b, a, c, {}) == |Changed(b, a, c)| && Done(b, a, c, b.Keys) == 0
    {
      assert Changed(b, a, c) - {} == Changed(b, a, c);
      assert Changed(b, a, c) - b.Keys == {};
    }
  }

  function Mirrored(v: Verdict): Verdict {
    match v case Better => Worse case Worse => Better case _ => v
  }

  /** MAIN. The three counts partition the shared cases, and swapping the runs swaps improved
      with regressed, keeps p and mirrors the verdict. */
  lemma ComparisonIsSymmetricJoin(before: map<string, CaseStat>, after: map<string, CaseStat>)
    ensures var r, s := Compare(before, after), Compare(after, before);
            && r.improved + r.regressed + r.same == |before.Keys * after.Keys|
            && s == PairedResult(r.regressed, r.improved, r.same, r.pValue, Mirrored(r.verdict))
            && 0.0 < r.pValue <= 1.0
  {
    ChangedSwaps(before, after);
    ChangedPartition(before, after);
    JudgeMirrors(|Changed(before, after, Improved)|, |Changed(before, after, Regressed)|,
      |Changed(before, after, Unchanged)|);
  }

  lemma ChangedSwaps(before: map<string, CaseStat>, after: map<string, CaseStat>)
    ensures Changed(after, before, Improved) == Changed(before, after, Regressed)
    ensures Changed(after, before, Regressed) == Changed(before, after, Improved)
    ensures Changed(after, before, Unchanged) == Changed(before, after, Unchanged)
  {}

  lemma ChangedPartition(before: map<string, CaseStat>, after: map<string, CaseStat>)
    ensures |Changed(before, after, Improved)| + |Changed(before, after, Regressed)|
            + |Changed(before, after, Unchanged)|
            == |before.Keys * after.Keys|
  {
    var i, g, u := Changed(before, after, Improved), Changed(before, after, Regressed),
      Changed(before, after, Unchanged);
    assert before.Keys * after.Keys == i + g + u;
    assert i !! g && (i + g) !! u;
  }

  lemma JudgeMirrors(i: nat, g: nat, u: nat)
    ensures var r := Judge(i, g, u);
            && Judge(g, i, u) == PairedResult(g, i, u, r.pValue, Mirrored(r.verdict))
            && 0.0 < r.pValue <= 1.0
  {
    if g + i > 0 {
      McNemarIsTwoSidedExact(g, i);
      PValueRange(g, i);
    }
  }

  /** MAIN. No comparison with fewer than six changed cases is ever directional. */
  lemma FewChangesAreNoVerdict(before: map<string, CaseStat>, after: map<string, CaseStat>)
    ensures var r := Compare(before, after);
            r.improved + r.regressed < 6 ==> r.verdict == NoDetectableChange
  {
    var r := Compare(before, after);
    if r.improved + r.regressed > 0 {
      SixDiscordantPairsNeeded(r.improved + r.regressed);
    }
  }
}
