/** Percentile bounds over a sorted bootstrap distribution, after `_bootstrap_percentile_ci` and
    `_holm_percentile_bounds` of `evals/calibration.py`. */
module CalibrationIntervals {
  import opened Numbers
  import opened Sorting

  const CI_NOMINAL_ALPHA: real := 0.05
  const CI_LO_PERCENTILE: real := 0.025
  const CI_HI_PERCENTILE: real := 0.975

  function Ceiling(x: real): int { -((-x).Floor) }

  function MaxInt(a: int, b: int): int { if a >= b then a else b }

  function MinInt(a: int, b: int): int { if a <= b then a else b }

  function LoIndex(total: nat, lo: real): int { (total as real * lo).Floor }

  function RawHiIndex(total: nat, hi: real): int { Ceiling(total as real * hi) - 1 }

  /** The upper index, clamped into the list and not below the lower one. */
  function HiIndex(total: nat, lo: real, hi: real): int {
    MaxInt(MinInt(RawHiIndex(total, hi), total - 1), LoIndex(total, lo))
  }

  /** Half the level left to each side when a family of intervals shares it. */
  function HolmTail(familySize: nat): real
    requires familySize > 0
  {
    CI_NOMINAL_ALPHA / familySize as real / 2.0
  }

  /** The two ends leave equally many of the ascending values outside: that share of them, rounded down. */
  ghost predicate AtTails(s: seq<real>, tail: real, lo: real, hi: real) {
    exists i: nat :: i < |s| && i as real <= |s| as real * tail < (i + 1) as real
                     && lo == s[i] && hi == s[|s| - 1 - i]
  }

  lemma TailsAt(s: seq<real>, tail: real)
    requires s != [] && 0.0 <= tail < 0.5
    ensures 0 <= LoIndex(|s|, tail) <= HiIndex(|s|, tail, 1.0 - tail) < |s|
    ensures AtTails(s, tail, s[LoIndex(|s|, tail)], s[HiIndex(|s|, tail, 1.0 - tail)])
  {
    IndicesMirror(|s|, tail, 1.0 - tail);
    FloorBelow(|s| as real * tail);
  }

  lemma FloorBelow(x: real)
    ensures x.Floor as real <= x < (x.Floor + 1) as real
  {}

  lemma FloorOfComplement(total: nat, x: real)
    ensures Ceiling(total as real - x) == total - x.Floor
  {}

  lemma BelowHalf(total: nat, lo: real)
    requires total >= 1 && 0.0 <= lo < 0.5
    ensures 0.0 <= total as real * lo && 2.0 * (total as real * lo) < total as real
  {
    MulNonNeg(total as real, lo);
    MulStrict(lo, 0.5, total as real);
  }

  /** MAIN. For symmetric tails below one half neither clamp ever bites: the two indices are mirror
      images, in range and in order. */
  lemma IndicesMirror(total: nat, lo: real, hi: real)
    requires total >= 1 && 0.0 <= lo < 0.5 && hi == 1.0 - lo
    ensures 0 <= LoIndex(total, lo) <= HiIndex(total, lo, hi) < total
    ensures HiIndex(total, lo, hi) == RawHiIndex(total, hi) == total - 1 - LoIndex(total, lo)
  {
    BelowHalf(total, lo);
    var x := total as real * lo;
    assert total as real * hi == total as real - x;
    FloorOfComplement(total, x);
  }

  lemma HolmTailIsSmaller(familySize: nat)
    requires familySize >= 1
    ensures 0.0 < HolmTail(familySize) <= CI_LO_PERCENTILE
  {
    DivLe(CI_NOMINAL_ALPHA, CI_NOMINAL_ALPHA, familySize as real);
    DivLe(CI_NOMINAL_ALPHA, 0.0, familySize as real);
  }

  lemma LoIndexMonotone(total: nat, a: real, b: real)
    requires a <= b
    ensures LoIndex(total, a) <= LoIndex(total, b)
  {
    MulMono(a, b, total as real);
    assert total as real * a == a * total as real && total as real * b == b * total as real;
  }

  /** MAIN. For every family size the Holm bounds are well formed and enclose the nominal ones. */
  lemma HolmEnclosesNominal(total: nat, familySize: nat)
    requires total >= 1 && familySize >= 1
    ensures var tail := HolmTail(familySize);
            && 0 <= LoIndex(total, tail) <= LoIndex(total, CI_LO_PERCENTILE)
            && LoIndex(total, CI_LO_PERCENTILE) <= HiIndex(total, CI_LO_PERCENTILE, CI_HI_PERCENTILE)
            && HiIndex(total, CI_LO_PERCENTILE, CI_HI_PERCENTILE) <= HiIndex(total, tail, 1.0 - tail) < total
  {
    HolmTailIsSmaller(familySize);
    IndicesMirror(total, CI_LO_PERCENTILE, CI_HI_PERCENTILE);
    IndicesMirror(total, HolmTail(familySize), 1.0 - HolmTail(familySize));
    LoIndexMonotone(total, HolmTail(familySize), CI_LO_PERCENTILE);
  }
}
