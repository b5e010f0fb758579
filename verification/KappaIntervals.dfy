/** The interpolated percentile and the clustered bootstrap of `evals/kappa_stats.py`. */
module KappaIntervals {
  import opened Grouping
  import opened KappaStats
  import opened Numbers
  import opened Options
  import opened Resampling
  import opened Sorting

  const SAMPLES: nat := 2000
  const CI_LOW_PCT: real := 2.5
  const CI_HIGH_PCT: real := 97.5

  /** Linear interpolation between the entries around `position`. */
  function Interpolate(ordered: seq<real>, position: real): real
    requires |ordered| >= 1 && 0.0 <= position <= (|ordered| - 1) as real
  {
    var low := position.Floor;
    var high := if low + 1 <= |ordered| - 1 then low + 1 else |ordered| - 1;
    ordered[low] + (ordered[high] - ordered[low]) * (position - low as real)
  }

  function Position(n: nat, pct: real): real { (n - 1) as real * pct / 100.0 }

  lemma PositionInRange(n: nat, pct: real)
    requires n >= 1 && 0.0 <= pct <= 100.0
    ensures 0.0 <= Position(n, pct) <= (n - 1) as real
  {
    MulNonNeg((n - 1) as real, pct);
    MulMono(pct, 100.0, (n - 1) as real);
  }

  function Percentile(values: seq<real>, pct: real): real
    requires values != [] && 0.0 <= pct <= 100.0
  {
    SortedSorts(values);
    PositionInRange(|values|, pct);
    var ordered := Sorted(values);
    if |ordered| == 1 then ordered[0] else Interpolate(ordered, Position(|ordered|, pct))
  }

  lemma BetweenNeighbours(a: real, b: real, w: real)
    requires a <= b && 0.0 <= w <= 1.0
    ensures a <= a + (b - a) * w <= b
  {
    MulNonNeg(b - a, w);
    MulNonNeg(b - a, 1.0 - w);
  }

  lemma InterpolateInCell(ordered: seq<real>, position: real)
    requires Ascending(ordered) && |ordered| >= 1 && 0.0 <= position <= (|ordered| - 1) as real
    ensures ordered[position.Floor] <= Interpolate(ordered, position)
    ensures position.Floor + 1 < |ordered| ==> Interpolate(ordered, position) <= ordered[position.Floor + 1]
    ensures position.Floor + 1 == |ordered| ==> Interpolate(ordered, position) == ordered[position.Floor]
  {
    var low := position.Floor;
    if low + 1 < |ordered| {
      BetweenNeighbours(ordered[low], ordered[low + 1], position - low as real);
    }
  }

  lemma SameCell(a: real, b: real, w: real, w': real)
    requires a <= b && w <= w'
    ensures a + (b - a) * w <= a + (b - a) * w'
  {
    MulMono(w, w', b - a);
  }

  /** Monotone also across the boundaries between segments. */
  lemma InterpolateMonotone(ordered: seq<real>, p: real, q: real)
    requires Ascending(ordered) && |ordered| >= 1 && 0.0 <= p <= q <= (|ordered| - 1) as real
    ensures Interpolate(ordered, p) <= Interpolate(ordered, q)
  {
    InterpolateInCell(ordered, p);
    InterpolateInCell(ordered, q);
    var low := p.Floor;
    if low == q.Floor {
      if low + 1 < |ordered| {
        SameCell(ordered[low], ordered[low + 1], p - low as real, q - low as real);
      }
    } else {
      assert low + 1 <= q.Floor;
      assert ordered[low + 1] <= ordered[q.Floor];
    }
  }

  lemma InterpolateAtIndex(ordered: seq<real>, i: nat)
    requires i < |ordered|
    ensures Interpolate(ordered, i as real) == ordered[i]
  {
    assert (i as real).Floor == i;
  }

  lemma SortedMembers(values: seq<real>, i: nat)
    requires i < |values|
    ensures |Sorted(values)| == |values| && Sorted(values)[i] in values
  {
    SortedSorts(values);
    assert Sorted(values)[i] in multiset(Sorted(values));
  }

  lemma SortedEnds(values: seq<real>)
    requires values != []
    ensures Percentile(values, 0.0) in values && Percentile(values, 100.0) in values
  {
    SortedMembers(values, 0);
    SortedMembers(values, |values| - 1);
    EndPositions(|values|);
    InterpolateAtIndex(Sorted(values), 0);
    InterpolateAtIndex(Sorted(values), |values| - 1);
  }

  lemma EndPositions(n: nat)
    requires n >= 1
    ensures Position(n, 0.0) == 0.0 && Position(n, 100.0) == (n - 1) as real
  {}

  /** MAIN. The percentile does not depend on the order of the values. */
  lemma PercentileOrderFree(values: seq<real>, other: seq<real>, pct: real)
    requires values != [] && 0.0 <= pct <= 100.0 && multiset(other) == multiset(values)
    ensures other != [] && Percentile(other, pct) == Percentile(values, pct)
  {
    assert |other| == |multiset(other)| == |multiset(values)| == |values|;
    SortedSorts(values);
    SortedSorts(other);
    AscendingUnique(Sorted(other), Sorted(values));
  }

  /** MAIN. The percentile never decreases in the percentage, also across segment boundaries. */
  lemma PercentileMonotone(values: seq<real>, pct: real, pct': real)
    requires values != [] && 0.0 <= pct <= pct' <= 100.0
    ensures Percentile(values, pct) <= Percentile(values, pct')
  {
    SortedSorts(values);
    if |values| > 1 {
      PositionInRange(|values|, pct);
      PositionInRange(|values|, pct');
      PositionMonotone(|values|, pct, pct');
      InterpolateMonotone(Sorted(values), Position(|values|, pct), Position(|values|, pct'));
    }
  }

  lemma PositionMonotone(n: nat, pct: real, pct': real)
    requires n >= 1 && pct <= pct'
    ensures Position(n, pct) <= Position(n, pct')
  {
    MulMono(pct, pct', (n - 1) as real);
    DividedBy100((n - 1) as real * pct, (n - 1) as real * pct');
  }

  lemma DividedBy100(a: real, b: real)
    requires a <= b
    ensures a / 100.0 <= b / 100.0
  {}

  /** MAIN. Every percentile lies between the least and the greatest value; 0 and 100 reach them. */
  lemma PercentileWithin(values: seq<real>, pct: real)
    requires values != [] && 0.0 <= pct <= 100.0
    ensures Percentile(values, 0.0) in values && Percentile(values, 100.0) in values
    ensures Percentile(values, 0.0) <= Percentile(values, pct) <= Percentile(values, 100.0)
  {
    SortedEnds(values);
    PercentileMonotone(values, 0.0, pct);
    PercentileMonotone(values, pct, 100.0);
  }

  // ----- what the percentile is -----

  /** The percentage stands at entry `i` plus the fraction `w` of the way to the next one. */
  ghost predicate StandsAt(n: nat, pct: real, i: nat, w: real) {
    i + 1 < n && 0.0 <= w <= 1.0 && (n - 1) as real * pct == 100.0 * (i as real + w)
  }

  /** x is the linear interpolation of the ascending entries at the percentage. */
  ghost predicate Interpolates(s: seq<real>, pct: real, x: real) {
    && (|s| == 1 ==> x == s[0])
    && forall i: nat, w: real :: StandsAt(|s|, pct, i, w) ==> x == (1.0 - w) * s[i] + w * s[i + 1]
  }

  lemma PositionIs(n: nat, pct: real, i: nat, w: real)
    requires StandsAt(n, pct, i, w)
    ensures Position(n, pct) == i as real + w
  {
    DivLe((n - 1) as real * pct, i as real + w, 100.0);
  }

  lemma InterpolateAt(s: seq<real>, i: nat, w: real)
    requires i + 1 < |s| && 0.0 <= w <= 1.0
    ensures Interpolate(s, i as real + w) == (1.0 - w) * s[i] + w * s[i + 1]
  {
    if w < 1.0 {
      assert (i as real + w).Floor == i;
      Blend(s[i], s[i + 1], w);
    } else {
      assert (i as real + w) == (i + 1) as real;
      InterpolateAtIndex(s, i + 1);
    }
  }

  lemma Blend(a: real, b: real, w: real)
    ensures a + (b - a) * w == (1.0 - w) * a + w * b
  {}

  /** MAIN. The percentile is the linear interpolation between the two sorted values around (n - 1) pct / 100. */
  lemma PercentileInterpolates(values: seq<real>, s: seq<real>, pct: real)
    requires values != [] && 0.0 <= pct <= 100.0 && Ascending(s) && multiset(s) == multiset(values)
    ensures Interpolates(s, pct, Percentile(values, pct))
  {
    SortedSorts(values);
    AscendingUnique(Sorted(values), s);
    forall i: nat, w: real | StandsAt(|s|, pct, i, w)
      ensures Percentile(values, pct) == (1.0 - w) * s[i] + w * s[i + 1]
    {
      PositionIs(|s|, pct, i, w);
      InterpolateAt(s, i, w);
    }
  }

  datatype CI = CI(low: Option<real>, high: Option<real>)

  ghost predicate DrawnFrom(clusters: seq<seq<seq<Vote>>>, items: seq<seq<Vote>>) {
    forall item :: item in items ==> exists c :: 0 <= c < |clusters| && item in clusters[c]
  }

  /** v is the kappa of some items drawn from the clusters. */
  ghost predicate Attained(clusters: seq<seq<seq<Vote>>>, v: real) {
    exists items :: DrawnFrom(clusters, items) && Fleiss(items).kappa == Some(v)
  }

  /** No kappa of items drawn from the clusters is below `floor`. */
  ghost predicate KappaFloor(clusters: seq<seq<seq<Vote>>>, floor: real) {
    forall v: real :: Attained(clusters, v) ==> floor <= v
  }

  /** Whatever the seeded generator returns: for sample `s`, position `i`. */
  type Draw = (nat, nat) -> nat

  /** The first `k` clusters drawn for sample `s`, laid end to end. */
  function Drawn(clusters: seq<seq<seq<Vote>>>, draw: Draw, s: nat, k: nat): seq<seq<Vote>>
    requires clusters != []
  {
    if k == 0 then [] else Drawn(clusters, draw, s, k - 1) + clusters[draw(s, k - 1) % |clusters|]
  }

  function SampleKappa(clusters: seq<seq<seq<Vote>>>, draw: Draw, s: nat): Option<real>
    requires clusters != []
  {
    Fleiss(Drawn(clusters, draw, s, |clusters|)).kappa
  }

  /** The kappas of the first `m` samples that have one. */
  function SampleKappas(clusters: seq<seq<seq<Vote>>>, draw: Draw, m: nat): seq<real>
    requires clusters != []
  {
    if m == 0 then []
    else
      var front := SampleKappas(clusters, draw, m - 1);
      var kappa := SampleKappa(clusters, draw, m - 1);
      if kappa.Some? then front + [kappa.value] else front
  }

  /** No interval with fewer than two clusters, or when under half the samples have a kappa. */
  function BootstrapCi(clusters: seq<seq<seq<Vote>>>, draw: Draw): CI {
    if |clusters| < 2 then CI(None, None)
    else
      var kappas := SampleKappas(clusters, draw, SAMPLES);
      if |kappas| * 2 < SAMPLES then CI(None, None)
      else CI(Some(Percentile(kappas, CI_LOW_PCT)), Some(Percentile(kappas, CI_HIGH_PCT)))
  }

  // ----- what the interval is -----

  /** The clusters a sample chooses, in order. */
  function Chosen(clusters: seq<seq<seq<Vote>>>, draw: Draw, s: nat, k: nat): seq<seq<seq<Vote>>>
    requires clusters != []
  {
    seq(k, i requires 0 <= i < k => clusters[draw(s, i) % |clusters|])
  }

  /** The kappa of the chosen clusters laid end to end. */
  function KappaOfChosen(clusters: seq<seq<seq<Vote>>>, draw: Draw, s: nat): Option<real>
    requires clusters != []
  {
    Fleiss(Flatten(Chosen(clusters, draw, s, |clusters|))).kappa
  }

  lemma {:induction false} DrawnIsChosen(clusters: seq<seq<seq<Vote>>>, draw: Draw, s: nat, k: nat)
    requires clusters != []
    ensures Drawn(clusters, draw, s, k) == Flatten(Chosen(clusters, draw, s, k))
  {
    if k > 0 {
      DrawnIsChosen(clusters, draw, s, k - 1);
      assert Chosen(clusters, draw, s, k)[..k - 1] == Chosen(clusters, draw, s, k - 1);
    }
  }

  /** The kappa of each sample, where it has one. */
  ghost function OfSamples(clusters: seq<seq<seq<Vote>>>, draw: Draw, m: nat): seq<Option<real>>
    requires clusters != []
  {
    seq(m, s requires 0 <= s < m => KappaOfChosen(clusters, draw, s))
  }

  lemma {:induction false} KappasAreValues(clusters: seq<seq<seq<Vote>>>, draw: Draw, m: nat)
    requires clusters != []
    ensures SampleKappas(clusters, draw, m) == Values(OfSamples(clusters, draw, m))
  {
    if m > 0 {
      KappasAreValues(clusters, draw, m - 1);
      DrawnIsChosen(clusters, draw, m - 1, |clusters|);
      assert OfSamples(clusters, draw, m)[..m - 1] == OfSamples(clusters, draw, m - 1);
    }
  }

  /** MAIN. There is an interval exactly with two clusters or more and a kappa in half of the samples, each sample
      being the chosen clusters end to end; its ends then interpolate the distribution of these kappas at the 2.5
      and 97.5 percent. */
  lemma IntervalOfSamples(clusters: seq<seq<seq<Vote>>>, draw: Draw)
    ensures var ci := BootstrapCi(clusters, draw);
            && (ci.high.Some? <==> ci.low.Some?)
            && if |clusters| < 2 then ci.low.None?
               else
                 var ks := OfSamples(clusters, draw, SAMPLES);
                 && (ci.low.Some? <==> 2 * |DefinedIn(ks)| >= SAMPLES)
                 && (ci.low.Some? ==> forall s :: Distribution(s, ks) ==>
                       Interpolates(s, 2.5, ci.low.value) && Interpolates(s, 97.5, ci.high.value))
  {
    if |clusters| >= 2 {
      var ks := OfSamples(clusters, draw, SAMPLES);
      KappasAreValues(clusters, draw, SAMPLES);
      ValuesAreCounted(ks, 0.0);
      forall s | Values(ks) != [] && Distribution(s, ks)
        ensures Interpolates(s, 2.5, Percentile(Values(ks), 2.5)) && Interpolates(s, 97.5, Percentile(Values(ks), 97.5))
      {
        SameDistribution(s, ks);
        PercentileInterpolates(Values(ks), s, 2.5);
        PercentileInterpolates(Values(ks), s, 97.5);
      }
    }
  }

  /** Resamples whole clusters with replacement. */
  method BootstrapKappaCi(clusters: seq<seq<seq<Vote>>>, draw: Draw) returns (ci: CI)
    ensures ci == BootstrapCi(clusters, draw)
  {
    if |clusters| < 2 {
      return CI(None, None);
    }
    var kappas: seq<real> := [];
    for s := 0 to SAMPLES
      invariant kappas == SampleKappas(clusters, draw, s)
    {
      var drawn: seq<seq<Vote>> := [];
      for i := 0 to |clusters|
        invariant drawn == Drawn(clusters, draw, s, i)
      {
        drawn := drawn + clusters[draw(s, i) % |clusters|];
      }
      var result := FleissKappa(drawn);
      if result.kappa.Some? {
        kappas := kappas + [result.kappa.value];
      }
    }
    if |kappas| * 2 < SAMPLES {
      return CI(None, None);
    }
    ci := CI(Some(Percentile(kappas, CI_LOW_PCT)), Some(Percentile(kappas, CI_HIGH_PCT)));
  }

  lemma {:induction false} DrawnComesFrom(clusters: seq<seq<seq<Vote>>>, draw: Draw, s: nat, k: nat)
    requires clusters != []
    ensures DrawnFrom(clusters, Drawn(clusters, draw, s, k))
  {
    if k > 0 { DrawnComesFrom(clusters, draw, s, k - 1); }
  }

  lemma SampleIsAttained(clusters: seq<seq<seq<Vote>>>, draw: Draw, s: nat)
    requires clusters != [] && SampleKappa(clusters, draw, s).Some?
    ensures SampleKappa(clusters, draw, s).value <= 1.0 && Attained(clusters, SampleKappa(clusters, draw, s).value)
  {
    DrawnComesFrom(clusters, draw, s, |clusters|);
    KappaAtMostOne(Drawn(clusters, draw, s, |clusters|));
  }

  lemma {:induction false} SamplesComeFrom(clusters: seq<seq<seq<Vote>>>, draw: Draw, m: nat, v: real)
    requires clusters != [] && v in SampleKappas(clusters, draw, m)
    ensures exists s: nat :: s < m && SampleKappa(clusters, draw, s) == Some(v)
  {
    if SampleKappa(clusters, draw, m - 1) != Some(v) {
      SamplesComeFrom(clusters, draw, m - 1, v);
    }
  }

  lemma SamplesAreAttained(clusters: seq<seq<seq<Vote>>>, draw: Draw, m: nat)
    requires clusters != []
    ensures forall v :: v in SampleKappas(clusters, draw, m) ==> v <= 1.0 && Attained(clusters, v)
  {
    forall v | v in SampleKappas(clusters, draw, m)
      ensures v <= 1.0 && Attained(clusters, v)
    {
      SamplesComeFrom(clusters, draw, m, v);
      var s: nat :| s < m && SampleKappa(clusters, draw, s) == Some(v);
      SampleIsAttained(clusters, draw, s);
    }
  }

  /** MAIN. For every draw the two bounds come together and in order, at most 1, and above every floor that
      no kappa of items drawn from the clusters falls below. */
  lemma IntervalIsWellFormed(clusters: seq<seq<seq<Vote>>>, draw: Draw)
    ensures var ci := BootstrapCi(clusters, draw);
            && (ci.low.None? <==> ci.high.None?)
            && (ci.low.Some? ==> ci.low.value <= ci.high.value <= 1.0)
            && (ci.low.Some? ==> forall floor: real :: KappaFloor(clusters, floor) ==> floor <= ci.low.value)
  {
    if |clusters| >= 2 {
      var kappas := SampleKappas(clusters, draw, SAMPLES);
      SamplesAreAttained(clusters, draw, SAMPLES);
      if |kappas| * 2 >= SAMPLES {
        PercentileWithin(kappas, CI_LOW_PCT);
        PercentileWithin(kappas, CI_HIGH_PCT);
        PercentileMonotone(kappas, CI_LOW_PCT, CI_HIGH_PCT);
      }
    }
  }

  /** The items of every cluster have m real votes, or too few to be rated. */
  ghost predicate EqualRaters(clusters: seq<seq<seq<Vote>>>, m: nat) {
    forall c, item :: 0 <= c < |clusters| && item in clusters[c] ==> |Available(item)| < 2 || |Available(item)| == m
  }

  /** MAIN. With m judges on every rateable item, the whole interval stays above -1/(m - 1). */
  lemma EqualRatersGiveFloor(clusters: seq<seq<seq<Vote>>>, m: nat)
    requires m >= 2 && EqualRaters(clusters, m)
    ensures KappaFloor(clusters, -1.0 / (m - 1) as real)
  {
    forall v: real | Attained(clusters, v)
      ensures -1.0 / (m - 1) as real <= v
    {
      var items :| DrawnFrom(clusters, items) && Fleiss(items).kappa == Some(v);
      DrawnHaveM(clusters, items, m);
      KappaLowerBound(items, m);
    }
  }

  lemma {:induction false} DrawnHaveM(clusters: seq<seq<seq<Vote>>>, items: seq<seq<Vote>>, m: nat)
    requires EqualRaters(clusters, m) && DrawnFrom(clusters, items)
    ensures SameRaters(Rateable(items), m)
  {
    if items != [] {
      var n := |items| - 1;
      assert DrawnFrom(clusters, items[..n]) by { assert forall item :: item in items[..n] ==> item in items; }
      DrawnHaveM(clusters, items[..n], m);
      assert items[n] in items;
    }
  }
}
