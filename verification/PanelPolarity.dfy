/** How polarity moves kappa: the claim of `evals/panel_metrics.py` that pooling raw scores inflates it. */
module PanelPolarity {
  import opened Counting
  import opened JudgePanel
  import opened KappaStats
  import opened Numbers
  import opened Options
  import opened Sums

  /** Item by item the same votes, or all of them inverted. */
  ghost predicate Flips(a: seq<seq<bool>>, b: seq<seq<bool>>) {
    |a| == |b| && forall i :: 0 <= i < |a| ==> b[i] == a[i] || b[i] == Inverted(a[i])
  }

  lemma {:induction false} PolarityFlips(scored: seq<ScoredRecord>)
    ensures Flips(Rateable(RawScores(scored)), Rateable(AllDecisions(scored)))
  {
    if scored != [] {
      var n := |scored| - 1;
      PolarityFlips(scored[..n]);
      assert RawScores(scored)[..n] == RawScores(scored[..n]);
      assert AllDecisions(scored)[..n] == AllDecisions(scored[..n]);
      RecordFlips(scored[n]);
    }
  }

  lemma RecordFlips(r: ScoredRecord)
    ensures var raw, applied := Available(r.scores), Available(Decisions(r));
            applied == raw || applied == Inverted(raw)
    ensures |Available(Decisions(r))| == |Available(r.scores)|
  {
    DecisionsInvertOrKeep(r);
    AvailableInverts(r.scores);
  }

  lemma FlipKeepsItem(v: seq<bool>, u: seq<bool>)
    requires |v| >= 2 && (u == v || u == Inverted(v))
    ensures |u| == |v| && ItemAgreement(u) == ItemAgreement(v)
  {
    AgreeTwiceInverts(v);
    CountInverted(v);
  }

  lemma {:induction false} FlipsKeepAgreement(a: seq<seq<bool>>, b: seq<seq<bool>>)
    requires AllRateable(a) && Flips(a, b)
    ensures AllRateable(b) && AgreementSum(b) == AgreementSum(a)
  {
    if a != [] {
      var n := |a| - 1;
      FlipsKeepAgreement(a[..n], b[..n]);
      FlipKeepsItem(a[n], b[n]);
    }
  }

  /** The share of true votes among the rateable items. */
  function TrueShare(items: seq<seq<Vote>>): real {
    RateableKeepsPairs(items);
    if Rateable(items) == [] then 0.0 else PTrue(Rateable(items))
  }

  function FromHalf(p: real): real { if p >= 0.5 then p - 0.5 else 0.5 - p }

  lemma ChanceByDistance(p: real)
    ensures Chance(p) == 0.5 + 2.0 * Sq(FromHalf(p))
  {}

  /** Chance agreement grows with the distance of the true share from one half. */
  lemma ChanceGrows(p: real, q: real)
    ensures Chance(p) < Chance(q) <==> FromHalf(p) < FromHalf(q)
    ensures Chance(p) == Chance(q) <==> FromHalf(p) == FromHalf(q)
  {
    ChanceByDistance(p);
    ChanceByDistance(q);
    SqLe(FromHalf(p), FromHalf(q));
    SqLe(FromHalf(q), FromHalf(p));
  }

  /** At the same observed agreement, kappa falls as chance agreement rises, unless agreement is perfect. */
  lemma RescaledFalls(o: real, c: real, d: real)
    requires o <= 1.0 && c < 1.0 && d < 1.0
    ensures Rescaled(o, c) > Rescaled(o, d) <==> o < 1.0 && c < d
    ensures Rescaled(o, c) == Rescaled(o, d) <==> o == 1.0 || c == d
  {
    var k, l := Rescaled(o, c), Rescaled(o, d);
    DivLe(o - c, k, 1.0 - c);
    DivLe(o - d, l, 1.0 - d);
    Complement(o, c, k);
    Complement(o, d, l);
    Shortfalls(1.0 - o, 1.0 - c, 1.0 - d, 1.0 - k, 1.0 - l);
  }

  lemma Complement(o: real, c: real, k: real)
    requires k * (1.0 - c) == o - c
    ensures (1.0 - k) * (1.0 - c) == 1.0 - o
  {}

  lemma Shortfalls(s: real, x: real, y: real, a: real, b: real)
    requires s >= 0.0 && x > 0.0 && y > 0.0 && a * x == s && b * y == s
    ensures a < b <==> s > 0.0 && y < x
    ensures a == b <==> s == 0.0 || x == y
  {
    ZeroProduct(a, x);
    ZeroProduct(b, y);
    if s > 0.0 {
      ScaledOrder(0.0, a, x);
      ScaledOrder(0.0, b, y);
      assert a > 0.0 && b > 0.0 by {
        if a <= 0.0 { MulNonNeg(-a, x); }
        if b <= 0.0 { MulNonNeg(-b, y); }
      }
      if y < x { MulStrict(y, x, b); ScaledOrder(a, b, x); }
      if x < y { MulStrict(x, y, a); ScaledOrder(b, a, y); }
      if x == y { ScaledOrder(a, b, x); }
    }
  }

  /** MAIN. Polarity leaves the observed agreement and the items as they are. Where kappa is defined on the
      raw scores and on the decisions, the raw one is larger exactly when agreement is not perfect and the
      raw true share lies nearer one half; it is the same exactly when agreement is perfect or the two
      shares lie equally far from one half. */
  lemma PolarityMovesKappa(scored: seq<ScoredRecord>)
    ensures var raw, applied := Fleiss(RawScores(scored)), Fleiss(AllDecisions(scored));
            var p, q := TrueShare(RawScores(scored)), TrueShare(AllDecisions(scored));
            && raw.observed == applied.observed && raw.nItems == applied.nItems
            && (raw.kappa.Some? && applied.kappa.Some? ==>
                  && (raw.kappa.value > applied.kappa.value <==> raw.observed < 1.0 && FromHalf(p) < FromHalf(q))
                  && (raw.kappa == applied.kappa <==> raw.observed == 1.0 || FromHalf(p) == FromHalf(q)))
  {
    var a, b := Rateable(RawScores(scored)), Rateable(AllDecisions(scored));
    PolarityFlips(scored);
    RateableKeepsPairs(RawScores(scored));
    RateableKeepsPairs(AllDecisions(scored));
    FlipsKeepAgreement(a, b);
    if a != [] {
      SharesMoveKappa(Observed(a), PTrue(a), PTrue(b), a);
    }
  }

  lemma SharesMoveKappa(o: real, p: real, q: real, kept: seq<seq<bool>>)
    requires AllRateable(kept) && kept != [] && o == Observed(kept)
    ensures Chance(p) < 1.0 && Chance(q) < 1.0 ==>
              && (Rescaled(o, Chance(p)) > Rescaled(o, Chance(q)) <==> o < 1.0 && FromHalf(p) < FromHalf(q))
              && (Rescaled(o, Chance(p)) == Rescaled(o, Chance(q)) <==> o == 1.0 || FromHalf(p) == FromHalf(q))
  {
    ObservedAtMostOne(kept);
    ChanceGrows(p, q);
    if Chance(p) < 1.0 && Chance(q) < 1.0 {
      RescaledFalls(o, Chance(p), Chance(q));
    }
  }

  // ----- it goes both ways -----

  function TwoVotes(a: bool, b: bool): seq<Vote> { [Cast(a), Cast(b)] }

  lemma TwoAvailable(a: bool, b: bool)
    ensures Available(TwoVotes(a, b)) == [a, b]
  {
    assert TwoVotes(a, b)[..1] == [Cast(a)];
    assert [Cast(a)][..0] == [];
    assert Available([Cast(a)]) == [a];
  }

  /** Three items of two votes, the third split. */
  function Panel(a: bool, b: bool): seq<seq<Vote>> { [TwoVotes(a, a), TwoVotes(b, b), TwoVotes(true, false)] }

  lemma PanelKept(a: bool, b: bool)
    ensures Rateable(Panel(a, b)) == [[a, a], [b, b], [true, false]]
  {
    TwoAvailable(a, a);
    TwoAvailable(b, b);
    TwoAvailable(true, false);
    assert Panel(a, b)[..2][..1] == [TwoVotes(a, a)] && [TwoVotes(a, a)][..0] == [];
    assert Rateable(Panel(a, b)[..2][..1]) == [[a, a]];
    assert Rateable(Panel(a, b)[..2]) == [[a, a], [b, b]];
  }

  lemma CountTwo(a: bool, b: bool)
    ensures CountTrue([a, b]) == (if a then 1 else 0) + (if b then 1 else 0)
  {
    assert [a, b][..1] == [a] && [a][..0] == [];
    assert CountTrue([a]) == if a then 1 else 0;
  }

  lemma SumOfThree<T>(x: T, y: T, z: T, f: T -> int)
    ensures SumOf([x, y, z], f) == f(x) + f(y) + f(z)
  {
    assert [x, y, z][..2] == [x, y] && [x, y][..1] == [x] && [x][..0] == [];
    assert SumOf([x], f) == f(x);
    assert SumOf([x, y], f) == f(x) + f(y);
  }

  lemma PanelShare(a: bool, b: bool)
    ensures TrueShare(Panel(a, b)) == Quotient(1 + (if a then 2 else 0) + (if b then 2 else 0), 6)
  {
    PanelKept(a, b);
    CountTwo(a, a);
    CountTwo(b, b);
    CountTwo(true, false);
    SumOfThree([a, a], [b, b], [true, false], Trues);
    SumOfThree([a, a], [b, b], [true, false], Length);
  }

  lemma PanelKappa(a: bool, b: bool)
    ensures Fleiss(Panel(a, b)).kappa.Some? && Fleiss(Panel(a, b)).observed < 1.0
  {
    PanelKept(a, b);
    RateableKeepsPairs(Panel(a, b));
    PanelVaries(a, b);
    UndefinedIffNoVariance(Panel(a, b));
    ObservedAtMostOne(Rateable(Panel(a, b)));
  }

  lemma PanelVaries(a: bool, b: bool)
    ensures var kept := [[a, a], [b, b], [true, false]];
            !AllUnanimous(kept) && !AllVotes(kept, true) && !AllVotes(kept, false)
  {
    var kept := [[a, a], [b, b], [true, false]];
    assert kept[2][0] && !kept[2][1];
    assert !UnanimousVotes(kept[2]);
  }

  /** A split item, a unanimous one, and one whose judges all say `other` on a criterion passed by a no. */
  function Pooled(other: bool): seq<ScoredRecord> {
    [ScoredRecord(PassOnYes, TwoVotes(true, true)), ScoredRecord(PassOnNo, TwoVotes(other, other)),
     ScoredRecord(PassOnYes, TwoVotes(true, false))]
  }

  lemma PooledIsPanel(other: bool)
    ensures RawScores(Pooled(other)) == Panel(true, other) && AllDecisions(Pooled(other)) == Panel(true, !other)
  {
    var scored := Pooled(other);
    DecisionsInvertOrKeep(scored[0]);
    DecisionsInvertOrKeep(scored[2]);
    assert Decisions(scored[1]) == TwoVotes(!other, !other);
    assert AllDecisions(scored) == [Decisions(scored[0]), Decisions(scored[1]), Decisions(scored[2])];
  }

  /** Pooling raw scores does inflate kappa on some panels, and deflates it on others. */
  lemma PoolingGoesBothWays(other: bool)
    ensures var raw, applied := Fleiss(RawScores(Pooled(other))), Fleiss(AllDecisions(Pooled(other)));
            && raw.kappa.Some? && applied.kappa.Some?
            && (if other then raw.kappa.value < applied.kappa.value else raw.kappa.value > applied.kappa.value)
  {
    PooledIsPanel(other);
    PanelKappa(true, other);
    PanelKappa(true, !other);
    PanelsApart(other);
    PolarityMovesKappa(Pooled(other));
  }

  lemma PanelsApart(other: bool)
    ensures var p, q := FromHalf(TrueShare(Panel(true, other))), FromHalf(TrueShare(Panel(true, !other)));
            if other then p > q else p < q
  {
    PanelShare(true, true);
    PanelShare(true, false);
    DivLe(3.0, 0.5, 6.0);
    DivLe(5.0, 0.5, 6.0);
  }
}
