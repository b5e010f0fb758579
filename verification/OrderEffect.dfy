/** The order-effect check of `evals/sequence_order_effect.py`: Cochran's Q and first-vs-last
    McNemar over a scenario-by-repetition matrix. The chi-square tail is a parameter. */
module OrderEffect {
  import opened Counting
  import opened Numbers
  import opened Sums
  import opened PairedStats
  import RateStats

  type Matrix = seq<seq<bool>>

  ghost predicate Rectangular(rows: Matrix, k: nat) {
    forall j :: 0 <= j < |rows| ==> |rows[j]| == k
  }

  /** Repetition i of every scenario. */
  function Column(rows: Matrix, i: nat): seq<bool>
    requires forall j :: 0 <= j < |rows| ==> i < |rows[j]|
  {
    seq(|rows|, j requires 0 <= j < |rows| => rows[j][i])
  }

  function ColSums(rows: Matrix, k: nat): seq<int>
    requires Rectangular(rows, k)
  {
    seq(k, i requires 0 <= i < k => CountTrue(Column(rows, i)))
  }

  function RowTerm(row: seq<bool>): int { CountTrue(row) * (|row| - CountTrue(row)) }

  datatype QResult = Q(q: real, p: real) | QUndefined

  function CochransQ(sf: (real, int) -> real, rows: Matrix, k: nat): QResult
    requires Rectangular(rows, k)
  {
    var denominator := SumOf(rows, RowTerm);
    if denominator == 0 then QUndefined
    else
      var q := Quotient((k - 1) * Spread(ColSums(rows, k)), denominator);
      Q(q, sf(q, k - 1))
  }

  predicate Uniform(row: seq<bool>) { CountTrue(row) == 0 || CountTrue(row) == |row| }

  /** The scenarios with both outcomes. */
  function Mixed(rows: Matrix): Matrix {
    if rows == [] then []
    else Mixed(rows[..|rows| - 1]) + if Uniform(rows[|rows| - 1]) then [] else [rows[|rows| - 1]]
  }

  // ----- the whole check -----

  datatype OrderEffectResult =
    OrderEffectResult(computable: bool, q: QResult, mcnemarP: McNemar, rates: seq<real>)

  datatype CheckOutcome = Ok(value: OrderEffectResult) | NoScenario | RaggedRows | NoRepetition

  function Rates(rows: Matrix, k: nat): seq<real>
    requires Rectangular(rows, k) && rows != []
  {
    seq(k, i requires 0 <= i < k => RateStats.Share(CountTrue(Column(rows, i)), |rows|))
  }

  /** Scenarios that passed at one end of the run and failed at the other. */
  function Discordant(rows: Matrix, first: bool): nat {
    if rows == [] then 0
    else
      var row := rows[|rows| - 1];
      Discordant(rows[..|rows| - 1], first)
      + if row != [] && row[0] == first && row[|row| - 1] != first then 1 else 0
  }

  function FirstVsLast(rows: Matrix): McNemar { McNemarExact(Discordant(rows, true), Discordant(rows, false)) }

  /** Empty rows make the indexing `row[0]` fail in the source. */
  function OrderEffectCheck(sf: (real, int) -> real, rows: Matrix): CheckOutcome {
    if rows == [] then NoScenario
    else
      var k := |rows[0]|;
      if exists j :: 0 <= j < |rows| && |rows[j]| != k then RaggedRows
      else if k == 0 then NoRepetition
      else
        var q := if k < 3 then QUndefined else CochransQ(sf, rows, k);
        Ok(OrderEffectResult(q.Q?, q, FirstVsLast(rows), Rates(rows, k)))
  }

  // ----- the denominator -----

  lemma RowTermSign(row: seq<bool>)
    ensures RowTerm(row) >= 0
    ensures RowTerm(row) == 0 <==> Uniform(row)
  {
    CountTrueBound(row);
    ProductSign(CountTrue(row), |row| - CountTrue(row));
  }

  /** MAIN. Q is undefined exactly when every scenario is uniformly all-pass or all-fail. */
  lemma UndefinedIffUniform(sf: (real, int) -> real, rows: Matrix, k: nat)
    requires Rectangular(rows, k)
    ensures SumOf(rows, RowTerm) >= 0
    ensures CochransQ(sf, rows, k).QUndefined? <==> forall j :: 0 <= j < |rows| ==> Uniform(rows[j])
  {
    forall j | 0 <= j < |rows| { RowTermSign(rows[j]); }
    SumNonNeg(rows, RowTerm);
  }

  // ----- columns as vectors -----

  function RowVector(row: seq<bool>): seq<int> {
    seq(|row|, i requires 0 <= i < |row| => if row[i] then 1 else 0)
  }

  lemma {:induction false} RowVectorSums(row: seq<bool>)
    ensures Sum(RowVector(row)) == SumSq(RowVector(row)) == CountTrue(row)
  {
    if row != [] {
      RowVectorSums(row[..|row| - 1]);
      assert RowVector(row)[..|row| - 1] == RowVector(row[..|row| - 1]);
    }
  }

  lemma RowSpread(row: seq<bool>)
    ensures Spread(RowVector(row)) == RowTerm(row)
  {
    RowVectorSums(row);
    var c := CountTrue(row);
    assert c * (|row| - c) == |row| * c - c * c;
  }

  lemma ColSumsSnoc(rows: Matrix, row: seq<bool>, k: nat)
    requires Rectangular(rows, k) && |row| == k
    ensures Rectangular(rows + [row], k)
    ensures ColSums(rows + [row], k) == Axpy(ColSums(rows, k), 1, RowVector(row))
  {
    forall i | 0 <= i < k
      ensures CountTrue(Column(rows + [row], i)) == CountTrue(Column(rows, i)) + if row[i] then 1 else 0
    {
      assert Column(rows + [row], i) == Column(rows, i) + [row[i]];
      assert (Column(rows, i) + [row[i]])[..|rows|] == Column(rows, i);
    }
  }

  /** Deleting uniform rows lowers every column sum by the same number. */
  lemma {:induction false} MixedShiftsColumns(rows: Matrix, k: nat) returns (c: int)
    requires Rectangular(rows, k)
    ensures Rectangular(Mixed(rows), k)
    ensures forall i :: 0 <= i < k ==> ColSums(rows, k)[i] == c + 1 * ColSums(Mixed(rows), k)[i]
  {
    if rows == [] {
      c := 0;
    } else {
      var rest, row := rows[..|rows| - 1], rows[|rows| - 1];
      var c' := MixedShiftsColumns(rest, k);
      assert rows == rest + [row];
      ColSumsSnoc(rest, row, k);
      CountTrueBound(row);
      if Uniform(row) {
        assert Mixed(rows) == Mixed(rest);
        c := c' + if CountTrue(row) == 0 then 0 else 1;
      } else {
        assert Mixed(rows) == Mixed(rest) + [row];
        ColSumsSnoc(Mixed(rest), row, k);
        c := c';
      }
    }
  }

  lemma {:induction false} MixedKeepsTerms(rows: Matrix)
    ensures |Mixed(rows)| <= |rows| && SumOf(Mixed(rows), RowTerm) == SumOf(rows, RowTerm)
    ensures forall row :: row in Mixed(rows) ==> !Uniform(row)
  {
    if rows != [] {
      var rest, row := rows[..|rows| - 1], rows[|rows| - 1];
      MixedKeepsTerms(rest);
      RowTermSign(row);
      assert SumOf(rows, RowTerm) == SumOf(rest, RowTerm) + RowTerm(row);
      if Uniform(row) {
        assert Mixed(rows) == Mixed(rest);
      } else {
        SumSnoc(Mixed(rest), row, RowTerm);
      }
    }
  }

  lemma MixedKeepsBoth(rows: Matrix, k: nat)
    requires Rectangular(rows, k)
    ensures Rectangular(Mixed(rows), k)
    ensures Spread(ColSums(Mixed(rows), k)) == Spread(ColSums(rows, k))
    ensures SumOf(Mixed(rows), RowTerm) == SumOf(rows, RowTerm)
  {
    var c := MixedShiftsColumns(rows, k);
    SpreadShift(ColSums(Mixed(rows), k), ColSums(rows, k), 1, c);
    MixedKeepsTerms(rows);
  }

  /** MAIN. Uniform scenarios carry no information: deleting them leaves the result as it is. */
  lemma UniformRowsDropOut(sf: (real, int) -> real, rows: Matrix, k: nat)
    requires Rectangular(rows, k)
    ensures Rectangular(Mixed(rows), k)
    ensures CochransQ(sf, Mixed(rows), k) == CochransQ(sf, rows, k)
  {
    MixedKeepsBoth(rows, k);
  }

  // ----- the range -----

  lemma OneRowSpread(row: seq<bool>)
    ensures Spread(ColSums([row], |row|)) == RowTerm(row) == SumOf([row], RowTerm)
  {
    ColSumsSnoc([], row, |row|);
    assert [] + [row] == [row];
    assert ColSums([row], |row|) == RowVector(row);
    RowSpread(row);
    SumSnoc([], row, RowTerm);
  }

  lemma {:induction false} SpreadBound(rows: Matrix, k: nat)
    requires Rectangular(rows, k) && rows != []
    ensures Spread(ColSums(rows, k)) <= |rows| * SumOf(rows, RowTerm)
  {
    var n := |rows| - 1;
    var rest, row := rows[..n], rows[n];
    assert rows == rest + [row];
    if n == 0 {
      OneRowSpread(row);
    } else {
      SpreadBound(rest, k);
      ColSumsSnoc(rest, row, k);
      SpreadConvex(ColSums(rest, k), RowVector(row), n);
      RowSpread(row);
      ScaleBound(n, Spread(ColSums(rows, k)), Spread(ColSums(rest, k)), SumOf(rest, RowTerm), RowTerm(row));
    }
  }

  lemma ScaleBound(n: int, q: int, qs: int, d: int, r: int)
    requires n >= 1 && n * q <= (n + 1) * (qs + n * r) && qs <= n * d
    ensures q <= (n + 1) * (d + r)
  {
    assert (n + 1) * (qs + n * r) <= (n + 1) * (n * d + n * r);
    assert (n + 1) * (n * d + n * r) == n * ((n + 1) * (d + r));
    if q > (n + 1) * (d + r) { MulStrictInt(n, (n + 1) * (d + r), q); }
  }

  lemma MulStrictInt(n: int, a: int, b: int)
    requires n >= 1 && a < b
    ensures n * a < n * b
  {}

  /** MAIN. 0 <= Q <= mixed(k - 1) where `mixed` <= n counts the non-uniform scenarios; Q is 0
      exactly when all column sums are equal, and a single mixed scenario gives exactly k - 1. */
  lemma QRange(sf: (real, int) -> real, rows: Matrix, k: nat)
    requires Rectangular(rows, k) && CochransQ(sf, rows, k).Q?
    ensures k >= 2 && 1 <= |Mixed(rows)| <= |rows|
    ensures 0.0 <= CochransQ(sf, rows, k).q <= (|Mixed(rows)| * (k - 1)) as real
    ensures CochransQ(sf, rows, k).q == 0.0 <==> AllEqual(ColSums(rows, k))
    ensures |Mixed(rows)| == 1 ==> CochransQ(sf, rows, k).q == (k - 1) as real
  {
    SomeRowMixed(sf, rows, k);
    MixedSpreadBound(rows, k);
    SpreadNonNeg(ColSums(rows, k));
    QIsQuotient(sf, rows, k);
    QuotientRange(k - 1, Spread(ColSums(rows, k)), SumOf(rows, RowTerm), |Mixed(rows)|);
  }

  lemma QIsQuotient(sf: (real, int) -> real, rows: Matrix, k: nat)
    requires Rectangular(rows, k) && CochransQ(sf, rows, k).Q?
    ensures SumOf(rows, RowTerm) > 0
    ensures CochransQ(sf, rows, k).q == Quotient((k - 1) * Spread(ColSums(rows, k)), SumOf(rows, RowTerm))
  {
    UndefinedIffUniform(sf, rows, k);
  }

  /** The bound in the number of scenarios: Q <= n(k - 1). */
  lemma QAtMostAllScenarios(sf: (real, int) -> real, rows: Matrix, k: nat)
    requires Rectangular(rows, k) && CochransQ(sf, rows, k).Q?
    ensures CochransQ(sf, rows, k).q <= (|rows| * (k - 1)) as real
  {
    QRange(sf, rows, k);
    MulMonoInt(|Mixed(rows)|, |rows|, k - 1);
  }

  lemma MulMonoInt(a: int, b: int, c: int)
    requires a <= b && c >= 0
    ensures a * c <= b * c
  {}

  lemma SomeRowMixed(sf: (real, int) -> real, rows: Matrix, k: nat)
    requires Rectangular(rows, k) && CochransQ(sf, rows, k).Q?
    ensures k >= 2 && 1 <= |Mixed(rows)| <= |rows|
  {
    MixedKeepsTerms(rows);
    MixedKeepsBoth(rows, k);
    assert Mixed(rows) != [];
    assert Mixed(rows)[0] in Mixed(rows);
    MixedRowLength(Mixed(rows)[0]);
  }

  lemma MixedSpreadBound(rows: Matrix, k: nat)
    requires Rectangular(rows, k) && Mixed(rows) != []
    ensures Spread(ColSums(rows, k)) <= |Mixed(rows)| * SumOf(rows, RowTerm)
    ensures |Mixed(rows)| == 1 ==> Spread(ColSums(rows, k)) == SumOf(rows, RowTerm)
  {
    MixedKeepsBoth(rows, k);
    SpreadBound(Mixed(rows), k);
    if |Mixed(rows)| == 1 {
      assert Mixed(rows) == [Mixed(rows)[0]];
      OneRowSpread(Mixed(rows)[0]);
    }
  }

  lemma MixedRowLength(row: seq<bool>)
    requires !Uniform(row)
    ensures |row| >= 2
  {
    CountTrueBound(row);
  }

  lemma QuotientRange(k': int, s: int, d: int, m: int)
    requires k' >= 1 && 0 <= s <= m * d && d > 0
    ensures 0.0 <= Quotient(k' * s, d) <= (m * k') as real
    ensures Quotient(k' * s, d) == 0.0 <==> s == 0
    ensures s == d ==> Quotient(k' * s, d) == k' as real
  {
    assert 0 <= k' * s <= k' * (m * d);
    assert k' * (m * d) == (m * k') * d;
    assert k' * s == 0 <==> s == 0;
    DivLe((k' * s) as real, 0.0, d as real);
    DivLe((k' * s) as real, (m * k') as real, d as real);
    DivLe((k' * s) as real, k' as real, d as real);
  }

  // ----- symmetries -----

  lemma ColumnOfPermutedRows(rows: Matrix, rows': Matrix, k: nat, i: nat)
    requires Rectangular(rows, k) && Rectangular(rows', k) && i < k
    requires multiset(rows) == multiset(rows')
    ensures CountTrue(Column(rows, i)) == CountTrue(Column(rows', i))
  {
    CellSum(rows, k, i);
    CellSum(rows', k, i);
    SumIsOrderFree(rows, rows', Cell(i));
  }

  function Cell(i: nat): seq<bool> -> int { row => if i < |row| && row[i] then 1 else 0 }

  lemma {:induction false} CellSum(rows: Matrix, k: nat, i: nat)
    requires Rectangular(rows, k) && i < k
    ensures SumOf(rows, Cell(i)) == CountTrue(Column(rows, i))
  {
    if rows != [] {
      CellSum(rows[..|rows| - 1], k, i);
      assert Column(rows, i)[..|rows| - 1] == Column(rows[..|rows| - 1], i);
    }
  }

  /** MAIN. The order of the scenarios does not matter. */
  lemma RowOrderIrrelevant(sf: (real, int) -> real, rows: Matrix, rows': Matrix, k: nat)
    requires Rectangular(rows, k) && Rectangular(rows', k) && multiset(rows) == multiset(rows')
    ensures CochransQ(sf, rows, k) == CochransQ(sf, rows', k)
  {
    SumIsOrderFree(rows, rows', RowTerm);
    forall i | 0 <= i < k { ColumnOfPermutedRows(rows, rows', k, i); }
    assert ColSums(rows, k) == ColSums(rows', k);
  }

  function Columns(rows: Matrix, k: nat): seq<seq<bool>>
    requires Rectangular(rows, k)
  {
    seq(k, i requires 0 <= i < k => Column(rows, i))
  }

  /** How often scenario j passed, read off the columns. */
  lemma {:induction false} RowFromColumns(rows: Matrix, k: nat, j: nat, m: nat)
    requires Rectangular(rows, k) && j < |rows| && m <= k
    ensures SumOf(Columns(rows, k)[..m], Cell(j)) == CountTrue(rows[j][..m])
  {
    if m > 0 {
      RowFromColumns(rows, k, j, m - 1);
      assert Columns(rows, k)[..m][..m - 1] == Columns(rows, k)[..m - 1];
      assert rows[j][..m][..m - 1] == rows[j][..m - 1];
    }
  }

  lemma {:induction false} ColSumsFromColumns(rows: Matrix, k: nat, f: int -> int, g: seq<bool> -> int)
    requires Rectangular(rows, k) && forall c: seq<bool> :: g(c) == f(CountTrue(c))
    ensures SumOf(ColSums(rows, k), f) == SumOf(Columns(rows, k), g)
  {
    ColSumsPrefix(rows, k, f, g, k);
    assert ColSums(rows, k)[..k] == ColSums(rows, k) && Columns(rows, k)[..k] == Columns(rows, k);
  }

  lemma {:induction false} ColSumsPrefix(rows: Matrix, k: nat, f: int -> int, g: seq<bool> -> int, m: nat)
    requires Rectangular(rows, k) && m <= k && forall c: seq<bool> :: g(c) == f(CountTrue(c))
    ensures SumOf(ColSums(rows, k)[..m], f) == SumOf(Columns(rows, k)[..m], g)
  {
    if m > 0 {
      ColSumsPrefix(rows, k, f, g, m - 1);
      assert ColSums(rows, k)[..m][..m - 1] == ColSums(rows, k)[..m - 1];
      assert Columns(rows, k)[..m][..m - 1] == Columns(rows, k)[..m - 1];
    }
  }

  /** MAIN. The order of the repetitions does not matter to Q: it sees that some position differs,
      not which. */
  lemma ColumnOrderIrrelevant(sf: (real, int) -> real, rows: Matrix, rows': Matrix, k: nat)
    requires Rectangular(rows, k) && Rectangular(rows', k) && |rows| == |rows'|
    requires multiset(Columns(rows, k)) == multiset(Columns(rows', k))
    ensures CochransQ(sf, rows, k) == CochransQ(sf, rows', k)
  {
    forall j | 0 <= j < |rows|
      ensures CountTrue(rows[j]) == CountTrue(rows'[j])
    {
      RowFromColumns(rows, k, j, k);
      RowFromColumns(rows', k, j, k);
      SumIsOrderFree(Columns(rows, k), Columns(rows', k), Cell(j));
      assert rows[j][..k] == rows[j] && rows'[j][..k] == rows'[j];
      assert Columns(rows, k)[..k] == Columns(rows, k) && Columns(rows', k)[..k] == Columns(rows', k);
    }
    SameRowCounts(rows, rows');
    SameColumnSpread(rows, rows', k);
  }

  lemma SameColumnSpread(rows: Matrix, rows': Matrix, k: nat)
    requires Rectangular(rows, k) && Rectangular(rows', k)
    requires multiset(Columns(rows, k)) == multiset(Columns(rows', k))
    ensures Spread(ColSums(rows, k)) == Spread(ColSums(rows', k))
  {
    ColSumsFromColumns(rows, k, Identity, Tally);
    ColSumsFromColumns(rows', k, Identity, Tally);
    ColSumsFromColumns(rows, k, Square, TallySquared);
    ColSumsFromColumns(rows', k, Square, TallySquared);
    SumIsOrderFree(Columns(rows, k), Columns(rows', k), Tally);
    SumIsOrderFree(Columns(rows, k), Columns(rows', k), TallySquared);
  }

  function Tally(c: seq<bool>): int { CountTrue(c) }

  function TallySquared(c: seq<bool>): int { Square(CountTrue(c)) }

  lemma {:induction false} SameRowCounts(rows: Matrix, rows': Matrix)
    requires |rows| == |rows'|
    requires forall j :: 0 <= j < |rows| ==> |rows[j]| == |rows'[j]| && CountTrue(rows[j]) == CountTrue(rows'[j])
    ensures SumOf(rows, RowTerm) == SumOf(rows', RowTerm)
  {
    if rows != [] { SameRowCounts(rows[..|rows| - 1], rows'[..|rows| - 1]); }
  }

  function InvertAll(rows: Matrix): Matrix {
    seq(|rows|, j requires 0 <= j < |rows| => Inverted(rows[j]))
  }

  /** MAIN. Calling every pass a fail and every fail a pass changes nothing. */
  lemma InversionInvariant(sf: (real, int) -> real, rows: Matrix, k: nat)
    requires Rectangular(rows, k)
    ensures Rectangular(InvertAll(rows), k)
    ensures CochransQ(sf, InvertAll(rows), k) == CochransQ(sf, rows, k)
  {
    var inv := InvertAll(rows);
    forall i | 0 <= i < k
      ensures ColSums(inv, k)[i] == |rows| + -1 * ColSums(rows, k)[i]
    {
      assert Column(inv, i) == Inverted(Column(rows, i));
      CountInverted(Column(rows, i));
    }
    SpreadShift(ColSums(rows, k), ColSums(inv, k), -1, |rows|);
    InvertedTerms(rows);
  }

  lemma {:induction false} InvertedTerms(rows: Matrix)
    ensures SumOf(InvertAll(rows), RowTerm) == SumOf(rows, RowTerm)
  {
    if rows != [] {
      var n := |rows| - 1;
      InvertedTerms(rows[..n]);
      assert InvertAll(rows)[..n] == InvertAll(rows[..n]);
      CountInverted(rows[n]);
      assert (|rows[n]| - CountTrue(rows[n])) * CountTrue(rows[n])
             == CountTrue(rows[n]) * (|rows[n]| - CountTrue(rows[n]));
    }
  }

  // ----- running the repetitions backwards -----

  function Reversed<T>(s: seq<T>): seq<T> {
    seq(|s|, i requires 0 <= i < |s| => s[|s| - 1 - i])
  }

  function ReverseRows(rows: Matrix): Matrix {
    seq(|rows|, j requires 0 <= j < |rows| => Reversed(rows[j]))
  }

  lemma {:induction false} ReversedMultiset<T>(s: seq<T>)
    ensures multiset(Reversed(s)) == multiset(s)
  {
    if s != [] {
      var n := |s| - 1;
      ReversedMultiset(s[..n]);
      assert Reversed(s) == [s[n]] + Reversed(s[..n]);
      assert s == s[..n] + [s[n]];
    }
  }

  lemma {:induction false} ReversedDiscordant(rows: Matrix, first: bool)
    ensures Discordant(ReverseRows(rows), first) == Discordant(rows, !first)
  {
    if rows != [] {
      ReversedDiscordant(rows[..|rows| - 1], first);
      assert ReverseRows(rows)[..|rows| - 1] == ReverseRows(rows[..|rows| - 1]);
    }
  }

  /** MAIN. Run the same repetitions in the opposite order: both tests report the same, and the
      rates by repetition come out reversed. */
  lemma ReversalInvariant(sf: (real, int) -> real, rows: Matrix)
    ensures match OrderEffectCheck(sf, rows)
            case Ok(r) => OrderEffectCheck(sf, ReverseRows(rows)) == Ok(r.(rates := Reversed(r.rates)))
            case e => OrderEffectCheck(sf, ReverseRows(rows)) == e
  {
    assert forall j :: 0 <= j < |rows| ==> |ReverseRows(rows)[j]| == |rows[j]|;
    if OrderEffectCheck(sf, rows).Ok? {
      ReversedColumns(rows, |rows[0]|);
      ColumnOrderIrrelevant(sf, rows, ReverseRows(rows), |rows[0]|);
      ReversedDiscordant(rows, true);
      ReversedDiscordant(rows, false);
      McNemarIsTwoSidedExact(Discordant(rows, true), Discordant(rows, false));
    }
  }

  lemma ReversedColumn(rows: Matrix, k: nat, i: nat)
    requires Rectangular(rows, k) && i < k
    ensures Rectangular(ReverseRows(rows), k)
    ensures Column(ReverseRows(rows), i) == Column(rows, k - 1 - i)
  {
    assert forall j :: 0 <= j < |rows| ==> ReverseRows(rows)[j] == Reversed(rows[j]);
  }

  lemma ReversedColumns(rows: Matrix, k: nat)
    requires Rectangular(rows, k) && rows != []
    ensures Rectangular(ReverseRows(rows), k)
    ensures multiset(Columns(ReverseRows(rows), k)) == multiset(Columns(rows, k))
    ensures Rates(ReverseRows(rows), k) == Reversed(Rates(rows, k))
  {
    ReversedRates(rows, k);
    forall i | 0 <= i < k
      ensures Column(ReverseRows(rows), i) == Reversed(Columns(rows, k))[i]
    {
      ReversedColumn(rows, k, i);
    }
    assert Columns(ReverseRows(rows), k) == Reversed(Columns(rows, k));
    ReversedMultiset(Columns(rows, k));
  }

  lemma ReversedRates(rows: Matrix, k: nat)
    requires Rectangular(rows, k) && rows != []
    ensures Rectangular(ReverseRows(rows), k)
    ensures Rates(ReverseRows(rows), k) == Reversed(Rates(rows, k))
  {
    assert forall j :: 0 <= j < |rows| ==> ReverseRows(rows)[j] == Reversed(rows[j]);
    forall i | 0 <= i < k
      ensures Rates(ReverseRows(rows), k)[i] == Rates(rows, k)[k - 1 - i]
    {
      ReversedColumn(rows, k, i);
    }
  }
}
