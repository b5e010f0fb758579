/** What a run comparison of `evals/compare.py` says of the verdict rows of the two runs. */
module ComparedRows {
  import opened Compare
  import opened Counting
  import opened Grouping
  import opened Numbers
  import opened PairedStats
  import RateStats

  /** The places of the rows of a case with the given outcome. */
  ghost function RowsOf(rows: seq<VerdictRow>, id: string, passed: bool): set<nat> {
    Places(rows, (row: VerdictRow) => row.caseId == id && row.passed == passed)
  }

  ghost predicate HasRows(rows: seq<VerdictRow>, id: string) { exists i :: 0 <= i < |rows| && rows[i].caseId == id }

  /** The passing rows of the case outnumber the failing ones: a tie fails. */
  ghost predicate Passes(rows: seq<VerdictRow>, id: string) { |RowsOf(rows, id, true)| > |RowsOf(rows, id, false)| }

  /** How a case with rows in both runs changed. */
  ghost predicate Went(before: seq<VerdictRow>, after: seq<VerdictRow>, id: string, c: Change) {
    match c
    case Improved => !Passes(before, id) && Passes(after, id)
    case Regressed => Passes(before, id) && !Passes(after, id)
    case Unchanged => Passes(before, id) == Passes(after, id)
  }

  // ----- one case -----

  lemma {:induction false} OutcomesAreRows(rows: seq<VerdictRow>, id: string)
    ensures var v := ValuesOf(Pairs(rows), id);
            |v| == |RowsOf(rows, id, true)| + |RowsOf(rows, id, false)| && CountTrue(v) == |RowsOf(rows, id, true)|
  {
    if rows != [] {
      var front, row := rows[..|rows| - 1], rows[|rows| - 1];
      assert rows == front + [row];
      OutcomesAreRows(front, id);
      OneMoreOutcome(front, row, id);
      OneMoreRow(front, row, id, true);
      OneMoreRow(front, row, id, false);
    }
  }

  lemma {:induction false} SomeOutcome(rows: seq<VerdictRow>, id: string)
    ensures ValuesOf(Pairs(rows), id) != [] <==> HasRows(rows, id)
  {
    if rows != [] {
      var front, row := rows[..|rows| - 1], rows[|rows| - 1];
      assert rows == front + [row];
      SomeOutcome(front, id);
      OneMoreOutcome(front, row, id);
      OneMoreHas(rows, id);
    }
  }

  lemma OneMoreHas(rows: seq<VerdictRow>, id: string)
    requires rows != []
    ensures HasRows(rows, id) <==> HasRows(rows[..|rows| - 1], id) || rows[|rows| - 1].caseId == id
  {
    var n := |rows| - 1;
    if i :| 0 <= i < n && rows[..n][i].caseId == id {
      assert rows[i].caseId == id;
    }
    if i :| 0 <= i < n && rows[i].caseId == id {
      assert rows[..n][i].caseId == id;
    }
  }

  lemma OneMoreRow(front: seq<VerdictRow>, row: VerdictRow, id: string, passed: bool)
    ensures |RowsOf(front + [row], id, passed)|
         == |RowsOf(front, id, passed)| + if row.caseId == id && row.passed == passed then 1 else 0
  {
    PlacesSnoc(front, row, (r: VerdictRow) => r.caseId == id && r.passed == passed);
  }

  lemma OneMoreOutcome(front: seq<VerdictRow>, row: VerdictRow, id: string)
    ensures var v, v' := ValuesOf(Pairs(front), id), ValuesOf(Pairs(front + [row]), id);
            if row.caseId == id then
              v' == v + [row.passed] && CountTrue(v') == CountTrue(v) + if row.passed then 1 else 0
            else v' == v
  {
    var v := ValuesOf(Pairs(front), id);
    assert Pairs(front + [row]) == Pairs(front) + [(row.caseId, row.passed)];
    Snoc(Pairs(front), row.caseId, row.passed);
    assert (v + [row.passed])[..|v|] == v;
  }

  /** What a stat says of a case that passed and failed that often: its share, the rates the score test keeps,
      and whether it ever went the other way. */
  ghost predicate Scores(s: CaseStat, passes: nat, fails: nat) {
    && s.k == passes + fails > 0 && s.passes == passes && s.passRate * s.k as real == passes as real
    && RateStats.Inverts(s.ci, s.passRate, s.k as real, RateStats.Z95)
    && (s.classification == StablePass <==> fails == 0) && (s.classification == StableFail <==> passes == 0)
  }

  /** The stat is that of the passing and the failing rows of the case. */
  ghost predicate Describes(s: CaseStat, rows: seq<VerdictRow>, id: string) {
    s.caseId == id && Scores(s, |RowsOf(rows, id, true)|, |RowsOf(rows, id, false)|)
  }

  lemma StatScores(sqrt: real -> real, id: string, v: seq<bool>)
    requires IsSqrt(sqrt) && v != []
    ensures CountTrue(v) <= |v| && Scores(StatOf(sqrt, id, v), CountTrue(v), |v| - CountTrue(v))
  {
    CountTrueBound(v);
    CountsScore(sqrt, id, CountTrue(v), |v|);
  }

  lemma CountsScore(sqrt: real -> real, id: string, passes: nat, k: nat)
    requires IsSqrt(sqrt) && passes <= k && k > 0
    ensures Scores(CaseStat(id, k, passes, RateStats.Share(passes, k),
                            RateStats.WilsonInterval(sqrt, passes, k, RateStats.Z95).value, Classify(passes, k)),
                   passes, k - passes)
  {
    ShareInverted(sqrt, passes, k);
    ScoresOf(id, passes, k, RateStats.Share(passes, k), RateStats.WilsonInterval(sqrt, passes, k, RateStats.Z95).value);
  }

  lemma ShareInverted(sqrt: real -> real, passes: nat, k: nat)
    requires IsSqrt(sqrt) && passes <= k && k > 0
    ensures RateStats.Share(passes, k) * k as real == passes as real
    ensures RateStats.Inverts(RateStats.WilsonInterval(sqrt, passes, k, RateStats.Z95).value,
                              RateStats.Share(passes, k), k as real, RateStats.Z95)
  {
    RateStats.ShareInUnit(passes, k);
    RateStats.WilsonIsScoreInterval(sqrt, passes, k, RateStats.Z95);
  }

  lemma ScoresOf(id: string, passes: nat, k: nat, rate: real, ci: RateStats.Interval)
    requires passes <= k && k > 0 && rate * k as real == passes as real
    requires RateStats.Inverts(ci, rate, k as real, RateStats.Z95)
    ensures Scores(CaseStat(id, k, passes, rate, ci, Classify(passes, k)), passes, k - passes)
  {}

  lemma StatDescribes(sqrt: real -> real, rows: seq<VerdictRow>, id: string)
    requires IsSqrt(sqrt) && HasRows(rows, id)
    ensures ValuesOf(Pairs(rows), id) != []
    ensures Describes(StatOf(sqrt, id, ValuesOf(Pairs(rows), id)), rows, id)
  {
    OutcomesAreRows(rows, id);
    SomeOutcome(rows, id);
    StatScores(sqrt, id, ValuesOf(Pairs(rows), id));
  }

  // ----- the stats of a run -----

  /** One stat for each case of the rows, as `BuildCaseStats` makes them. */
  ghost predicate FromRows(sqrt: real -> real, rows: seq<VerdictRow>, stats: seq<CaseStat>) {
    && |stats| == |KeysInOrder(Pairs(rows))|
    && (forall i :: 0 <= i < |stats| ==>
         var id := KeysInOrder(Pairs(rows))[i];
         ValuesOf(Pairs(rows), id) != [] && stats[i] == StatOf(sqrt, id, ValuesOf(Pairs(rows), id)))
    && forall i, j :: 0 <= i < j < |stats| ==> stats[i].caseId != stats[j].caseId
  }

  lemma {:induction false} IndexedAt(stats: seq<CaseStat>, i: nat)
    requires i < |stats| && forall j, k :: 0 <= j < k < |stats| ==> stats[j].caseId != stats[k].caseId
    ensures stats[i].caseId in ById(stats) && ById(stats)[stats[i].caseId] == stats[i]
  {
    if i < |stats| - 1 { IndexedAt(stats[..|stats| - 1], i); }
  }

  lemma {:induction false} IndexedIds(stats: seq<CaseStat>, id: string)
    ensures id in ById(stats) <==> exists i :: 0 <= i < |stats| && stats[i].caseId == id
  {
    if stats != [] {
      var n := |stats| - 1;
      IndexedIds(stats[..n], id);
      assert forall i :: 0 <= i < n ==> stats[..n][i] == stats[i];
    }
  }

  lemma StatOfCase(sqrt: real -> real, rows: seq<VerdictRow>, stats: seq<CaseStat>, id: string)
    requires IsSqrt(sqrt) && FromRows(sqrt, rows, stats)
    ensures id in ById(stats) <==> HasRows(rows, id)
    ensures id in ById(stats) ==> Describes(ById(stats)[id], rows, id)
  {
    var keys := KeysInOrder(Pairs(rows));
    KeysAreTheKeys(Pairs(rows));
    SomeOutcome(rows, id);
    IndexedIds(stats, id);
    if id in ById(stats) {
      var i :| 0 <= i < |stats| && stats[i].caseId == id;
      assert keys[i] == id && id in keys;
      IndexedAt(stats, i);
      StatDescribes(sqrt, rows, id);
    }
    if HasRows(rows, id) {
      var i :| 0 <= i < |keys| && keys[i] == id;
      assert stats[i].caseId == id;
    }
  }

  /** A stat passes by majority of its repetitions when its rows do. */
  lemma MajorityOfRows(s: CaseStat, rows: seq<VerdictRow>, id: string)
    requires Describes(s, rows, id)
    ensures BinaryPass(s) <==> Passes(rows, id)
  {}

  lemma ChangeOfRows(sqrt: real -> real, before: seq<VerdictRow>, after: seq<VerdictRow>, b: seq<CaseStat>,
                     a: seq<CaseStat>, id: string, c: Change)
    requires IsSqrt(sqrt) && FromRows(sqrt, before, b) && FromRows(sqrt, after, a)
    requires id in ById(b) && id in ById(a)
    ensures ChangeOf(ById(b)[id], ById(a)[id]) == c <==> Went(before, after, id, c)
  {
    StatOfCase(sqrt, before, b, id);
    StatOfCase(sqrt, after, a, id);
    MajorityOfRows(ById(b)[id], before, id);
    MajorityOfRows(ById(a)[id], after, id);
  }

  // ----- the comparison -----

  ghost function CasesOf(rows: seq<VerdictRow>): set<string> { set i | 0 <= i < |rows| :: rows[i].caseId }

  /** The cases with rows in both runs that went one way. */
  ghost function Cases(before: seq<VerdictRow>, after: seq<VerdictRow>, c: Change): set<string> {
    set id | id in CasesOf(before) && HasRows(after, id) && Went(before, after, id, c)
  }

  lemma ChangedAreCases(sqrt: real -> real, before: seq<VerdictRow>, after: seq<VerdictRow>, b: seq<CaseStat>,
                        a: seq<CaseStat>, c: Change)
    requires IsSqrt(sqrt) && FromRows(sqrt, before, b) && FromRows(sqrt, after, a)
    ensures Changed(ById(b), ById(a), c) == Cases(before, after, c)
  {
    forall id
      ensures id in Changed(ById(b), ById(a), c) <==> id in Cases(before, after, c)
    {
      StatOfCase(sqrt, before, b, id);
      StatOfCase(sqrt, after, a, id);
      assert id in CasesOf(before) <==> HasRows(before, id);
      if id in ById(b) && id in ById(a) {
        ChangeOfRows(sqrt, before, after, b, a, id, c);
      }
    }
  }

  /** The three counts, and the exact test on those that changed. */
  ghost predicate Tested(r: PairedResult, improved: nat, regressed: nat, same: nat) {
    && r.improved == improved && r.regressed == regressed && r.same == same
    && Pow2(improved + regressed) > 0
    && r.pValue == RateStats.Share(ExtremeCount(improved, regressed), Pow2(improved + regressed))
  }

  /** The counts are of the cases that went each way. */
  ghost predicate Counts(r: PairedResult, before: seq<VerdictRow>, after: seq<VerdictRow>) {
    Tested(r, |Cases(before, after, Improved)|, |Cases(before, after, Regressed)|, |Cases(before, after, Unchanged)|)
  }

  lemma CountsAreTested(improved: nat, regressed: nat, same: nat, evasion: bool)
    ensures var r := Overridden(Judge(improved, regressed, same), evasion);
            Tested(r, improved, regressed, same) && (r.verdict == RegressionEvasion <==> evasion)
  {
    if improved + regressed == 0 {
      assert ExtremeCount(0, 0) == ExtremeWeight(0, 0, 1) == 1;
      DivLe(1.0, 1.0, 1.0);
    } else {
      McNemarIsTwoSidedExact(improved, regressed);
    }
  }

  lemma ComparisonCounts(sqrt: real -> real, before: seq<VerdictRow>, after: seq<VerdictRow>, b: seq<CaseStat>,
                         a: seq<CaseStat>, evasion: bool)
    requires IsSqrt(sqrt) && FromRows(sqrt, before, b) && FromRows(sqrt, after, a)
    ensures var r := Overridden(PairedStats.Compare(ById(b), ById(a)), evasion);
            Counts(r, before, after) && (r.verdict == RegressionEvasion <==> evasion)
  {
    ChangedAreCases(sqrt, before, after, b, a, Improved);
    ChangedAreCases(sqrt, before, after, b, a, Regressed);
    ChangedAreCases(sqrt, before, after, b, a, Unchanged);
    CountsAreTested(|Cases(before, after, Improved)|, |Cases(before, after, Regressed)|,
                    |Cases(before, after, Unchanged)|, evasion);
  }

  /** The delta of a case: its two stats, and which way it went. */
  ghost predicate DeltaOf(d: CaseDelta, before: seq<VerdictRow>, after: seq<VerdictRow>) {
    && Describes(d.before, before, d.caseId) && Describes(d.after, after, d.caseId)
    && Went(before, after, d.caseId, d.change)
  }

  /** One delta for each case with rows in both runs, the regressed ones first and the unchanged ones last. */
  ghost predicate Tabulates(deltas: seq<CaseDelta>, before: seq<VerdictRow>, after: seq<VerdictRow>) {
    && (forall d :: d in deltas ==> HasRows(before, d.caseId) && HasRows(after, d.caseId) && DeltaOf(d, before, after))
    && (forall id :: HasRows(before, id) && HasRows(after, id) ==> exists d :: d in deltas && d.caseId == id)
    && (forall i, j :: 0 <= i < j < |deltas| ==> deltas[i].caseId != deltas[j].caseId)
    && SortedByRank(deltas)
  }

  lemma {:induction false} JoinedAre(ids: seq<string>, b: map<string, CaseStat>, a: map<string, CaseStat>, d: CaseDelta)
    requires forall id :: id in ids ==> id in b
    ensures d in Joined(ids, b, a) <==>
            d.caseId in ids && d.caseId in a && d == CaseDelta(d.caseId, b[d.caseId], a[d.caseId],
                                                               ChangeOf(b[d.caseId], a[d.caseId]))
  {
    if ids != [] {
      var rest, id := ids[..|ids| - 1], ids[|ids| - 1];
      assert ids == rest + [id];
      JoinedAre(rest, b, a, d);
    }
  }

  lemma {:induction false} JoinedDistinct(ids: seq<string>, b: map<string, CaseStat>, a: map<string, CaseStat>)
    requires Distinct(ids) && forall id :: id in ids ==> id in b
    ensures forall i, j :: 0 <= i < j < |Joined(ids, b, a)| ==>
              Joined(ids, b, a)[i].caseId != Joined(ids, b, a)[j].caseId
  {
    if ids != [] {
      var rest, id := ids[..|ids| - 1], ids[|ids| - 1];
      assert ids == rest + [id];
      JoinedDistinct(rest, b, a);
      forall i | 0 <= i < |Joined(rest, b, a)|
        ensures Joined(rest, b, a)[i].caseId in rest
      {
        JoinedAre(rest, b, a, Joined(rest, b, a)[i]);
      }
      assert id !in rest;
    }
  }

  /** A rearrangement of deltas of different cases still has them of different cases. */
  lemma RearrangedDistinct(s: seq<CaseDelta>, t: seq<CaseDelta>)
    requires multiset(s) == multiset(t)
    requires forall i, j :: 0 <= i < j < |s| ==> s[i].caseId != s[j].caseId
    ensures forall i, j :: 0 <= i < j < |t| ==> t[i].caseId != t[j].caseId
  {
    forall i, j | 0 <= i < j < |t|
      ensures t[i].caseId != t[j].caseId
    {
      if t[i].caseId == t[j].caseId {
        TwoOfACase(s, t, i, j);
      }
    }
  }

  lemma TwoOfACase(s: seq<CaseDelta>, t: seq<CaseDelta>, i: nat, j: nat)
    requires multiset(s) == multiset(t) && i < j < |t|
    requires forall k, l :: 0 <= k < l < |s| ==> s[k].caseId != s[l].caseId
    ensures t[i].caseId != t[j].caseId
  {
    assert t[i] in multiset(s) && t[j] in multiset(s);
    var k :| 0 <= k < |s| && s[k] == t[i];
    var l :| 0 <= l < |s| && s[l] == t[j];
    if t[i] == t[j] {
      TwiceIn(t, i, j);
      OnceIn(s, k);
    }
  }

  lemma TwiceIn<T>(t: seq<T>, i: nat, j: nat)
    requires i < j < |t| && t[i] == t[j]
    ensures multiset(t)[t[i]] >= 2
  {
    assert t == t[..j] + t[j..];
    assert t[i] in t[..j] && t[j] in t[j..];
  }

  lemma OnceIn(s: seq<CaseDelta>, k: nat)
    requires k < |s| && forall i, j :: 0 <= i < j < |s| ==> s[i].caseId != s[j].caseId
    ensures multiset(s)[s[k]] == 1
  {
    assert s == s[..k] + [s[k]] + s[k + 1..];
    assert s[k] !in s[..k] && s[k] !in s[k + 1..];
  }

  lemma TableTabulates(sqrt: real -> real, before: seq<VerdictRow>, after: seq<VerdictRow>, b: seq<CaseStat>,
                       a: seq<CaseStat>)
    requires IsSqrt(sqrt) && FromRows(sqrt, before, b) && FromRows(sqrt, after, a)
    requires Distinct(CaseIds(b)) && forall id :: id in CaseIds(b) <==> id in ById(b)
    ensures Tabulates(StableSort(Joined(CaseIds(b), ById(b), ById(a))), before, after)
  {
    var joined := Joined(CaseIds(b), ById(b), ById(a));
    var deltas := StableSort(joined);
    StableSortIsTheStableSort(joined, deltas);
    PicksPartition(joined);
    JoinedDistinct(CaseIds(b), ById(b), ById(a));
    RearrangedDistinct(joined, deltas);
    forall d | d in deltas
      ensures HasRows(before, d.caseId) && HasRows(after, d.caseId) && DeltaOf(d, before, after)
    {
      assert d in multiset(deltas) && d in multiset(joined);
      JoinedAre(CaseIds(b), ById(b), ById(a), d);
      StatOfCase(sqrt, before, b, d.caseId);
      StatOfCase(sqrt, after, a, d.caseId);
      ChangeOfRows(sqrt, before, after, b, a, d.caseId, d.change);
    }
    forall id | HasRows(before, id) && HasRows(after, id)
      ensures exists d :: d in deltas && d.caseId == id
    {
      StatOfCase(sqrt, before, b, id);
      StatOfCase(sqrt, after, a, id);
      var d := CaseDelta(id, ById(b)[id], ById(a)[id], ChangeOf(ById(b)[id], ById(a)[id]));
      JoinedAre(CaseIds(b), ById(b), ById(a), d);
      assert d in multiset(joined) && d in multiset(deltas);
    }
  }

  lemma DistinctIds(sqrt: real -> real, rows: seq<VerdictRow>, stats: seq<CaseStat>)
    requires FromRows(sqrt, rows, stats)
    ensures Distinct(CaseIds(stats))
  {
    forall i, j | 0 <= i < j < |CaseIds(stats)|
      ensures CaseIds(stats)[i] != CaseIds(stats)[j]
    {
      assert stats[i].caseId != stats[j].caseId;
    }
  }

  method StatsOf(sqrt: real -> real, rows: seq<VerdictRow>) returns (stats: seq<CaseStat>)
    ensures FromRows(sqrt, rows, stats)
  {
    stats := BuildCaseStats(sqrt, rows);
  }

  /** MAIN. Two runs compared from their rows: the counts are those of the cases with rows in both that go, by
      majority of their rows, from failing to passing, back, or neither; the table has one delta for each of them,
      with the stats of its rows; and the p-value is the exact test of the two counts of changes. */
  method CompareRows(sqrt: real -> real, before: seq<VerdictRow>, after: seq<VerdictRow>, battery: string -> Battery)
    returns (deltas: seq<CaseDelta>, r: PairedResult)
    requires IsSqrt(sqrt)
    ensures Tabulates(deltas, before, after) && Counts(r, before, after)
    ensures r.verdict == RegressionEvasion <==> EvasionFires(MovesOf(deltas, battery))
  {
    var b := StatsOf(sqrt, before);
    var a := StatsOf(sqrt, after);
    DistinctIds(sqrt, before, b);
    deltas, r := CompareRuns(b, a, battery);
    TableTabulates(sqrt, before, after, b, a);
    ComparisonCounts(sqrt, before, after, b, a, EvasionFires(MovesOf(deltas, battery)));
  }
}
