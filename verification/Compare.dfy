/** The run comparison of `evals/compare.py`: case stats, the delta table and evasion. */
module Compare {
  import opened PairedStats
  import opened Counting
  import opened Grouping
  import opened Numbers
  import RateStats

  /** One unified verdict row. */
  datatype VerdictRow = VerdictRow(caseId: string, passed: bool)

  function Pairs(rows: seq<VerdictRow>): seq<(string, bool)> {
    seq(|rows|, i requires 0 <= i < |rows| => (rows[i].caseId, rows[i].passed))
  }

  function Classify(passes: nat, k: nat): Classification
    requires k > 0
  {
    if passes == k then StablePass else if passes == 0 then StableFail else Flaky
  }

  /** The stat of one case, from the outcomes of all its rows. */
  function StatOf(sqrt: real -> real, caseId: string, v: seq<bool>): CaseStat
    requires v != []
  {
    CountTrueBound(v);
    CaseStat(caseId, |v|, CountTrue(v), RateStats.Share(CountTrue(v), |v|),
             RateStats.WilsonInterval(sqrt, CountTrue(v), |v|, RateStats.Z95).value, Classify(CountTrue(v), |v|))
  }

  /** All the rows of a case, from both verdict sources, become one stat. */
  method BuildCaseStats(sqrt: real -> real, rows: seq<VerdictRow>) returns (stats: seq<CaseStat>)
    ensures |stats| == |KeysInOrder(Pairs(rows))|
    ensures forall i :: 0 <= i < |stats| ==>
              var id := KeysInOrder(Pairs(rows))[i];
              ValuesOf(Pairs(rows), id) != [] && stats[i] == StatOf(sqrt, id, ValuesOf(Pairs(rows), id))
    ensures forall i, j :: 0 <= i < j < |stats| ==> stats[i].caseId != stats[j].caseId
  {
    var keys, groups := GroupBy(Pairs(rows));
    KeysAreTheKeys(Pairs(rows));
    stats := [];
    for n := 0 to |keys|
      invariant |stats| == n
      invariant forall i :: 0 <= i < n ==>
                  ValuesOf(Pairs(rows), keys[i]) != []
                    && stats[i] == StatOf(sqrt, keys[i], ValuesOf(Pairs(rows), keys[i]))
    {
      assert keys[n] in keys;
      stats := stats + [StatOf(sqrt, keys[n], groups[keys[n]])];
    }
  }

  /** A case is called stable exactly when its interval reaches an end of the unit interval, and which end
      says what it is stable at. */
  lemma StableCasesReachAnEnd(sqrt: real -> real, caseId: string, v: seq<bool>)
    requires IsSqrt(sqrt) && v != []
    ensures var s := StatOf(sqrt, caseId, v);
            && 0.0 <= s.ci.low <= s.passRate <= s.ci.high <= 1.0
            && (s.classification == StablePass <==> s.ci.high == 1.0)
            && (s.classification == StableFail <==> s.ci.low == 0.0)
            && (s.classification == StablePass <==> forall i :: 0 <= i < |v| ==> v[i])
            && (s.classification == StableFail <==> forall i :: 0 <= i < |v| ==> !v[i])
  {
    CountTrueBound(v);
    AllOrNone(v);
    RateStats.WilsonIsScoreInterval(sqrt, CountTrue(v), |v|, RateStats.Z95);
  }

  lemma {:induction false} AllOrNone(v: seq<bool>)
    ensures CountTrue(v) <= |v|
    ensures CountTrue(v) == |v| <==> forall i :: 0 <= i < |v| ==> v[i]
    ensures CountTrue(v) == 0 <==> forall i :: 0 <= i < |v| ==> !v[i]
  {
    if v != [] {
      var n := |v| - 1;
      AllOrNone(v[..n]);
      assert forall i :: 0 <= i < n ==> v[..n][i] == v[i];
      assert v[..n] != v;
    }
  }

  datatype CaseDelta = CaseDelta(caseId: string, before: CaseStat, after: CaseStat, change: Change)

  function Rank(c: Change): nat {
    match c case Regressed => 0 case Improved => 1 case Unchanged => 2
  }

  /** The deltas of the given kind, in order. */
  function Pick(ds: seq<CaseDelta>, c: Change): seq<CaseDelta> {
    if ds == [] then []
    else Pick(ds[..|ds| - 1], c) + if ds[|ds| - 1].change == c then [ds[|ds| - 1]] else []
  }

  ghost predicate SortedByRank(ds: seq<CaseDelta>) {
    forall i, j :: 0 <= i < j < |ds| ==> Rank(ds[i].change) <= Rank(ds[j].change)
  }

  /** Python's stable sort on the rank of the change. */
  function StableSort(ds: seq<CaseDelta>): seq<CaseDelta> {
    Pick(ds, Regressed) + Pick(ds, Improved) + Pick(ds, Unchanged)
  }

  lemma {:induction false} PickIsPure(ds: seq<CaseDelta>, c: Change)
    ensures forall d :: d in Pick(ds, c) <==> d in ds && d.change == c
  {
    if ds != [] {
      PickIsPure(ds[..|ds| - 1], c);
      assert ds == ds[..|ds| - 1] + [ds[|ds| - 1]];
    }
  }

  lemma {:induction false} PickConcat(a: seq<CaseDelta>, b: seq<CaseDelta>, c: Change)
    ensures Pick(a + b, c) == Pick(a, c) + Pick(b, c)
  {
    if b == [] {
      assert a + b == a;
    } else {
      assert (a + b)[..|a + b| - 1] == a + b[..|b| - 1];
      PickConcat(a, b[..|b| - 1], c);
    }
  }

  lemma {:induction false} NonePicked(ds: seq<CaseDelta>, c: Change)
    requires forall x :: 0 <= x < |ds| ==> ds[x].change != c
    ensures Pick(ds, c) == []
  {
    if ds != [] { NonePicked(ds[..|ds| - 1], c); }
  }

  lemma {:induction false} AllPicked(ds: seq<CaseDelta>, c: Change)
    requires forall x :: 0 <= x < |ds| ==> ds[x].change == c
    ensures Pick(ds, c) == ds
  {
    if ds != [] { AllPicked(ds[..|ds| - 1], c); }
  }

  lemma PickOfPick(ds: seq<CaseDelta>, c: Change, c': Change)
    ensures Pick(Pick(ds, c), c') == if c == c' then Pick(ds, c) else []
  {
    PickIsPure(ds, c);
    assert forall x :: 0 <= x < |Pick(ds, c)| ==> Pick(ds, c)[x] in Pick(ds, c);
    if c == c' { AllPicked(Pick(ds, c), c); } else { NonePicked(Pick(ds, c), c'); }
  }

  lemma {:induction false} PickMultiplicity(ds: seq<CaseDelta>, c: Change, d: CaseDelta)
    ensures multiset(Pick(ds, c))[d] == if d.change == c then multiset(ds)[d] else 0
  {
    if ds != [] {
      PickMultiplicity(ds[..|ds| - 1], c, d);
      assert ds == ds[..|ds| - 1] + [ds[|ds| - 1]];
    }
  }

  lemma PicksPartition(ds: seq<CaseDelta>)
    ensures multiset(StableSort(ds)) == multiset(ds)
  {
    forall d
      ensures multiset(StableSort(ds))[d] == multiset(ds)[d]
    {
      PickMultiplicity(ds, Regressed, d);
      PickMultiplicity(ds, Improved, d);
      PickMultiplicity(ds, Unchanged, d);
    }
  }

  /** MAIN. The sort keeps every delta, puts regressions first, then improvements, and leaves the
      order inside each kind alone; and nothing else does. */
  lemma {:induction false} StableSortIsTheStableSort(ds: seq<CaseDelta>, s: seq<CaseDelta>)
    ensures multiset(StableSort(ds)) == multiset(ds) && SortedByRank(StableSort(ds))
    ensures forall c :: Pick(StableSort(ds), c) == Pick(ds, c)
    ensures SortedByRank(s) && (forall c :: Pick(s, c) == Pick(ds, c)) ==> s == StableSort(ds)
  {
    PicksPartition(ds);
    var r, i, u := Pick(ds, Regressed), Pick(ds, Improved), Pick(ds, Unchanged);
    PickIsPure(ds, Regressed);
    PickIsPure(ds, Improved);
    PickIsPure(ds, Unchanged);
    forall c
      ensures Pick(StableSort(ds), c) == Pick(ds, c)
    {
      SortKeepsPicks(ds, c);
    }
    SortedBlocks(r, i, u);
    if SortedByRank(s) && (forall c :: Pick(s, c) == Pick(ds, c)) {
      SortedIsItsPicks(s);
    }
  }

  lemma SortKeepsPicks(ds: seq<CaseDelta>, c: Change)
    ensures Pick(StableSort(ds), c) == Pick(ds, c)
  {
    PickConcat(Pick(ds, Regressed) + Pick(ds, Improved), Pick(ds, Unchanged), c);
    PickConcat(Pick(ds, Regressed), Pick(ds, Improved), c);
    PickOfPick(ds, Regressed, c);
    PickOfPick(ds, Improved, c);
    PickOfPick(ds, Unchanged, c);
    assert [] + Pick(ds, c) == Pick(ds, c) == Pick(ds, c) + [];
  }

  lemma SortedBlocks(r: seq<CaseDelta>, i: seq<CaseDelta>, u: seq<CaseDelta>)
    requires forall d :: d in r ==> d.change == Regressed
    requires forall d :: d in i ==> d.change == Improved
    requires forall d :: d in u ==> d.change == Unchanged
    ensures SortedByRank(r + i + u)
  {
    var s := r + i + u;
    forall x, y | 0 <= x < y < |s|
      ensures Rank(s[x].change) <= Rank(s[y].change)
    {
      assert s[x] == if x < |r| then r[x] else if x < |r| + |i| then i[x - |r|] else u[x - |r| - |i|];
      assert s[y] == if y < |r| then r[y] else if y < |r| + |i| then i[y - |r|] else u[y - |r| - |i|];
    }
  }

  lemma {:induction false} SortedIsItsPicks(s: seq<CaseDelta>)
    requires SortedByRank(s)
    ensures s == StableSort(s)
  {
    if s != [] {
      var rest, last := s[..|s| - 1], s[|s| - 1];
      assert s == rest + [last];
      SortedIsItsPicks(rest);
      forall c | Rank(c) > Rank(last.change) { NonePicked(rest, c); }
      SortSnoc(rest, last);
    }
  }

  lemma SortSnoc(rest: seq<CaseDelta>, last: CaseDelta)
    requires forall c :: Rank(c) > Rank(last.change) ==> Pick(rest, c) == []
    ensures StableSort(rest + [last]) == StableSort(rest) + [last]
  {
    assert (rest + [last])[..|rest|] == rest;
    match last.change
    case Regressed => assert Pick(rest, Improved) == [] && Pick(rest, Unchanged) == [];
    case Improved => assert Pick(rest, Unchanged) == [];
    case Unchanged =>
  }

  /** The inner join in the reference run's order, before sorting. */
  function Joined(ids: seq<string>, before: map<string, CaseStat>, after: map<string, CaseStat>): seq<CaseDelta>
    requires forall id :: id in ids ==> id in before
  {
    if ids == [] then []
    else
      var rest, id := ids[..|ids| - 1], ids[|ids| - 1];
      Joined(rest, before, after)
      + if id in after then [CaseDelta(id, before[id], after[id], ChangeOf(before[id], after[id]))] else []
  }

  /** The table for the insertion-ordered ids of the reference run. */
  method BuildDeltaTable(ids: seq<string>, before: map<string, CaseStat>, after: map<string, CaseStat>)
    returns (deltas: seq<CaseDelta>)
    requires Distinct(ids) && forall id :: id in ids <==> id in before
    ensures deltas == StableSort(Joined(ids, before, after))
  {
    deltas := [];
    for n := 0 to |ids|
      invariant deltas == Joined(ids[..n], before, after)
    {
      assert ids[..n + 1][..n] == ids[..n];
      var id := ids[n];
      if id in after {
        deltas := deltas + [CaseDelta(id, before[id], after[id], ChangeOf(before[id], after[id]))];
      }
    }
    assert ids[..|ids|] == ids;
    deltas := StableSort(deltas);
  }

  function Hits(ids: seq<string>, before: map<string, CaseStat>, after: map<string, CaseStat>, c: Change): set<string>
    requires forall id :: id in ids ==> id in before
  {
    set id | id in ids && id in after && ChangeOf(before[id], after[id]) == c
  }

  lemma HitsSnoc(rest: seq<string>, id: string, before: map<string, CaseStat>, after: map<string, CaseStat>, c: Change)
    requires id !in rest && forall i :: i in rest + [id] ==> i in before
    ensures forall i :: i in rest ==> i in before
    ensures |Hits(rest + [id], before, after, c)|
            == |Hits(rest, before, after, c)| + if id in after && ChangeOf(before[id], after[id]) == c then 1 else 0
  {
    forall i | i in rest ensures i in before { assert i in rest + [id]; }
    assert id in rest + [id];
    if id in after && ChangeOf(before[id], after[id]) == c {
      assert Hits(rest + [id], before, after, c) == Hits(rest, before, after, c) + {id};
    } else {
      assert Hits(rest + [id], before, after, c) == Hits(rest, before, after, c);
    }
  }

  lemma {:induction false} JoinedCounts(ids: seq<string>, before: map<string, CaseStat>, after: map<string, CaseStat>,
                                        c: Change)
    requires Distinct(ids) && forall id :: id in ids ==> id in before
    ensures |Pick(Joined(ids, before, after), c)| == |Hits(ids, before, after, c)|
  {
    if ids == [] {
      assert Hits(ids, before, after, c) == {};
    } else {
      var rest, id := ids[..|ids| - 1], ids[|ids| - 1];
      assert ids == rest + [id];
      JoinedCounts(rest, before, after, c);
      HitsSnoc(rest, id, before, after, c);
      assert Hits(ids, before, after, c) == Hits(rest + [id], before, after, c);
      if id in after {
        var last := CaseDelta(id, before[id], after[id], ChangeOf(before[id], after[id]));
        PickConcat(Joined(rest, before, after), [last], c);
        assert Pick([last], c) == if last.change == c then [last] else [];
      } else {
        assert Joined(ids, before, after) == Joined(rest, before, after);
      }
    }
  }

  /** MAIN. The delta table shows exactly the counts the paired test judged, regressions first. */
  lemma TableAgreesWithTest(ids: seq<string>, before: map<string, CaseStat>, after: map<string, CaseStat>)
    requires Distinct(ids) && forall id :: id in ids <==> id in before
    ensures var t, r := StableSort(Joined(ids, before, after)), Compare(before, after);
            && SortedByRank(t)
            && |Pick(t, Regressed)| == r.regressed && |Pick(t, Improved)| == r.improved
            && |Pick(t, Unchanged)| == r.same && |t| == |before.Keys * after.Keys|
  {
    var joined := Joined(ids, before, after);
    StableSortIsTheStableSort(joined, joined);
    ChangedPartition(before, after);
    TableCount(ids, before, after, Regressed);
    TableCount(ids, before, after, Improved);
    TableCount(ids, before, after, Unchanged);
  }

  lemma TableCount(ids: seq<string>, before: map<string, CaseStat>, after: map<string, CaseStat>, c: Change)
    requires Distinct(ids) && forall id :: id in ids <==> id in before
    ensures |Pick(Joined(ids, before, after), c)| == |Changed(before, after, c)|
  {
    JoinedCounts(ids, before, after, c);
    assert Changed(before, after, c) == Hits(ids, before, after, c);
  }

  // ----- evasion -----

  datatype Battery = Guard | Capability | Excluded | Unknown

  /** What evasion reads of a delta: the battery of its case id and its change. */
  datatype Move = Move(battery: Battery, change: Change)

  function Count(ms: seq<Move>, m: Move): nat {
    if ms == [] then 0 else Count(ms[..|ms| - 1], m) + if ms[|ms| - 1] == m then 1 else 0
  }

  /** What the code tests: every case that is not a capability case feeds the guard side. */
  predicate EvasionFires(ms: seq<Move>) {
    && Count(ms, Move(Capability, Regressed)) > Count(ms, Move(Capability, Improved))
    && Count(ms, Move(Guard, Improved)) + Count(ms, Move(Excluded, Improved))
       > Count(ms, Move(Guard, Regressed)) + Count(ms, Move(Excluded, Regressed))
  }

  /** What the documentation says: cases of neither battery do not contribute. */
  predicate EvasionDocumented(ms: seq<Move>) {
    && Count(ms, Move(Capability, Regressed)) > Count(ms, Move(Capability, Improved))
    && Count(ms, Move(Guard, Improved)) > Count(ms, Move(Guard, Regressed))
  }

  /** The loop over the table with its four counters; an unknown prefix is skipped. */
  method DetectEvasion(ms: seq<Move>) returns (fires: bool)
    ensures fires == EvasionFires(ms)
  {
    var capDown, capUp, guardUp, guardDown := 0, 0, 0, 0;
    for n := 0 to |ms|
      invariant capDown == Count(ms[..n], Move(Capability, Regressed))
      invariant capUp == Count(ms[..n], Move(Capability, Improved))
      invariant guardUp == Count(ms[..n], Move(Guard, Improved)) + Count(ms[..n], Move(Excluded, Improved))
      invariant guardDown == Count(ms[..n], Move(Guard, Regressed)) + Count(ms[..n], Move(Excluded, Regressed))
    {
      assert ms[..n + 1][..n] == ms[..n];
      if ms[n].battery == Unknown {
      } else if ms[n].battery == Capability {
        if ms[n].change == Regressed {
          capDown := capDown + 1;
        } else if ms[n].change == Improved {
          capUp := capUp + 1;
        }
      } else {
        if ms[n].change == Improved {
          guardUp := guardUp + 1;
        } else if ms[n].change == Regressed {
          guardDown := guardDown + 1;
        }
      }
    }
    assert ms[..|ms|] == ms;
    fires := capDown > capUp && guardUp > guardDown;
  }

  function Moves(batteries: seq<Battery>, changes: seq<Change>): seq<Move>
    requires |batteries| == |changes|
  {
    seq(|batteries|, i requires 0 <= i < |batteries| => Move(batteries[i], changes[i]))
  }

  lemma {:induction false} CountPositive(ms: seq<Move>, m: Move)
    ensures Count(ms, m) > 0 <==> m in ms
  {
    if ms != [] {
      CountPositive(ms[..|ms| - 1], m);
      assert ms == ms[..|ms| - 1] + [ms[|ms| - 1]];
    }
  }

  /** The changes in which case i improves, case j regresses and nothing else moves. */
  function Swing(n: nat, i: nat, j: nat): seq<Change> {
    seq(n, x requires 0 <= x < n => if x == i then Improved else if x == j then Regressed else Unchanged)
  }

  /** MAIN. For a given set of cases, the code agrees with its documentation whatever the changes
      exactly when there is no excluded case or no capability case among them. */
  lemma EvasionMatchesDocumentation(batteries: seq<Battery>)
    ensures (forall changes: seq<Change> :: |changes| == |batteries| ==>
               (EvasionFires(Moves(batteries, changes)) <==> EvasionDocumented(Moves(batteries, changes))))
            <==> Excluded !in batteries || Capability !in batteries
  {
    if Excluded in batteries && Capability in batteries {
      var i :| 0 <= i < |batteries| && batteries[i] == Excluded;
      var j :| 0 <= j < |batteries| && batteries[j] == Capability;
      var changes := Swing(|batteries|, i, j);
      var ms := Moves(batteries, changes);
      assert ms[i] == Move(Excluded, Improved) && ms[j] == Move(Capability, Regressed);
      forall m { CountPositive(ms, m); }
      assert EvasionFires(ms) && !EvasionDocumented(ms);
    } else {
      forall changes: seq<Change> | |changes| == |batteries|
        ensures EvasionFires(Moves(batteries, changes)) <==> EvasionDocumented(Moves(batteries, changes))
      {
        forall m { CountPositive(Moves(batteries, changes), m); }
      }
    }
  }

  // ----- the verdict of a run -----

  function MovesOf(deltas: seq<CaseDelta>, battery: string -> Battery): seq<Move> {
    seq(|deltas|, i requires 0 <= i < |deltas| => Move(battery(deltas[i].caseId), deltas[i].change))
  }

  function CaseIds(stats: seq<CaseStat>): seq<string> {
    seq(|stats|, i requires 0 <= i < |stats| => stats[i].caseId)
  }

  /** Evasion replaces whatever verdict the test gave. */
  function Overridden(r: PairedResult, evasion: bool): PairedResult {
    if evasion then r.(verdict := RegressionEvasion) else r
  }

  lemma {:induction false} IdsAreIndexed(stats: seq<CaseStat>)
    ensures forall id :: id in CaseIds(stats) <==> id in ById(stats)
  {
    if stats != [] {
      IdsAreIndexed(stats[..|stats| - 1]);
      assert CaseIds(stats) == CaseIds(stats[..|stats| - 1]) + [stats[|stats| - 1].caseId];
    }
  }

  /** The paired test over the two runs, the delta table, and the verdict after evasion. */
  method CompareRuns(before: seq<CaseStat>, after: seq<CaseStat>, battery: string -> Battery)
    returns (deltas: seq<CaseDelta>, r: PairedResult)
    requires Distinct(CaseIds(before))
    ensures forall id :: id in CaseIds(before) <==> id in ById(before)
    ensures deltas == StableSort(Joined(CaseIds(before), ById(before), ById(after)))
    ensures r == Overridden(Compare(ById(before), ById(after)), EvasionFires(MovesOf(deltas, battery)))
  {
    IdsAreIndexed(before);
    var beforeMap := IndexById(before);
    var afterMap := IndexById(after);
    r := PairedCompare(before, after);
    deltas := BuildDeltaTable(CaseIds(before), beforeMap, afterMap);
    var evasion := DetectEvasion(MovesOf(deltas, battery));
    if evasion {
      r := PairedResult(r.improved, r.regressed, r.same, r.pValue, RegressionEvasion);
    }
  }

  /** All moves of one kind, whatever the battery. */
  function Total(ms: seq<Move>, c: Change): nat {
    Count(ms, Move(Guard, c)) + Count(ms, Move(Capability, c)) + Count(ms, Move(Excluded, c))
      + Count(ms, Move(Unknown, c))
  }

  lemma {:induction false} PicksAreTotals(deltas: seq<CaseDelta>, battery: string -> Battery, c: Change)
    ensures |Pick(deltas, c)| == Total(MovesOf(deltas, battery), c)
  {
    if deltas != [] {
      var n := |deltas| - 1;
      PicksAreTotals(deltas[..n], battery, c);
      assert MovesOf(deltas, battery)[..n] == MovesOf(deltas[..n], battery);
      match battery(deltas[n].caseId)
      case Guard =>
      case Capability =>
      case Excluded =>
      case Unknown =>
    }
  }

  /** The comparison can be read off the moves of the table. */
  lemma ComparisonOfMoves(ids: seq<string>, before: map<string, CaseStat>, after: map<string, CaseStat>,
                          battery: string -> Battery)
    requires Distinct(ids) && forall id :: id in ids <==> id in before
    ensures var ms := MovesOf(StableSort(Joined(ids, before, after)), battery);
            Compare(before, after) == Judge(Total(ms, Improved), Total(ms, Regressed), Total(ms, Unchanged))
  {
    var t := StableSort(Joined(ids, before, after));
    TableAgreesWithTest(ids, before, after);
    PicksAreTotals(t, battery, Improved);
    PicksAreTotals(t, battery, Regressed);
    PicksAreTotals(t, battery, Unchanged);
  }
}
