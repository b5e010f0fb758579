/** Reconciling imported labels with the stored ones, after `evals/label_merge.py`. */
module LabelMerge {
  import opened CalibrationRecords
  import opened Options

  datatype MergeResult = MergeResult(rows: Rows, preserved: nat, added: nat, drifted: seq<string>,
                                     orphaned: seq<string>)

  datatype MergeOutcome = Merged(value: MergeResult) | DuplicateKey(recordId: string, scorer: string)

  /** Both sides carry a criteria hash and they differ. */
  predicate HasDrifted(existing: CalibrationLabel, incoming: CalibrationLabel) {
    existing.criteriaSha256 != "" && incoming.criteriaSha256 != "" && existing.criteriaSha256 != incoming.criteriaSha256
  }

  /** The machine-derived fields are taken over from the incoming row. */
  function WithMachineFields(existing: CalibrationLabel, incoming: CalibrationLabel): CalibrationLabel {
    existing.(outputText := incoming.outputText, scorerVerdict := incoming.scorerVerdict,
              criteria := incoming.criteria, playerMessage := incoming.playerMessage,
              observed := incoming.observed, genId := incoming.genId,
              goldenSetVersion := incoming.goldenSetVersion, outputSha256 := incoming.outputSha256,
              criteriaSha256 := incoming.criteriaSha256)
  }

  function Refresh(existing: CalibrationLabel, incoming: CalibrationLabel, replacePreLabel: bool): CalibrationLabel {
    var refreshed := WithMachineFields(existing, incoming);
    var labelled :=
      if replacePreLabel then refreshed.(preLabel := incoming.preLabel, preLabellerModel := incoming.preLabellerModel)
      else if HasDrifted(existing, incoming) then refreshed.(preLabel := None, preLabellerModel := "")
      else refreshed;
    if HasDrifted(existing, incoming) && existing.humanVerdict.Some? then labelled.(needsReview := true) else labelled
  }

  // ----- what the merge is, row by row -----

  function MergedRow(prior: CalibrationLabel, incoming: Rows, replacePreLabel: bool): CalibrationLabel {
    match Lookup(incoming, prior.Key())
    case None => prior
    case Some(new') => Refresh(prior, new', replacePreLabel)
  }

  function Refreshed(existing: Rows, incoming: Rows, replacePreLabel: bool): Rows {
    seq(|existing|, i requires 0 <= i < |existing| => MergedRow(existing[i], incoming, replacePreLabel))
  }

  /** The rows whose key the other side does not have. */
  function Missing(rows: Rows, other: Rows): Rows {
    if rows == [] then []
    else
      var front := Missing(rows[..|rows| - 1], other);
      if Lookup(other, rows[|rows| - 1].Key()).None? then front + [rows[|rows| - 1]] else front
  }

  predicate Drifts(prior: CalibrationLabel, incoming: Rows) {
    var m := Lookup(incoming, prior.Key());
    m.Some? && HasDrifted(prior, m.value)
  }

  function DriftedRows(existing: Rows, incoming: Rows): Rows {
    if existing == [] then []
    else
      var front := DriftedRows(existing[..|existing| - 1], incoming);
      if Drifts(existing[|existing| - 1], incoming) then front + [existing[|existing| - 1]] else front
  }

  function RecordIds(rows: Rows): seq<string> {
    seq(|rows|, i requires 0 <= i < |rows| => rows[i].recordId)
  }

  function Adjudicated(rows: Rows): nat {
    if rows == [] then 0 else Adjudicated(rows[..|rows| - 1]) + if rows[|rows| - 1].humanVerdict.Some? then 1 else 0
  }

  /** Adjudicated rows the incoming set also has. */
  function Preserved(existing: Rows, incoming: Rows): nat {
    if existing == [] then 0
    else
      var last := existing[|existing| - 1];
      Preserved(existing[..|existing| - 1], incoming)
      + if Lookup(incoming, last.Key()).Some? && last.humanVerdict.Some? then 1 else 0
  }

  function Merge(existing: Rows, incoming: Rows, replacePreLabel: bool): MergeResult {
    var added := Missing(incoming, existing);
    MergeResult(Refreshed(existing, incoming, replacePreLabel) + added, Preserved(existing, incoming), |added|,
                RecordIds(DriftedRows(existing, incoming)), RecordIds(Missing(existing, incoming)))
  }

  // ----- the loops -----

  ghost predicate Indexes(byKey: map<Key, CalibrationLabel>, rows: Rows) {
    forall k :: (k in byKey <==> Lookup(rows, k).Some?) && (k in byKey ==> Lookup(rows, k) == Some(byKey[k]))
  }

  ghost function RepeatedKeys(rows: Rows): set<Key> {
    set i, j | 0 <= i < j < |rows| && rows[i].Key() == rows[j].Key() :: rows[i].Key()
  }

  /** Indexes rows by key, rejecting a repeated one. */
  method Index(rows: Rows) returns (dup: Option<Key>, out: map<Key, CalibrationLabel>)
    ensures dup.None? <==> UniqueKeys(rows)
    ensures dup.None? ==> Indexes(out, rows)
    ensures dup.Some? ==> dup.value in RepeatedKeys(rows)
  {
    out := map[];
    for n := 0 to |rows|
      invariant UniqueKeys(rows[..n])
      invariant Indexes(out, rows[..n])
    {
      assert rows[..n + 1][..n] == rows[..n];
      var key := rows[n].Key();
      LookupFinds(rows[..n], key);
      if key in out {
        var i :| 0 <= i < n && rows[..n][i].Key() == key;
        assert rows[i].Key() == rows[n].Key();
        return Some(key), map[];
      }
      assert forall i :: 0 <= i < n ==> rows[..n][i] == rows[i];
      out := out[key := rows[n]];
    }
    assert rows[..|rows|] == rows;
    dup := None;
  }

  lemma OneMoreRow(existing: Rows, n: nat, incoming: Rows, replacePreLabel: bool)
    requires n < |existing|
    ensures Refreshed(existing[..n + 1], incoming, replacePreLabel)
         == Refreshed(existing[..n], incoming, replacePreLabel) + [MergedRow(existing[n], incoming, replacePreLabel)]
    ensures RecordIds(DriftedRows(existing[..n + 1], incoming))
         == RecordIds(DriftedRows(existing[..n], incoming))
            + if Drifts(existing[n], incoming) then [existing[n].recordId] else []
    ensures Preserved(existing[..n + 1], incoming)
         == Preserved(existing[..n], incoming)
            + if Lookup(incoming, existing[n].Key()).Some? && existing[n].humanVerdict.Some? then 1 else 0
  {
    assert existing[..n + 1][..n] == existing[..n];
  }

  /** The pass over the existing rows. */
  method RefreshAll(existing: Rows, ghost incoming: Rows, incomingByKey: map<Key, CalibrationLabel>,
                    replacePreLabel: bool)
    returns (merged: Rows, drifted: seq<string>, preserved: nat)
    requires Indexes(incomingByKey, incoming)
    ensures merged == Refreshed(existing, incoming, replacePreLabel)
    ensures drifted == RecordIds(DriftedRows(existing, incoming))
    ensures preserved == Preserved(existing, incoming)
  {
    merged, drifted, preserved := [], [], 0;
    for n := 0 to |existing|
      invariant merged == Refreshed(existing[..n], incoming, replacePreLabel)
      invariant drifted == RecordIds(DriftedRows(existing[..n], incoming))
      invariant preserved == Preserved(existing[..n], incoming)
    {
      OneMoreRow(existing, n, incoming, replacePreLabel);
      var prior := existing[n];
      if prior.Key() !in incomingByKey {
        merged := merged + [prior];
        continue;
      }
      var new' := incomingByKey[prior.Key()];
      if HasDrifted(prior, new') {
        drifted := drifted + [prior.recordId];
      }
      merged := merged + [Refresh(prior, new', replacePreLabel)];
      if prior.humanVerdict.Some? {
        preserved := preserved + 1;
      }
    }
    assert existing[..|existing|] == existing;
  }

  /** The rows whose key the other index lacks, in order. */
  method Unseen(rows: Rows, ghost other: Rows, otherByKey: map<Key, CalibrationLabel>) returns (out: Rows)
    requires Indexes(otherByKey, other)
    ensures out == Missing(rows, other)
  {
    out := [];
    for n := 0 to |rows|
      invariant out == Missing(rows[..n], other)
    {
      assert rows[..n + 1][..n] == rows[..n];
      if rows[n].Key() !in otherByKey {
        out := out + [rows[n]];
      }
    }
    assert rows[..|rows|] == rows;
  }

  /** The dictionaries and loops compute `Merge`; a repeated key on either side is refused. */
  method MergeLabels(existing: Rows, incoming: Rows, replacePreLabel: bool) returns (r: MergeOutcome)
    ensures r.Merged? <==> UniqueKeys(existing) && UniqueKeys(incoming)
    ensures r.Merged? ==> r.value == Merge(existing, incoming, replacePreLabel)
    ensures r.DuplicateKey? ==>
              (r.recordId, r.scorer) in RepeatedKeys(existing) || (r.recordId, r.scorer) in RepeatedKeys(incoming)
  {
    var dupExisting, existingByKey := Index(existing);
    if dupExisting.Some? {
      return DuplicateKey(dupExisting.value.0, dupExisting.value.1);
    }
    var dupIncoming, incomingByKey := Index(incoming);
    if dupIncoming.Some? {
      return DuplicateKey(dupIncoming.value.0, dupIncoming.value.1);
    }
    var merged, drifted, preserved := RefreshAll(existing, incoming, incomingByKey, replacePreLabel);
    var added := Unseen(incoming, existing, existingByKey);
    var orphaned := Unseen(existing, incoming, incomingByKey);
    r := Merged(MergeResult(merged + added, preserved, |added|, drifted, RecordIds(orphaned)));
  }

  // ----- conservation -----

  /** The fields only people write. */
  ghost predicate SameHumanFields(a: CalibrationLabel, b: CalibrationLabel) {
    && a.Key() == b.Key() && a.humanVerdict == b.humanVerdict && a.adjudicatedAt == b.adjudicatedAt
    && a.notes == b.notes && a.humanLabeller == b.humanLabeller
    && a.labelSchemaVersion == b.labelSchemaVersion && a.priorHumanVerdict == b.priorHumanVerdict
  }

  /** The fields every import derives anew. */
  ghost predicate SameMachineFields(a: CalibrationLabel, b: CalibrationLabel) {
    && a.outputText == b.outputText && a.scorerVerdict == b.scorerVerdict && a.criteria == b.criteria
    && a.playerMessage == b.playerMessage && a.observed == b.observed && a.genId == b.genId
    && a.goldenSetVersion == b.goldenSetVersion && a.outputSha256 == b.outputSha256
    && a.criteriaSha256 == b.criteriaSha256
  }

  ghost predicate SamePreLabel(a: CalibrationLabel, b: CalibrationLabel) {
    a.preLabel == b.preLabel && a.preLabellerModel == b.preLabellerModel
  }

  lemma MergedRowKeepsHumanWork(prior: CalibrationLabel, incoming: Rows, replacePreLabel: bool)
    ensures var row := MergedRow(prior, incoming, replacePreLabel);
            && SameHumanFields(row, prior)
            && row.needsReview == (prior.needsReview || (Drifts(prior, incoming) && prior.humanVerdict.Some?))
  {}

  /** A matched row takes every machine field from its match; its pre-label is replaced only on request, and
      otherwise kept until the criteria drift, which clears it. */
  lemma MatchedRowIsRefreshed(prior: CalibrationLabel, incoming: Rows, replacePreLabel: bool)
    ensures var row := MergedRow(prior, incoming, replacePreLabel);
            match Lookup(incoming, prior.Key())
            case None => row == prior
            case Some(new') =>
              && SameMachineFields(row, new')
              && (replacePreLabel ==> SamePreLabel(row, new'))
              && (!replacePreLabel && !HasDrifted(prior, new') ==> SamePreLabel(row, prior))
              && (!replacePreLabel && HasDrifted(prior, new') ==> row.preLabel.None? && row.preLabellerModel == "")
  {}

  lemma {:induction false} MissingAreUnseen(rows: Rows, other: Rows)
    ensures forall row :: row in Missing(rows, other) <==> row in rows && Lookup(other, row.Key()).None?
    ensures UniqueKeys(rows) ==> UniqueKeys(Missing(rows, other))
  {
    if rows != [] {
      var n := |rows| - 1;
      MissingAreUnseen(rows[..n], other);
      assert rows == rows[..n] + [rows[n]];
      if UniqueKeys(rows) {
        assert UniqueKeys(rows[..n]);
        assert forall i :: 0 <= i < |Missing(rows[..n], other)| ==> Missing(rows[..n], other)[i] in rows[..n];
      }
    }
  }

  lemma MergedRows(existing: Rows, incoming: Rows, replacePreLabel: bool, i: nat)
    requires i < |existing|
    ensures Refreshed(existing, incoming, replacePreLabel)[i].Key() == existing[i].Key()
  {
    MergedRowKeepsHumanWork(existing[i], incoming, replacePreLabel);
  }

  lemma RefreshedKeys(existing: Rows, incoming: Rows, replacePreLabel: bool)
    ensures KeysOf(Refreshed(existing, incoming, replacePreLabel)) == KeysOf(existing)
  {
    forall i | 0 <= i < |existing|
      ensures Refreshed(existing, incoming, replacePreLabel)[i].Key() == existing[i].Key()
    {
      MergedRows(existing, incoming, replacePreLabel, i);
    }
  }

  lemma UniqueAfterAppend(front: Rows, existing: Rows, added: Rows)
    requires UniqueKeys(existing) && UniqueKeys(added) && KeysOf(front) == KeysOf(existing)
    requires forall j :: 0 <= j < |added| ==> Lookup(existing, added[j].Key()).None?
    ensures UniqueKeys(front + added)
  {
    assert |front| == |existing| by { assert |KeysOf(front)| == |KeysOf(existing)|; }
    forall i | 0 <= i < |front|
      ensures front[i].Key() == existing[i].Key()
    {
      assert KeysOf(front)[i] == KeysOf(existing)[i];
    }
    forall i, j | 0 <= i < |existing| && 0 <= j < |added|
      ensures existing[i].Key() != added[j].Key()
    {
      LookupFinds(existing, added[j].Key());
    }
  }

  /** MAIN. The merged keys are the existing keys in order, then the unseen incoming keys in order,
      without repeats. */
  lemma MergeKeepsKeys(existing: Rows, incoming: Rows, replacePreLabel: bool)
    requires UniqueKeys(existing) && UniqueKeys(incoming)
    ensures var m := Merge(existing, incoming, replacePreLabel);
            && UniqueKeys(m.rows)
            && |m.rows| == |existing| + m.added
            && KeysOf(m.rows) == KeysOf(existing) + KeysOf(Missing(incoming, existing))
  {
    var front := Refreshed(existing, incoming, replacePreLabel);
    var added := Missing(incoming, existing);
    RefreshedKeys(existing, incoming, replacePreLabel);
    MissingAreUnseen(incoming, existing);
    forall j | 0 <= j < |added|
      ensures Lookup(existing, added[j].Key()).None?
    {
      assert added[j] in added;
    }
    UniqueAfterAppend(front, existing, added);
  }

  /** MAIN. Every existing row keeps its human fields; a review flag is never cleared, and set
      exactly when the criteria hash drifts under a verdict; every other row is an unseen incoming
      row, taken as it came. */
  lemma MergeConservesHumanWork(existing: Rows, incoming: Rows, replacePreLabel: bool, i: nat)
    requires i < |Merge(existing, incoming, replacePreLabel).rows|
    ensures var row := Merge(existing, incoming, replacePreLabel).rows[i];
            if i < |existing| then
              && SameHumanFields(row, existing[i])
              && row.needsReview ==
                 (existing[i].needsReview || (Drifts(existing[i], incoming) && existing[i].humanVerdict.Some?))
            else row in incoming && Lookup(existing, row.Key()).None?
  {
    if i < |existing| {
      MergedRowKeepsHumanWork(existing[i], incoming, replacePreLabel);
    } else {
      MissingAreUnseen(incoming, existing);
      assert Missing(incoming, existing)[i - |existing|] in Missing(incoming, existing);
    }
  }

  /** The adjudicated rows split exactly into the preserved ones and the orphaned ones. */
  lemma {:induction false} AdjudicatedSplit(existing: Rows, incoming: Rows)
    ensures Adjudicated(existing) == Preserved(existing, incoming) + Adjudicated(Missing(existing, incoming))
  {
    if existing != [] {
      var n := |existing| - 1;
      AdjudicatedSplit(existing[..n], incoming);
      if Lookup(incoming, existing[n].Key()).None? {
        AdjudicatedSnoc(Missing(existing[..n], incoming), existing[n]);
      }
    }
  }

  lemma AdjudicatedSnoc(rows: Rows, row: CalibrationLabel)
    ensures Adjudicated(rows + [row]) == Adjudicated(rows) + if row.humanVerdict.Some? then 1 else 0
  {
    assert (rows + [row])[..|rows|] == rows;
  }

  lemma {:induction false} AdjudicatedConcat(a: Rows, b: Rows)
    ensures Adjudicated(a + b) == Adjudicated(a) + Adjudicated(b)
  {
    if b == [] {
      assert a + b == a;
    } else {
      assert (a + b)[..|a + b| - 1] == a + b[..|b| - 1];
      AdjudicatedConcat(a, b[..|b| - 1]);
    }
  }

  lemma {:induction false} RefreshedVerdicts(existing: Rows, incoming: Rows, replacePreLabel: bool)
    ensures Adjudicated(Refreshed(existing, incoming, replacePreLabel)) == Adjudicated(existing)
  {
    if existing != [] {
      var n := |existing| - 1;
      RefreshedVerdicts(existing[..n], incoming, replacePreLabel);
      assert Refreshed(existing, incoming, replacePreLabel)[..n] == Refreshed(existing[..n], incoming, replacePreLabel);
      MergedRowKeepsHumanWork(existing[n], incoming, replacePreLabel);
    }
  }

  /** MAIN. The verdicts after a merge are the reported preserved ones, those of the orphans, and any the
      added rows brought: none is lost or counted twice. */
  lemma VerdictsAreConserved(existing: Rows, incoming: Rows, replacePreLabel: bool)
    ensures var m := Merge(existing, incoming, replacePreLabel);
            Adjudicated(m.rows) ==
            m.preserved + Adjudicated(Missing(existing, incoming)) + Adjudicated(Missing(incoming, existing))
  {
    AdjudicatedSplit(existing, incoming);
    RefreshedVerdicts(existing, incoming, replacePreLabel);
    AdjudicatedConcat(Refreshed(existing, incoming, replacePreLabel), Missing(incoming, existing));
  }

  // ----- two batches -----

  predicate Differ(a: string, b: string) { a != "" && b != "" && a != b }

  /** Whether merging hash `a` on the way from `e` to `b` flags differently from merging `b` at once. */
  predicate DetourShows(e: string, a: string, b: string) {
    if e != "" && a != "" && b != "" then a != e && e == b
    else Differ(e, a) || Differ(a, b) || Differ(e, b)
  }

  /** MAIN. A second batch leaves the same machine and human fields whether or not another batch came before;
      the review flag remembers that batch exactly when, all three hashes recorded, the criteria moved and came
      back, or, with one of them missing, the other two differ. */
  lemma LastBatchWins(existing: Rows, first: Rows, second: Rows, replacePreLabel: bool, i: nat)
    requires i < |existing| && Lookup(second, existing[i].Key()).Some?
    ensures var prior := existing[i];
            var direct := Merge(existing, second, replacePreLabel).rows[i];
            var detour := Merge(Merge(existing, first, replacePreLabel).rows, second, replacePreLabel).rows[i];
            var a, b := Lookup(first, prior.Key()), Lookup(second, prior.Key());
            && SameMachineFields(detour, direct) && SameHumanFields(detour, direct)
            && (detour.needsReview != direct.needsReview <==>
                  prior.humanVerdict.Some? && !prior.needsReview && a.Some?
                  && DetourShows(prior.criteriaSha256, a.value.criteriaSha256, b.value.criteriaSha256))
  {
    var between := MergedRow(existing[i], first, replacePreLabel);
    MergedRowKeepsHumanWork(existing[i], first, replacePreLabel);
    MatchedRowIsRefreshed(existing[i], first, replacePreLabel);
    MergedRowKeepsHumanWork(existing[i], second, replacePreLabel);
    MatchedRowIsRefreshed(existing[i], second, replacePreLabel);
    MergedRowKeepsHumanWork(between, second, replacePreLabel);
    MatchedRowIsRefreshed(between, second, replacePreLabel);
  }

  // ----- idempotence -----

  lemma RefreshTwice(prior: CalibrationLabel, new': CalibrationLabel, replacePreLabel: bool)
    ensures var once := Refresh(prior, new', replacePreLabel);
            Refresh(once, new', replacePreLabel) == once && !HasDrifted(once, new')
  {}

  lemma RefreshSelf(row: CalibrationLabel, replacePreLabel: bool)
    ensures Refresh(row, row, replacePreLabel) == row && !HasDrifted(row, row)
  {}

  /** MAIN. Merging the same incoming set again changes no row, reports no drift, adds nothing and
      reports the same orphans; and, as imported rows carry no verdict, it preserves the same ones. */
  lemma MergeIsIdempotent(existing: Rows, incoming: Rows, replacePreLabel: bool)
    requires UniqueKeys(existing) && UniqueKeys(incoming)
    ensures var once := Merge(existing, incoming, replacePreLabel);
            var twice := Merge(once.rows, incoming, replacePreLabel);
            && twice.rows == once.rows && twice.drifted == [] && twice.added == 0
            && twice.orphaned == once.orphaned
            && ((forall row :: row in incoming ==> row.humanVerdict.None?) ==> twice.preserved == once.preserved)
  {
    var once := Merge(existing, incoming, replacePreLabel);
    MergeKeepsKeys(existing, incoming, replacePreLabel);
    forall i | 0 <= i < |once.rows|
      ensures MergedRow(once.rows[i], incoming, replacePreLabel) == once.rows[i] && !Drifts(once.rows[i], incoming)
    {
      SettledRow(existing, incoming, replacePreLabel, i);
    }
    assert Refreshed(once.rows, incoming, replacePreLabel) == once.rows;
    NoneDrift(once.rows, incoming);
    EveryIncomingPresent(existing, incoming, once.rows);
    SameOrphans(existing, incoming, replacePreLabel);
  }

  lemma SettledRow(existing: Rows, incoming: Rows, replacePreLabel: bool, i: nat)
    requires UniqueKeys(existing) && UniqueKeys(incoming)
    requires i < |Merge(existing, incoming, replacePreLabel).rows|
    ensures var row := Merge(existing, incoming, replacePreLabel).rows[i];
            MergedRow(row, incoming, replacePreLabel) == row && !Drifts(row, incoming)
  {
    var row := Merge(existing, incoming, replacePreLabel).rows[i];
    if i < |existing| {
      var m := Lookup(incoming, existing[i].Key());
      if m.Some? { RefreshTwice(existing[i], m.value, replacePreLabel); }
    } else {
      MissingAreUnseen(incoming, existing);
      assert row == Missing(incoming, existing)[i - |existing|];
      assert row in Missing(incoming, existing);
      var j :| 0 <= j < |incoming| && incoming[j] == row;
      LookupUnique(incoming, j);
      RefreshSelf(row, replacePreLabel);
    }
  }

  lemma {:induction false} NoneDrift(rows: Rows, incoming: Rows)
    requires forall i :: 0 <= i < |rows| ==> !Drifts(rows[i], incoming)
    ensures DriftedRows(rows, incoming) == []
  {
    if rows != [] { NoneDrift(rows[..|rows| - 1], incoming); }
  }

  lemma {:induction false} NoneMissing(rows: Rows, other: Rows)
    requires forall i :: 0 <= i < |rows| ==> Lookup(other, rows[i].Key()).Some?
    ensures Missing(rows, other) == []
  {
    if rows != [] { NoneMissing(rows[..|rows| - 1], other); }
  }

  lemma IncomingKeyPresent(existing: Rows, incoming: Rows, rows: Rows, j: nat)
    requires j < |incoming|
    requires KeysOf(rows) == KeysOf(existing) + KeysOf(Missing(incoming, existing))
    ensures Lookup(rows, incoming[j].Key()).Some?
  {
    var key := incoming[j].Key();
    var added := Missing(incoming, existing);
    LookupFinds(existing, key);
    LookupFinds(rows, key);
    if Lookup(existing, key).Some? {
      var i :| 0 <= i < |existing| && existing[i].Key() == key;
      assert KeysOf(rows)[i] == key;
    } else {
      MissingAreUnseen(incoming, existing);
      assert incoming[j] in added;
      var i :| 0 <= i < |added| && added[i] == incoming[j];
      assert KeysOf(rows)[|existing| + i] == key;
    }
  }

  lemma EveryIncomingPresent(existing: Rows, incoming: Rows, rows: Rows)
    requires KeysOf(rows) == KeysOf(existing) + KeysOf(Missing(incoming, existing))
    ensures Missing(incoming, rows) == []
  {
    forall j | 0 <= j < |incoming|
      ensures Lookup(rows, incoming[j].Key()).Some?
    {
      IncomingKeyPresent(existing, incoming, rows, j);
    }
    NoneMissing(incoming, rows);
  }

  lemma {:induction false} MissingConcat(a: Rows, b: Rows, other: Rows)
    ensures Missing(a + b, other) == Missing(a, other) + Missing(b, other)
    ensures Preserved(a + b, other) == Preserved(a, other) + Preserved(b, other)
  {
    if b == [] {
      assert a + b == a;
    } else {
      assert (a + b)[..|a + b| - 1] == a + b[..|b| - 1];
      MissingConcat(a, b[..|b| - 1], other);
    }
  }

  lemma {:induction false} RefreshedOrphans(existing: Rows, incoming: Rows, replacePreLabel: bool)
    ensures Missing(Refreshed(existing, incoming, replacePreLabel), incoming) == Missing(existing, incoming)
    ensures Preserved(Refreshed(existing, incoming, replacePreLabel), incoming) == Preserved(existing, incoming)
  {
    if existing != [] {
      var n := |existing| - 1;
      RefreshedOrphans(existing[..n], incoming, replacePreLabel);
      assert Refreshed(existing, incoming, replacePreLabel)[..n] == Refreshed(existing[..n], incoming, replacePreLabel);
      MergedRowKeepsHumanWork(existing[n], incoming, replacePreLabel);
    }
  }

  lemma SameOrphans(existing: Rows, incoming: Rows, replacePreLabel: bool)
    requires UniqueKeys(existing) && UniqueKeys(incoming)
    ensures var once := Merge(existing, incoming, replacePreLabel);
            && Missing(once.rows, incoming) == Missing(existing, incoming)
            && ((forall row :: row in incoming ==> row.humanVerdict.None?) ==>
                  Preserved(once.rows, incoming) == Preserved(existing, incoming))
  {
    var added := Missing(incoming, existing);
    MissingAreUnseen(incoming, existing);
    RefreshedOrphans(existing, incoming, replacePreLabel);
    MissingConcat(Refreshed(existing, incoming, replacePreLabel), added, incoming);
    forall i | 0 <= i < |added|
      ensures Lookup(incoming, added[i].Key()).Some? && added[i] in incoming
    {
      assert added[i] in added;
      LookupFinds(incoming, added[i].Key());
    }
    NoneMissing(added, incoming);
    if forall row :: row in incoming ==> row.humanVerdict.None? {
      NonePreserved(added, incoming);
    }
  }

  lemma {:induction false} NonePreserved(rows: Rows, incoming: Rows)
    requires forall i :: 0 <= i < |rows| ==> rows[i].humanVerdict.None?
    ensures Preserved(rows, incoming) == 0
  {
    if rows != [] { NonePreserved(rows[..|rows| - 1], incoming); }
  }

  lemma MergeOfOne(row: CalibrationLabel, new': CalibrationLabel, replacePreLabel: bool)
    requires row.Key() == new'.Key()
    ensures Merge([row], [new'], replacePreLabel).rows == [Refresh(row, new', replacePreLabel)]
    ensures Drifts(row, [new']) == HasDrifted(row, new')
  {
    assert Lookup([new'], row.Key()) == Some(new');
    assert Lookup([row], new'.Key()) == Some(row);
    assert [new'][..0] == [];
    assert Missing([new'], [row]) == [];
    assert Refreshed([row], [new'], replacePreLabel) == [Refresh(row, new', replacePreLabel)];
  }

  // ----- what drift reports -----

  /** The rows marked for review that were not before, place by place. */
  function NewlyFlagged(before: Rows, after: Rows): nat
    requires |before| <= |after|
  {
    if before == [] then 0
    else
      var n := |before| - 1;
      NewlyFlagged(before[..n], after) + if !before[n].needsReview && after[n].needsReview then 1 else 0
  }

  function Unjudged(rows: Rows): int { |rows| - Adjudicated(rows) }

  /** Judged rows that are marked already. */
  function FlaggedAlready(rows: Rows): nat {
    if rows == [] then 0
    else
      var last := rows[|rows| - 1];
      FlaggedAlready(rows[..|rows| - 1]) + if last.humanVerdict.Some? && last.needsReview then 1 else 0
  }

  lemma {:induction false} FlaggedAlreadyIsNone(rows: Rows)
    ensures Adjudicated(rows) <= |rows|
    ensures Adjudicated(rows) == |rows| && FlaggedAlready(rows) == 0 <==>
            forall row :: row in rows ==> row.humanVerdict.Some? && !row.needsReview
  {
    if rows != [] {
      var n := |rows| - 1;
      FlaggedAlreadyIsNone(rows[..n]);
      assert rows == rows[..n] + [rows[n]];
    }
  }

  lemma {:induction false} DriftedRowsAre(existing: Rows, incoming: Rows)
    ensures forall row :: row in DriftedRows(existing, incoming) <==> row in existing && Drifts(row, incoming)
  {
    if existing != [] {
      var n := |existing| - 1;
      DriftedRowsAre(existing[..n], incoming);
      assert existing == existing[..n] + [existing[n]];
    }
  }

  lemma OneMoreDrift(rows: Rows, row: CalibrationLabel)
    ensures Unjudged(rows + [row]) == Unjudged(rows) + if row.humanVerdict.None? then 1 else 0
    ensures FlaggedAlready(rows + [row])
         == FlaggedAlready(rows) + if row.humanVerdict.Some? && row.needsReview then 1 else 0
  {
    AdjudicatedSnoc(rows, row);
    assert (rows + [row])[..|rows|] == rows;
  }

  lemma {:induction false} DriftedCount(existing: Rows, incoming: Rows, after: Rows, replacePreLabel: bool)
    requires |existing| <= |after|
    requires forall i :: 0 <= i < |existing| ==> after[i] == MergedRow(existing[i], incoming, replacePreLabel)
    ensures var drifting := DriftedRows(existing, incoming);
            |drifting| == NewlyFlagged(existing, after) + Unjudged(drifting) + FlaggedAlready(drifting)
  {
    if existing != [] {
      var n := |existing| - 1;
      DriftedCount(existing[..n], incoming, after, replacePreLabel);
      MergedRowKeepsHumanWork(existing[n], incoming, replacePreLabel);
      if Drifts(existing[n], incoming) {
        OneMoreDrift(DriftedRows(existing[..n], incoming), existing[n]);
      }
    }
  }

  /** MAIN. The report says that the drifted rows were flagged for review under a verdict. In truth they are the
      newly flagged rows, and besides them the drifting rows nobody judged and those flagged before; so the report
      is right exactly when every drifting row is judged and not yet flagged. */
  lemma DriftReportVersusFlags(existing: Rows, incoming: Rows, replacePreLabel: bool)
    ensures var m := Merge(existing, incoming, replacePreLabel);
            var drifting := DriftedRows(existing, incoming);
            && |m.drifted| == NewlyFlagged(existing, m.rows) + Unjudged(drifting) + FlaggedAlready(drifting)
            && (|m.drifted| == NewlyFlagged(existing, m.rows) <==>
                  forall row :: row in existing && Drifts(row, incoming) ==> row.humanVerdict.Some? && !row.needsReview)
  {
    DriftedCount(existing, incoming, Merge(existing, incoming, replacePreLabel).rows, replacePreLabel);
    FlaggedAlreadyIsNone(DriftedRows(existing, incoming));
    DriftedRowsAre(existing, incoming);
  }

  /** One drifting row nobody judged is reported as flagged, and is not flagged. */
  lemma UnjudgedDriftIsReported(row: CalibrationLabel, moved: string, replacePreLabel: bool)
    requires row.humanVerdict.None? && !row.needsReview && Differ(row.criteriaSha256, moved)
    ensures var m := Merge([row], [row.(criteriaSha256 := moved)], replacePreLabel);
            m.drifted == [row.recordId] && |m.rows| == 1 && !m.rows[0].needsReview
  {
    var new' := row.(criteriaSha256 := moved);
    MergeOfOne(row, new', replacePreLabel);
    assert DriftedRows([row], [new']) == [] + [row] == [row] by { assert [row][..0] == []; }
    MergedRowKeepsHumanWork(row, [new'], replacePreLabel);
  }
}
