/** Bringing a batch of labels into the labels file: the no-clobber policy of `evals/label_merge.py` and
    the last steps of `evals/label_import.py`. */
module LabelStore {
  import opened CalibrationRecords
  import opened Counting
  import opened LabelMerge
  import opened Options

  datatype Flags = Flags(merge: bool, forceOverwrite: bool, replacePreLabel: bool)

  datatype StepResult =
    | Unreadable
    | RefusedToOverwrite(verdicts: nat)
    | MergeRefused
    | MergedInto(report: MergeResult)
    | Replaced

  /** The store after a batch of labels reaches it, and what is reported. */
  function Store(stored: Option<Rows>, labels: Rows, flags: Flags): (Option<Rows>, StepResult) {
    var existing := if stored.Some? then stored.value else [];
    var verdicts := Adjudicated(existing);
    if !UniqueKeys(existing) then (stored, Unreadable)
    else if verdicts > 0 && !flags.merge && !flags.forceOverwrite then (stored, RefusedToOverwrite(verdicts))
    else if existing != [] && flags.merge then
      if UniqueKeys(labels) then
        var m := Merge(existing, labels, flags.replacePreLabel);
        (Some(m.rows), MergedInto(m))
      else (stored, MergeRefused)
    else (Some(labels), Replaced)
  }

  method CountVerdicts(rows: Rows) returns (n: nat)
    ensures n == Adjudicated(rows)
  {
    n := 0;
    for i := 0 to |rows|
      invariant n == Adjudicated(rows[..i])
    {
      assert rows[..i + 1][..i] == rows[..i];
      if rows[i].humanVerdict.Some? {
        n := n + 1;
      }
    }
    assert rows[..|rows|] == rows;
  }

  datatype LoadResult = Existing(rows: Rows) | UnreadableFile | Refusal(verdicts: nat)

  method LoadExistingOrRefuse(file: LabelFile, flags: Flags) returns (r: LoadResult)
    ensures r.UnreadableFile? <==> file.stored.Some? && !UniqueKeys(file.stored.value)
    ensures r.Existing? ==> r.rows == if file.stored.Some? then file.stored.value else []
    ensures r.Refusal? ==> file.stored.Some? && r.verdicts == Adjudicated(file.stored.value)
    ensures r.Refusal? <==> file.stored.Some? && UniqueKeys(file.stored.value) && Adjudicated(file.stored.value) > 0
                            && !flags.merge && !flags.forceOverwrite
  {
    if !file.Exists() {
      return Existing([]);
    }
    var read := file.Read();
    if read.DuplicateLabelKey? {
      return UnreadableFile;
    }
    var verdicts := CountVerdicts(read.rows);
    if verdicts > 0 && !(flags.merge || flags.forceOverwrite) {
      return Refusal(verdicts);
    }
    r := Existing(read.rows);
  }

  method StoreLabels(file: LabelFile, labels: Rows, flags: Flags) returns (r: StepResult)
    modifies file
    ensures (file.stored, r) == Store(old(file.stored), labels, flags)
  {
    var loaded := LoadExistingOrRefuse(file, flags);
    match loaded
    case UnreadableFile => r := Unreadable;
    case Refusal(verdicts) => r := RefusedToOverwrite(verdicts);
    case Existing(existing) =>
      if existing != [] && flags.merge {
        var outcome := MergeLabels(existing, labels, flags.replacePreLabel);
        if outcome.DuplicateKey? {
          return MergeRefused;
        }
        file.Write(outcome.value.rows);
        return MergedInto(outcome.value);
      }
      file.Write(labels);
      r := Replaced;
  }

  /** Without `--force-overwrite` no verdict ever leaves the store: whatever happens, each
      judged row is still there with its verdict. */
  lemma VerdictsSurviveImport(stored: Rows, labels: Rows, flags: Flags, i: nat)
    requires i < |stored| && stored[i].humanVerdict.Some?
    requires flags.forceOverwrite ==> flags.merge
    ensures var after := Store(Some(stored), labels, flags).0;
            after.Some? && i < |after.value| && SameHumanFields(after.value[i], stored[i])
  {
    AdjudicatedAtLeastOne(stored, i);
    if flags.merge {
      MergedRowKeepsHumanWork(stored[i], labels, flags.replacePreLabel);
    }
  }

  lemma {:induction false} AdjudicatedAtLeastOne(rows: Rows, i: nat)
    requires i < |rows| && rows[i].humanVerdict.Some?
    ensures Adjudicated(rows) > 0
  {
    if i < |rows| - 1 { AdjudicatedAtLeastOne(rows[..|rows| - 1], i); }
  }

  predicate Readable(stored: Option<Rows>) { stored.Some? ==> UniqueKeys(stored.value) }

  /** MAIN. What a batch leaves behind is readable exactly when the store was readable before and the batch
      repeats no key, or is merged into rows, or is refused to save verdicts: a fresh import, also a forced one,
      writes a repeated key unchecked. */
  lemma ReadableAfterStoring(stored: Option<Rows>, labels: Rows, flags: Flags)
    ensures var existing := if stored.Some? then stored.value else [];
            Readable(Store(stored, labels, flags).0) <==>
              Readable(stored)
              && (UniqueKeys(labels) || (existing != [] && flags.merge)
                  || (Adjudicated(existing) > 0 && !flags.merge && !flags.forceOverwrite))
  {
    var existing := if stored.Some? then stored.value else [];
    if UniqueKeys(existing) && UniqueKeys(labels) {
      MergeKeepsKeys(existing, labels, flags.replacePreLabel);
    }
  }

  // ----- what a batch does -----

  ghost function JudgedPlaces(rows: Rows): set<nat> {
    Places(rows, (row: CalibrationLabel) => row.humanVerdict.Some?)
  }

  lemma {:induction false} VerdictsAreCounted(rows: Rows)
    ensures Adjudicated(rows) == |JudgedPlaces(rows)|
  {
    if rows == [] {
      assert JudgedPlaces(rows) == {};
    } else {
      var front, last := rows[..|rows| - 1], rows[|rows| - 1];
      assert rows == front + [last];
      VerdictsAreCounted(front);
      PlacesSnoc(front, last, (row: CalibrationLabel) => row.humanVerdict.Some?);
    }
  }

  /** The stored row after a merge: the machine fields are the batch's, the human ones stay. The pre-label is the
      batch's on request; otherwise it stays, unless the criteria moved, which clears it. A verdict whose criteria
      moved is flagged, and no flag goes. */
  ghost predicate Follows(row: CalibrationLabel, prior: CalibrationLabel, new': CalibrationLabel, replace: bool) {
    var moved := Differ(prior.criteriaSha256, new'.criteriaSha256);
    && SameHumanFields(row, prior) && SameMachineFields(row, new')
    && (replace ==> SamePreLabel(row, new'))
    && (!replace && !moved ==> SamePreLabel(row, prior))
    && (!replace && moved ==> row.preLabel.None? && row.preLabellerModel == "")
    && (row.needsReview <==> prior.needsReview || (moved && prior.humanVerdict.Some?))
  }

  ghost predicate MergedFrom(row: CalibrationLabel, prior: CalibrationLabel, labels: Rows, replace: bool) {
    match Lookup(labels, prior.Key())
    case None => row == prior
    case Some(new') => Follows(row, prior, new', replace)
  }

  lemma RowIsMerged(existing: Rows, labels: Rows, replace: bool, i: nat)
    requires i < |existing|
    ensures MergedFrom(Merge(existing, labels, replace).rows[i], existing[i], labels, replace)
  {
    MergedRowKeepsHumanWork(existing[i], labels, replace);
    MatchedRowIsRefreshed(existing[i], labels, replace);
  }

  /** MAIN. A batch reaches a readable file that holds no verdict, or under a flag. With `--merge`, if there are
      rows, each follows the batch's row of its key, and the rest of the batch comes behind, unless the batch repeats
      a key; without, the batch replaces the file. In every other case the file stays, and a refusal counts the
      verdicts it saves. */
  lemma StoredIs(stored: Option<Rows>, labels: Rows, flags: Flags)
    ensures var existing := if stored.Some? then stored.value else [];
            var (after, r) := Store(stored, labels, flags);
            && (r == Unreadable <==> !UniqueKeys(existing))
            && (r.RefusedToOverwrite? <==>
                  UniqueKeys(existing) && JudgedPlaces(existing) != {} && !flags.merge && !flags.forceOverwrite)
            && (r.RefusedToOverwrite? ==> r.verdicts == |JudgedPlaces(existing)|)
            && (r == MergeRefused <==> UniqueKeys(existing) && existing != [] && flags.merge && !UniqueKeys(labels))
            && (r.MergedInto? <==> UniqueKeys(existing) && existing != [] && flags.merge && UniqueKeys(labels))
            && (r.MergedInto? ==>
                  && after == Some(r.report.rows) && |existing| + r.report.added == |r.report.rows|
                  && forall i :: 0 <= i < |existing| ==>
                       MergedFrom(r.report.rows[i], existing[i], labels, flags.replacePreLabel))
            && (r == Replaced ==> after == Some(labels))
            && (r != Replaced && !r.MergedInto? ==> after == stored)
  {
    var existing := if stored.Some? then stored.value else [];
    VerdictsAreCounted(existing);
    if UniqueKeys(existing) && UniqueKeys(labels) {
      MergeKeepsKeys(existing, labels, flags.replacePreLabel);
      forall i | 0 <= i < |existing| { RowIsMerged(existing, labels, flags.replacePreLabel, i); }
    }
  }

  /** An import of a repeated key into no file, under any flags, leaves a file no later batch can replace. */
  lemma RepeatedKeyLocksTheStore(row: CalibrationLabel, first: Flags, labels: Rows, flags: Flags)
    ensures var locked := Store(None, [row, row], first).0;
            locked == Some([row, row]) && Store(locked, labels, flags) == (locked, Unreadable)
  {
    assert [row, row][0].Key() == [row, row][1].Key();
    ReadableAfterStoring(None, [row, row], first);
  }
}
