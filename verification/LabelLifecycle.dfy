/** Whole runs of the label store: imports, merges and adjudication sessions in any order, after
    `evals/label_import.py`, `evals/label_merge.py` and `evals/adjudicate.py`. */
module LabelLifecycle {
  import opened Adjudicate
  import opened CalibrationRecords
  import opened LabelImport
  import opened LabelMerge
  import opened LabelStore
  import opened Options
  import Calibration

  /** What was on the page when an opinion was given: the criteria and the hash recorded for them. */
  datatype Opinion = Opinion(under: string, criteria: string, verdict: bool)

  /** The labels file, and a history the program does not keep: for each key the latest human verdict
      and the latest reference opinion, with the criteria hash each was given under. */
  datatype State = State(stored: Option<Rows>, judged: map<Key, Opinion>, proposed: map<Key, Opinion>)

  datatype Step =
    | Batch(labels: Rows, flags: Flags)
    | Sit(answers: seq<Command>, clock: nat -> string)

  function Contents(s: State): Rows {
    if s.stored.Some? then s.stored.value else []
  }

  /** A session needs a file it can read; otherwise it ends at once. */
  predicate CanSit(s: State) { s.stored.Some? && UniqueKeys(s.stored.value) }

  /** A batch comes from an import; a session answers what it is shown. */
  ghost predicate Enabled(s: State, step: Step) {
    match step
    case Batch(labels, _) => AllStamped(labels)
    case Sit(answers, _) => CanSit(s) ==> ValidAnswers(Pending(s.stored.value), answers)
  }

  // ----- keeping the history -----

  /** The opinions in `batch` are new for the keys it holds. */
  ghost function Propose(proposed: map<Key, Opinion>, batch: Rows): map<Key, Opinion> {
    map k | k in proposed.Keys + (set row | row in batch && row.preLabel.Some? :: row.Key())
      :: var row := Lookup(batch, k);
         if row.Some? && row.value.preLabel.Some?
           then Opinion(row.value.criteriaSha256, row.value.criteria, row.value.preLabel.value)
         else if k in proposed then proposed[k] else Opinion("", "", false)
  }

  /** Which incoming opinions a batch puts into the store. */
  ghost function TakenOpinions(existing: Rows, labels: Rows, result: StepResult, flags: Flags): Rows {
    if result.Replaced? then labels
    else if !result.MergedInto? then []
    else if flags.replacePreLabel then labels
    else Missing(labels, existing)
  }

  /** The verdicts given on the first `n` rows of a session. */
  ghost function Judge(judged: map<Key, Opinion>, rows: Rows, answers: seq<Command>, clock: nat -> string,
                       n: nat): map<Key, Opinion>
    requires ValidAnswers(Pending(rows), answers) && n <= |rows|
  {
    if n == 0 then judged
    else
      var before := Judge(judged, rows, answers, clock, n - 1);
      if !Answered(rows, answers, n - 1) then before
      else
        var row := AfterSession(rows, answers, clock, n - 1);
        before[rows[n - 1].Key() := Opinion(row.criteriaSha256, row.criteria, row.humanVerdict == Some(true))]
  }

  ghost function Next(s: State, step: Step): State
    requires Enabled(s, step)
  {
    match step
    case Batch(labels, flags) =>
      var (stored, result) := Store(s.stored, labels, flags);
      State(stored, s.judged, Propose(s.proposed, TakenOpinions(Contents(s), labels, result, flags)))
    case Sit(answers, clock) =>
      if !CanSit(s) then s
      else
        var rows := s.stored.value;
        State(Some(Session(rows, answers, clock)), Judge(s.judged, rows, answers, clock, |rows|), s.proposed)
  }

  // ----- trust -----

  /** The row carries the opinion last given on its key, under the criteria it carries now; an opinion
      given under no recorded hash is the exception the merge makes for old rows. */
  ghost predicate JudgedAsCarried(row: CalibrationLabel, judged: map<Key, Opinion>) {
    row.humanVerdict.Some? ==>
      && row.Key() in judged
      && row.humanVerdict == Some(judged[row.Key()].verdict)
      && (!row.needsReview ==> judged[row.Key()].under == "" || judged[row.Key()].under == row.criteriaSha256)
  }

  ghost predicate ProposedAsCarried(row: CalibrationLabel, proposed: map<Key, Opinion>) {
    row.preLabel.Some? ==>
      && row.Key() in proposed
      && row.preLabel == Some(proposed[row.Key()].verdict)
      && (proposed[row.Key()].under == "" || proposed[row.Key()].under == row.criteriaSha256)
  }

  ghost predicate AllCarried(rows: Rows, judged: map<Key, Opinion>, proposed: map<Key, Opinion>) {
    forall row :: row in rows ==> JudgedAsCarried(row, judged) && ProposedAsCarried(row, proposed)
  }

  ghost predicate Trustworthy(s: State) {
    UniqueKeys(Contents(s)) ==> AllCarried(Contents(s), s.judged, s.proposed)
  }

  lemma ProposeKeeps(proposed: map<Key, Opinion>, batch: Rows, k: Key)
    requires Lookup(batch, k).None?
    ensures k in proposed ==> k in Propose(proposed, batch) && Propose(proposed, batch)[k] == proposed[k]
  {}

  lemma ProposeTakes(proposed: map<Key, Opinion>, batch: Rows, i: nat)
    requires UniqueKeys(batch) && i < |batch| && batch[i].preLabel.Some?
    ensures ProposedAsCarried(batch[i], Propose(proposed, batch))
  {
    LookupUnique(batch, i);
    assert batch[i] in batch;
  }

  /** A refreshed row stays judged as it was, and is no longer counted when its criteria moved. */
  lemma RefreshKeepsJudgement(row: CalibrationLabel, new': CalibrationLabel, replacePreLabel: bool,
                              judged: map<Key, Opinion>)
    requires JudgedAsCarried(row, judged) && row.Key() == new'.Key() && new'.criteriaSha256 != ""
    ensures JudgedAsCarried(Refresh(row, new', replacePreLabel), judged)
  {}

  lemma RefreshKeepsProposal(row: CalibrationLabel, new': CalibrationLabel, proposed: map<Key, Opinion>)
    requires ProposedAsCarried(row, proposed) && row.Key() == new'.Key() && new'.criteriaSha256 != ""
    ensures ProposedAsCarried(Refresh(row, new', false), proposed)
  {}

  lemma LookupMissing(labels: Rows, existing: Rows, k: Key)
    requires Lookup(existing, k).Some? || Lookup(labels, k).None?
    ensures Lookup(Missing(labels, existing), k).None?
  {
    var unseen := Missing(labels, existing);
    MissingAreUnseen(labels, existing);
    forall j | 0 <= j < |unseen|
      ensures unseen[j].Key() != k
    {
      assert unseen[j] in unseen;
      LookupFinds(labels, unseen[j].Key());
    }
    LookupFinds(unseen, k);
  }

  /** What a merge does to the trust in one stored row. */
  lemma MergedRowIsTrusted(existing: Rows, i: nat, labels: Rows, flags: Flags, judged: map<Key, Opinion>,
                           proposed: map<Key, Opinion>)
    requires UniqueKeys(existing) && UniqueKeys(labels) && AllStamped(labels) && i < |existing|
    requires JudgedAsCarried(existing[i], judged) && ProposedAsCarried(existing[i], proposed)
    ensures var row := MergedRow(existing[i], labels, flags.replacePreLabel);
            var batch := if flags.replacePreLabel then labels else Missing(labels, existing);
            JudgedAsCarried(row, judged) && ProposedAsCarried(row, Propose(proposed, batch))
  {
    var k := existing[i].Key();
    var batch := if flags.replacePreLabel then labels else Missing(labels, existing);
    LookupFinds(labels, k);
    LookupUnique(existing, i);
    var m := Lookup(labels, k);
    if m.None? || !flags.replacePreLabel {
      LookupMissing(labels, existing, k);
      ProposeKeeps(proposed, batch, k);
    }
    if m.Some? {
      RefreshKeepsJudgement(existing[i], m.value, flags.replacePreLabel, judged);
      if flags.replacePreLabel {
        var j :| 0 <= j < |labels| && labels[j].Key() == k;
        LookupUnique(labels, j);
        ProposeTakes(proposed, labels, j);
      } else {
        RefreshKeepsProposal(existing[i], m.value, proposed);
      }
    }
  }

  lemma AddedRowIsTrusted(existing: Rows, i: nat, labels: Rows, flags: Flags, judged: map<Key, Opinion>,
                          proposed: map<Key, Opinion>)
    requires UniqueKeys(labels) && AllStamped(labels) && i < |Missing(labels, existing)|
    ensures var row := Missing(labels, existing)[i];
            var batch := if flags.replacePreLabel then labels else Missing(labels, existing);
            JudgedAsCarried(row, judged) && ProposedAsCarried(row, Propose(proposed, batch))
  {
    MissingAreUnseen(labels, existing);
    var row := Missing(labels, existing)[i];
    assert row in Missing(labels, existing);
    if flags.replacePreLabel {
      var j :| 0 <= j < |labels| && labels[j] == row;
      ProposeTakes(proposed, labels, j);
    } else {
      ProposeTakes(proposed, Missing(labels, existing), i);
    }
  }

  lemma ReplacedRowsAreTrusted(labels: Rows, judged: map<Key, Opinion>, proposed: map<Key, Opinion>)
    requires UniqueKeys(labels) && AllStamped(labels)
    ensures AllCarried(labels, judged, Propose(proposed, labels))
  {
    forall i | 0 <= i < |labels|
      ensures JudgedAsCarried(labels[i], judged) && ProposedAsCarried(labels[i], Propose(proposed, labels))
    {
      assert labels[i] in labels;
      ProposeTakes(proposed, labels, i);
    }
  }

  lemma RefreshedRowsAreTrusted(existing: Rows, labels: Rows, flags: Flags, judged: map<Key, Opinion>,
                                proposed: map<Key, Opinion>)
    requires UniqueKeys(existing) && UniqueKeys(labels) && AllStamped(labels)
    requires AllCarried(existing, judged, proposed)
    ensures var batch := if flags.replacePreLabel then labels else Missing(labels, existing);
            AllCarried(Refreshed(existing, labels, flags.replacePreLabel), judged, Propose(proposed, batch))
  {
    forall i | 0 <= i < |existing|
      ensures var batch := if flags.replacePreLabel then labels else Missing(labels, existing);
              var row := MergedRow(existing[i], labels, flags.replacePreLabel);
              JudgedAsCarried(row, judged) && ProposedAsCarried(row, Propose(proposed, batch))
    {
      assert existing[i] in existing;
      MergedRowIsTrusted(existing, i, labels, flags, judged, proposed);
    }
  }

  lemma AddedRowsAreTrusted(existing: Rows, labels: Rows, flags: Flags, judged: map<Key, Opinion>,
                            proposed: map<Key, Opinion>)
    requires UniqueKeys(labels) && AllStamped(labels)
    ensures var batch := if flags.replacePreLabel then labels else Missing(labels, existing);
            AllCarried(Missing(labels, existing), judged, Propose(proposed, batch))
  {
    forall i | 0 <= i < |Missing(labels, existing)|
      ensures var batch := if flags.replacePreLabel then labels else Missing(labels, existing);
              var row := Missing(labels, existing)[i];
              JudgedAsCarried(row, judged) && ProposedAsCarried(row, Propose(proposed, batch))
    {
      AddedRowIsTrusted(existing, i, labels, flags, judged, proposed);
    }
  }

  lemma MergedRowsAreTrusted(existing: Rows, labels: Rows, flags: Flags, judged: map<Key, Opinion>,
                             proposed: map<Key, Opinion>)
    requires UniqueKeys(existing) && UniqueKeys(labels) && AllStamped(labels)
    requires AllCarried(existing, judged, proposed)
    ensures var batch := if flags.replacePreLabel then labels else Missing(labels, existing);
            AllCarried(Merge(existing, labels, flags.replacePreLabel).rows, judged, Propose(proposed, batch))
  {
    RefreshedRowsAreTrusted(existing, labels, flags, judged, proposed);
    AddedRowsAreTrusted(existing, labels, flags, judged, proposed);
  }

  lemma BatchKeepsTrust(s: State, labels: Rows, flags: Flags)
    requires Trustworthy(s) && AllStamped(labels)
    ensures Trustworthy(Next(s, Batch(labels, flags)))
  {
    var result := Store(s.stored, labels, flags).1;
    if result.Replaced? {
      if UniqueKeys(labels) { ReplacedRowsAreTrusted(labels, s.judged, s.proposed); }
    } else if result.MergedInto? {
      MergedRowsAreTrusted(Contents(s), labels, flags, s.judged, s.proposed);
    } else {
      forall row | row in Contents(s) && row.Key() in s.proposed
        ensures Propose(s.proposed, [])[row.Key()] == s.proposed[row.Key()]
      {
        ProposeKeeps(s.proposed, [], row.Key());
      }
    }
  }

  lemma {:induction false} JudgeLeaves(judged: map<Key, Opinion>, rows: Rows, answers: seq<Command>,
                                       clock: nat -> string, n: nat, k: Key)
    requires ValidAnswers(Pending(rows), answers) && n <= |rows|
    requires forall j :: 0 <= j < n && rows[j].Key() == k ==> !Answered(rows, answers, j)
    ensures k in judged ==>
              k in Judge(judged, rows, answers, clock, n) && Judge(judged, rows, answers, clock, n)[k] == judged[k]
  {
    if n > 0 { JudgeLeaves(judged, rows, answers, clock, n - 1, k); }
  }

  lemma {:induction false} JudgeRecords(judged: map<Key, Opinion>, rows: Rows, answers: seq<Command>,
                                        clock: nat -> string, n: nat, i: nat)
    requires UniqueKeys(rows) && ValidAnswers(Pending(rows), answers) && i < n <= |rows| && Answered(rows, answers, i)
    ensures var after := Judge(judged, rows, answers, clock, n);
            var row := AfterSession(rows, answers, clock, i);
            rows[i].Key() in after
              && after[rows[i].Key()] == Opinion(row.criteriaSha256, row.criteria, row.humanVerdict == Some(true))
  {
    if i < n - 1 { JudgeRecords(judged, rows, answers, clock, n - 1, i); }
  }

  lemma JudgedRowIsTrusted(judged: map<Key, Opinion>, rows: Rows, answers: seq<Command>, clock: nat -> string, i: nat)
    requires UniqueKeys(rows) && ValidAnswers(Pending(rows), answers) && i < |rows|
    requires JudgedAsCarried(rows[i], judged)
    ensures JudgedAsCarried(AfterSession(rows, answers, clock, i), Judge(judged, rows, answers, clock, |rows|))
  {
    if Answered(rows, answers, i) {
      JudgeRecords(judged, rows, answers, clock, |rows|, i);
    } else {
      forall j | 0 <= j < |rows| && rows[j].Key() == rows[i].Key()
        ensures !Answered(rows, answers, j)
      {
        assert j == i;
      }
      JudgeLeaves(judged, rows, answers, clock, |rows|, rows[i].Key());
    }
  }

  lemma SitKeepsTrust(s: State, answers: seq<Command>, clock: nat -> string)
    requires Trustworthy(s) && Enabled(s, Sit(answers, clock))
    ensures Trustworthy(Next(s, Sit(answers, clock)))
  {
    if !CanSit(s) { return; }
    var rows := s.stored.value;
    var after := Next(s, Sit(answers, clock));
    forall i | 0 <= i < |rows|
      ensures JudgedAsCarried(Contents(after)[i], after.judged) && ProposedAsCarried(Contents(after)[i], after.proposed)
    {
      JudgedRowIsTrusted(s.judged, rows, answers, clock, i);
    }
  }

  // ----- whole runs -----

  /** A store found on disk: every opinion in it is taken to have been given under the hash beside it. */
  ghost function Found(stored: Option<Rows>): State {
    var rows := if stored.Some? then stored.value else [];
    State(stored,
          map row | row in rows && row.humanVerdict.Some? && Lookup(rows, row.Key()) == Some(row)
            :: row.Key() := Opinion(row.criteriaSha256, row.criteria, row.humanVerdict.value),
          map row | row in rows && row.preLabel.Some? && Lookup(rows, row.Key()) == Some(row)
            :: row.Key() := Opinion(row.criteriaSha256, row.criteria, row.preLabel.value))
  }

  lemma {:induction false} LookupAlways(rows: Rows, row: CalibrationLabel)
    requires UniqueKeys(rows) && row in rows
    ensures Lookup(rows, row.Key()) == Some(row)
  {
    var i :| 0 <= i < |rows| && rows[i] == row;
    LookupUnique(rows, i);
  }

  lemma FoundIsTrustworthy(stored: Option<Rows>)
    ensures Trustworthy(Found(stored))
  {
    var s := Found(stored);
    if UniqueKeys(Contents(s)) {
      forall row | row in Contents(s)
        ensures JudgedAsCarried(row, s.judged) && ProposedAsCarried(row, s.proposed)
      {
        LookupAlways(Contents(s), row);
      }
    }
  }

  ghost predicate EnabledRun(s: State, steps: seq<Step>)
    decreases |steps|
  {
    steps == [] || (Enabled(s, steps[0]) && EnabledRun(Next(s, steps[0]), steps[1..]))
  }

  ghost function Run(s: State, steps: seq<Step>): State
    requires EnabledRun(s, steps)
    decreases |steps|
  {
    if steps == [] then s else Run(Next(s, steps[0]), steps[1..])
  }

  lemma {:induction false} RunKeepsTrust(s: State, steps: seq<Step>)
    requires Trustworthy(s) && EnabledRun(s, steps)
    ensures Trustworthy(Run(s, steps))
    decreases |steps|
  {
    if steps != [] {
      match steps[0] {
        case Batch(labels, flags) => BatchKeepsTrust(s, labels, flags);
        case Sit(answers, clock) => SitKeepsTrust(s, answers, clock);
      }
      RunKeepsTrust(Next(s, steps[0]), steps[1..]);
    }
  }

  /** MAIN. After any run of imports, merges and sessions from any store, a readable store's verdicts
      are the ones last given, and a row that still counts as judged carries the criteria hash its
      verdict was given under, or was judged with no hash recorded; the same holds of pre-labels. */
  lemma TrustOverEveryRun(stored: Option<Rows>, steps: seq<Step>)
    requires EnabledRun(Found(stored), steps)
    ensures var s := Run(Found(stored), steps);
            UniqueKeys(Contents(s)) ==>
              forall row :: row in Contents(s) ==> JudgedAsCarried(row, s.judged) && ProposedAsCarried(row, s.proposed)
  {
    FoundIsTrustworthy(stored);
    RunKeepsTrust(Found(stored), steps);
  }

  /** MAIN. So after any run every verdict calibration counts was given under the criteria its row carries
      (or under no recorded hash), and on the secondary axis so was every reference opinion. */
  lemma CalibratedRowsAreTrusted(stored: Option<Rows>, steps: seq<Step>, axis: Calibration.Axis, row: CalibrationLabel)
    requires EnabledRun(Found(stored), steps) && UniqueKeys(Contents(Run(Found(stored), steps)))
    requires row in Calibration.Population(Contents(Run(Found(stored), steps)), axis)
    ensures var s := Run(Found(stored), steps);
            && row.Key() in s.judged && row.humanVerdict == Some(s.judged[row.Key()].verdict)
            && s.judged[row.Key()].under in {"", row.criteriaSha256}
            && (axis == Calibration.Secondary ==>
                  && row.Key() in s.proposed && row.preLabel == Some(s.proposed[row.Key()].verdict)
                  && s.proposed[row.Key()].under in {"", row.criteriaSha256})
  {
    var s := Run(Found(stored), steps);
    TrustOverEveryRun(stored, steps);
    Calibration.KeepIs(Contents(s), row => Calibration.Counted(row, axis));
  }

  // ----- from hashes to texts -----

  /** The recorded hash, if any, is the hash of the criteria beside it. */
  ghost predicate Hashed(row: CalibrationLabel, sha256: string -> string) {
    row.criteriaSha256 == "" || row.criteriaSha256 == sha256(row.criteria)
  }

  ghost predicate AllHashed(rows: Rows, sha256: string -> string) {
    forall row :: row in rows ==> Hashed(row, sha256)
  }

  ghost predicate OpinionsHashed(opinions: map<Key, Opinion>, sha256: string -> string) {
    forall k :: k in opinions ==> opinions[k].under == "" || opinions[k].under == sha256(opinions[k].criteria)
  }

  ghost predicate HashedState(s: State, sha256: string -> string) {
    AllHashed(Contents(s), sha256) && OpinionsHashed(s.judged, sha256) && OpinionsHashed(s.proposed, sha256)
  }

  lemma LookupIsHashed(rows: Rows, k: Key, sha256: string -> string)
    requires AllHashed(rows, sha256)
    ensures Lookup(rows, k).Some? ==> Hashed(Lookup(rows, k).value, sha256)
  {
    LookupFinds(rows, k);
  }

  lemma MergeKeepsHashes(existing: Rows, labels: Rows, replacePreLabel: bool, sha256: string -> string)
    requires AllHashed(existing, sha256) && AllHashed(labels, sha256)
    ensures AllHashed(Merge(existing, labels, replacePreLabel).rows, sha256)
    ensures AllHashed(Missing(labels, existing), sha256)
  {
    MissingAreUnseen(labels, existing);
    forall i | 0 <= i < |existing|
      ensures Hashed(MergedRow(existing[i], labels, replacePreLabel), sha256)
    {
      assert existing[i] in existing;
      LookupIsHashed(labels, existing[i].Key(), sha256);
      MatchedRowIsRefreshed(existing[i], labels, replacePreLabel);
    }
  }

  lemma ProposeKeepsHashes(proposed: map<Key, Opinion>, batch: Rows, sha256: string -> string)
    requires OpinionsHashed(proposed, sha256) && AllHashed(batch, sha256)
    ensures OpinionsHashed(Propose(proposed, batch), sha256)
  {
    forall k | k in Propose(proposed, batch)
      ensures Lookup(batch, k).Some? ==> Hashed(Lookup(batch, k).value, sha256)
    {
      LookupIsHashed(batch, k, sha256);
    }
  }

  lemma BatchKeepsHashes(s: State, labels: Rows, flags: Flags, sha256: string -> string)
    requires HashedState(s, sha256) && AllStamped(labels) && AllHashed(labels, sha256)
    ensures HashedState(Next(s, Batch(labels, flags)), sha256)
  {
    MergeKeepsHashes(Contents(s), labels, flags.replacePreLabel, sha256);
    ProposeKeepsHashes(s.proposed, TakenOpinions(Contents(s), labels, Store(s.stored, labels, flags).1, flags), sha256);
  }

  lemma {:induction false} JudgeKeepsHashes(judged: map<Key, Opinion>, rows: Rows, answers: seq<Command>,
                                            clock: nat -> string, n: nat, sha256: string -> string)
    requires ValidAnswers(Pending(rows), answers) && n <= |rows|
    requires OpinionsHashed(judged, sha256) && AllHashed(rows, sha256)
    ensures OpinionsHashed(Judge(judged, rows, answers, clock, n), sha256)
  {
    if n > 0 {
      JudgeKeepsHashes(judged, rows, answers, clock, n - 1, sha256);
      assert rows[n - 1] in rows;
    }
  }

  lemma SitKeepsHashes(s: State, answers: seq<Command>, clock: nat -> string, sha256: string -> string)
    requires HashedState(s, sha256) && Enabled(s, Sit(answers, clock))
    ensures HashedState(Next(s, Sit(answers, clock)), sha256)
  {
    if !CanSit(s) { return; }
    var rows := s.stored.value;
    JudgeKeepsHashes(s.judged, rows, answers, clock, |rows|, sha256);
    forall i | 0 <= i < |rows|
      ensures Hashed(AfterSession(rows, answers, clock, i), sha256)
    {
      assert rows[i] in rows;
    }
  }

  ghost predicate HashedSteps(steps: seq<Step>, sha256: string -> string) {
    forall i :: 0 <= i < |steps| && steps[i].Batch? ==> AllHashed(steps[i].labels, sha256)
  }

  lemma {:induction false} RunKeepsHashes(s: State, steps: seq<Step>, sha256: string -> string)
    requires HashedState(s, sha256) && EnabledRun(s, steps) && HashedSteps(steps, sha256)
    ensures HashedState(Run(s, steps), sha256)
    decreases |steps|
  {
    if steps != [] {
      match steps[0] {
        case Batch(labels, flags) => BatchKeepsHashes(s, labels, flags, sha256);
        case Sit(answers, clock) => SitKeepsHashes(s, answers, clock, sha256);
      }
      RunKeepsHashes(Next(s, steps[0]), steps[1..], sha256);
    }
  }

  /** MAIN. When every stored and imported hash is the hash of the criteria beside it, a verdict that counts
      and was given under a recorded hash was given on criteria with the same hash as the row's criteria
      now: on the same text, if the hash tells texts apart. */
  lemma TrustIsAboutTheText(stored: Option<Rows>, steps: seq<Step>, sha256: string -> string, row: CalibrationLabel)
    requires stored.Some? ==> AllHashed(stored.value, sha256)
    requires EnabledRun(Found(stored), steps) && HashedSteps(steps, sha256)
    requires UniqueKeys(Contents(Run(Found(stored), steps))) && row in Contents(Run(Found(stored), steps))
    requires row.humanVerdict.Some? && !row.needsReview
    ensures var s := Run(Found(stored), steps);
            row.Key() in s.judged &&
            var opinion := s.judged[row.Key()];
            opinion.under != "" ==>
              && sha256(opinion.criteria) == sha256(row.criteria)
              && ((forall a, b :: sha256(a) == sha256(b) ==> a == b) ==> opinion.criteria == row.criteria)
  {
    var s := Run(Found(stored), steps);
    TrustOverEveryRun(stored, steps);
    RunKeepsHashes(Found(stored), steps, sha256);
    assert JudgedAsCarried(row, s.judged) && Hashed(row, sha256);
  }

  // ----- what an empty hash would do -----

  /** One refresh keeps the trust of a judged, unflagged row with a recorded hash exactly when the
      incoming hash is not empty: the drift test alone does not protect it. */
  lemma RefreshKeepsTrustIffHashed(row: CalibrationLabel, new': CalibrationLabel, replacePreLabel: bool)
    requires row.humanVerdict.Some? && !row.needsReview && row.criteriaSha256 != ""
    ensures var after := Refresh(row, new', replacePreLabel);
            (!after.needsReview ==> after.criteriaSha256 == row.criteriaSha256) <==> new'.criteriaSha256 != ""
  {}

  /** MAIN. Two merges, the first without a hash, move any counted verdict to criteria nobody judged. */
  lemma EmptyHashMovesVerdict(row: CalibrationLabel, moved: string, replacePreLabel: bool)
    requires row.humanVerdict.Some? && !row.needsReview && moved != ""
    ensures var blank := row.(humanVerdict := None, criteriaSha256 := "");
            var changed := row.(humanVerdict := None, criteriaSha256 := moved);
            var once := Merge([row], [blank], replacePreLabel);
            var twice := Merge(once.rows, [changed], replacePreLabel);
            && once.drifted == [] && twice.drifted == []
            && |twice.rows| == 1 && twice.rows[0].humanVerdict == row.humanVerdict && !twice.rows[0].needsReview
            && twice.rows[0].criteriaSha256 == moved
  {
    var blank := row.(humanVerdict := None, criteriaSha256 := "");
    var changed := row.(humanVerdict := None, criteriaSha256 := moved);
    var once := Refresh(row, blank, replacePreLabel);
    MergeOfOne(row, blank, replacePreLabel);
    MergeOfOne(once, changed, replacePreLabel);
    NoneDrift([row], [blank]);
    NoneDrift([once], [changed]);
  }

  // ----- what clears a flag, and what moves a verdict -----

  /** The batch replaces the stored rows: it is not merged, and there is no verdict to lose or it is forced. */
  predicate Overwrites(s: State, step: Step) {
    step.Batch? && !step.flags.merge && (Adjudicated(Contents(s)) == 0 || step.flags.forceOverwrite)
  }

  /** MAIN. In any step on a readable store, either the batch overwrites it, and all its rows are then the batch's,
      unjudged and unflagged; or every row stays at its place, and its verdict changes, and its review flag goes,
      only when a session gave it a non-skip answer. */
  lemma OnlyAnswersClearFlags(s: State, step: Step, i: nat)
    requires Enabled(s, step) && UniqueKeys(Contents(s)) && i < |Contents(s)|
    ensures Overwrites(s, step) ==> Contents(Next(s, step)) == step.labels && AllStamped(step.labels)
    ensures !Overwrites(s, step) ==>
              var before := Contents(s)[i];
              i < |Contents(Next(s, step))| &&
              var after := Contents(Next(s, step))[i];
              && after.Key() == before.Key()
              && (after.humanVerdict != before.humanVerdict || (before.needsReview && !after.needsReview) ==>
                    step.Sit? && Answered(Contents(s), step.answers, i))
  {
    match step
    case Batch(labels, flags) =>
      if Store(s.stored, labels, flags).1.MergedInto? {
        MergedRowKeepsHumanWork(Contents(s)[i], labels, flags.replacePreLabel);
      }
    case Sit(answers, clock) =>
      assert Contents(Next(s, step))[i] == AfterSession(Contents(s), answers, clock, i);
  }

  // ----- no verdict is lost -----

  ghost predicate Held(rows: Rows, k: Key, verdict: bool) {
    exists row :: row in rows && row.Key() == k && row.humanVerdict == Some(verdict)
  }

  /** Every verdict ever given, as last given, is in a store that can be read. */
  ghost predicate VerdictsHeld(s: State) {
    s.judged != map[] ==>
      && UniqueKeys(Contents(s))
      && forall k :: k in s.judged ==> Held(Contents(s), k, s.judged[k].verdict)
  }

  lemma MergeHolds(existing: Rows, labels: Rows, replacePreLabel: bool, k: Key, verdict: bool)
    requires Held(existing, k, verdict)
    ensures Held(Merge(existing, labels, replacePreLabel).rows, k, verdict)
  {
    var row :| row in existing && row.Key() == k && row.humanVerdict == Some(verdict);
    var i :| 0 <= i < |existing| && existing[i] == row;
    MergedRowKeepsHumanWork(row, labels, replacePreLabel);
    assert Merge(existing, labels, replacePreLabel).rows[i] == MergedRow(row, labels, replacePreLabel);
  }

  lemma HeldMeansJudged(rows: Rows, k: Key, verdict: bool)
    requires Held(rows, k, verdict)
    ensures Adjudicated(rows) > 0
  {
    var row :| row in rows && row.Key() == k && row.humanVerdict == Some(verdict);
    var i :| 0 <= i < |rows| && rows[i] == row;
    AdjudicatedAtLeastOne(rows, i);
  }

  lemma StampedHoldNothing(rows: Rows, k: Key, verdict: bool)
    requires AllStamped(rows)
    ensures !Held(rows, k, verdict)
  {}

  /** A batch loses a verdict exactly when it overwrites by force what it could have merged into. */
  lemma BatchHoldsVerdictsIff(s: State, labels: Rows, flags: Flags)
    requires VerdictsHeld(s) && AllStamped(labels)
    ensures VerdictsHeld(Next(s, Batch(labels, flags))) <==> s.judged == map[] || (flags.forceOverwrite ==> flags.merge)
  {
    if s.judged != map[] {
      var k :| k in s.judged;
      HeldMeansJudged(Contents(s), k, s.judged[k].verdict);
      if flags.merge {
        if UniqueKeys(labels) { MergeKeepsKeys(Contents(s), labels, flags.replacePreLabel); }
        forall k | k in s.judged
          ensures Held(Merge(Contents(s), labels, flags.replacePreLabel).rows, k, s.judged[k].verdict)
        {
          MergeHolds(Contents(s), labels, flags.replacePreLabel, k, s.judged[k].verdict);
        }
      } else if flags.forceOverwrite {
        StampedHoldNothing(labels, k, s.judged[k].verdict);
      }
    }
  }

  lemma {:induction false} JudgeOrigin(judged: map<Key, Opinion>, rows: Rows, answers: seq<Command>,
                                       clock: nat -> string, n: nat, k: Key)
    requires ValidAnswers(Pending(rows), answers) && n <= |rows| && k in Judge(judged, rows, answers, clock, n)
    ensures k in judged || exists i :: 0 <= i < n && Answered(rows, answers, i) && rows[i].Key() == k
  {
    if n > 0 && !(Answered(rows, answers, n - 1) && rows[n - 1].Key() == k) {
      JudgeOrigin(judged, rows, answers, clock, n - 1, k);
    }
  }

  lemma AnsweredIsHeld(judged: map<Key, Opinion>, rows: Rows, answers: seq<Command>, clock: nat -> string, i: nat)
    requires UniqueKeys(rows) && ValidAnswers(Pending(rows), answers) && i < |rows| && Answered(rows, answers, i)
    ensures var after := Judge(judged, rows, answers, clock, |rows|);
            var k := rows[i].Key();
            k in after && Held(Session(rows, answers, clock), k, after[k].verdict)
  {
    JudgeRecords(judged, rows, answers, clock, |rows|, i);
    SessionKeepsKeys(rows, answers, clock);
    var row := AfterSession(rows, answers, clock, i);
    assert Session(rows, answers, clock)[i] == row;
    assert row.humanVerdict.Some?;
    assert row.humanVerdict == Some(row.humanVerdict == Some(true));
  }

  lemma UnansweredIsHeld(judged: map<Key, Opinion>, rows: Rows, answers: seq<Command>, clock: nat -> string, i: nat)
    requires UniqueKeys(rows) && ValidAnswers(Pending(rows), answers) && i < |rows| && !Answered(rows, answers, i)
    requires rows[i].Key() in judged && rows[i].humanVerdict == Some(judged[rows[i].Key()].verdict)
    ensures var after := Judge(judged, rows, answers, clock, |rows|);
            var k := rows[i].Key();
            k in after && Held(Session(rows, answers, clock), k, after[k].verdict)
  {
    forall j | 0 <= j < |rows| && rows[j].Key() == rows[i].Key()
      ensures !Answered(rows, answers, j)
    {
      assert j == i;
    }
    JudgeLeaves(judged, rows, answers, clock, |rows|, rows[i].Key());
    assert Session(rows, answers, clock)[i] == rows[i];
  }

  lemma SitHoldsVerdict(s: State, answers: seq<Command>, clock: nat -> string, k: Key)
    requires VerdictsHeld(s) && Enabled(s, Sit(answers, clock)) && CanSit(s)
    requires k in Next(s, Sit(answers, clock)).judged
    ensures var after := Next(s, Sit(answers, clock));
            Held(Contents(after), k, after.judged[k].verdict)
  {
    var rows := s.stored.value;
    JudgeOrigin(s.judged, rows, answers, clock, |rows|, k);
    if i :| 0 <= i < |rows| && Answered(rows, answers, i) && rows[i].Key() == k {
      AnsweredIsHeld(s.judged, rows, answers, clock, i);
    } else {
      var row :| row in rows && row.Key() == k && row.humanVerdict == Some(s.judged[k].verdict);
      var i :| 0 <= i < |rows| && rows[i] == row;
      UnansweredIsHeld(s.judged, rows, answers, clock, i);
    }
  }

  lemma SitHoldsVerdicts(s: State, answers: seq<Command>, clock: nat -> string)
    requires VerdictsHeld(s) && Enabled(s, Sit(answers, clock))
    ensures VerdictsHeld(Next(s, Sit(answers, clock)))
  {
    if CanSit(s) {
      SessionKeepsKeys(s.stored.value, answers, clock);
      forall k | k in Next(s, Sit(answers, clock)).judged
        ensures Held(Contents(Next(s, Sit(answers, clock))), k, Next(s, Sit(answers, clock)).judged[k].verdict)
      {
        SitHoldsVerdict(s, answers, clock, k);
      }
    }
  }

  /** No batch of the run is forced over the file instead of being merged into it. */
  ghost predicate NeverForced(steps: seq<Step>) {
    forall i :: 0 <= i < |steps| && steps[i].Batch? && steps[i].flags.forceOverwrite ==> steps[i].flags.merge
  }

  lemma {:induction false} RunHoldsVerdicts(s: State, steps: seq<Step>)
    requires VerdictsHeld(s) && EnabledRun(s, steps) && NeverForced(steps)
    ensures VerdictsHeld(Run(s, steps))
    decreases |steps|
  {
    if steps != [] {
      match steps[0] {
        case Batch(labels, flags) => BatchHoldsVerdictsIff(s, labels, flags);
        case Sit(answers, clock) => SitHoldsVerdicts(s, answers, clock);
      }
      RunHoldsVerdicts(Next(s, steps[0]), steps[1..]);
    }
  }

  /** MAIN. Over any run from a readable store in which no batch is forced over the file, every verdict found in it
      or given on the way is still there at the end, as last given, in a store that can be read. */
  lemma NoVerdictIsLost(stored: Option<Rows>, steps: seq<Step>)
    requires Readable(stored) && EnabledRun(Found(stored), steps) && NeverForced(steps)
    ensures VerdictsHeld(Run(Found(stored), steps))
  {
    assert VerdictsHeld(Found(stored));
    RunHoldsVerdicts(Found(stored), steps);
  }

  // ----- when the store locks up -----

  /** A batch that repeats a key and is neither merged into rows nor refused to save verdicts. */
  ghost predicate Locks(s: State, step: Step) {
    && step.Batch? && !UniqueKeys(step.labels)
    && !(Contents(s) != [] && step.flags.merge)
    && !(Adjudicated(Contents(s)) > 0 && !step.flags.merge && !step.flags.forceOverwrite)
  }

  ghost predicate SomeStepLocks(s: State, steps: seq<Step>)
    requires EnabledRun(s, steps)
    decreases |steps|
  {
    steps != [] && (Locks(s, steps[0]) || SomeStepLocks(Next(s, steps[0]), steps[1..]))
  }

  lemma StepReadableIff(s: State, step: Step)
    requires Enabled(s, step)
    ensures Readable(Next(s, step).stored) <==> Readable(s.stored) && !Locks(s, step)
    ensures !Readable(s.stored) ==> Next(s, step).stored == s.stored && Next(s, step).judged == s.judged
  {
    match step
    case Batch(labels, flags) => ReadableAfterStoring(s.stored, labels, flags);
    case Sit(answers, clock) =>
      if CanSit(s) { SessionKeepsKeys(s.stored.value, answers, clock); }
  }

  /** MAIN. A run ends with a store that can be read exactly when it started with one and no step of it locked the
      store; a store that cannot be read stays as it is, without a new verdict, through every run. */
  lemma {:induction false} RunReadableIff(s: State, steps: seq<Step>)
    requires EnabledRun(s, steps)
    ensures Readable(Run(s, steps).stored) <==> Readable(s.stored) && !SomeStepLocks(s, steps)
    ensures !Readable(s.stored) ==> Run(s, steps).stored == s.stored && Run(s, steps).judged == s.judged
    decreases |steps|
  {
    if steps != [] {
      StepReadableIff(s, steps[0]);
      RunReadableIff(Next(s, steps[0]), steps[1..]);
    }
  }
}
