/** The adjudication session, after `evals/adjudicate.py` and `evals/adjudicate_console.py`. */
module Adjudicate {
  import opened CalibrationRecords
  import opened Options
  import opened Selection

  datatype Command = Keep | Flip | Pass | Fail | Skip

  const NAMES: seq<(string, Command)> :=
    [("keep", Keep), ("flip", Flip), ("pass", Pass), ("fail", Fail), ("skip", Skip)]

  /** `n` is fail, because `f` already is flip. */
  const SHORTCUTS: seq<(string, string)> :=
    [("k", "keep"), ("f", "flip"), ("p", "pass"), ("n", "fail"), ("s", "skip")]

  function Get<V>(table: seq<(string, V)>, key: string): Option<V> {
    if table == [] then None
    else if table[0].0 == key then Some(table[0].1)
    else Get(table[1..], key)
  }

  /** The command a line names, in full or by its single letter. */
  function Decode(line: string): Option<Command> {
    var short := Get(SHORTCUTS, line);
    Get(NAMES, if short.Some? then short.value else line)
  }

  /** Keep and flip compare with a pre-label; pass and fail stand in when there is none. */
  predicate Accepted(hasPreLabel: bool, command: Command) {
    command == Skip || (if hasPreLabel then command in {Keep, Flip} else command in {Pass, Fail})
  }

  predicate Answers(line: string, hasPreLabel: bool) {
    Decode(line).Some? && Accepted(hasPreLabel, Decode(line).value)
  }

  /** The first accepted command from position `start` on, and the position after it. */
  function NextAnswer(lines: seq<string>, start: nat, hasPreLabel: bool): (r: (Option<Command>, nat))
    requires start <= |lines|
    ensures start <= r.1 <= |lines|
    ensures r.0.Some? ==> start < r.1 && Accepted(hasPreLabel, r.0.value)
    decreases |lines| - start
  {
    if start == |lines| then (None, start)
    else if Answers(lines[start], hasPreLabel) then (Decode(lines[start]), start + 1)
    else NextAnswer(lines, start + 1, hasPreLabel)
  }

  /** Reads lines, stripped and lower-cased already, until one is an accepted command; `None` when
      the input ends first. */
  method ReadCommand(lines: seq<string>, start: nat, hasPreLabel: bool) returns (command: Option<Command>, next: nat)
    requires start <= |lines|
    ensures (command, next) == NextAnswer(lines, start, hasPreLabel)
  {
    next := start;
    while next < |lines|
      invariant start <= next <= |lines|
      invariant NextAnswer(lines, start, hasPreLabel) == NextAnswer(lines, next, hasPreLabel)
    {
      var decoded := Decode(lines[next]);
      if decoded.Some? && Accepted(hasPreLabel, decoded.value) {
        return decoded, next + 1;
      }
      next := next + 1;
    }
    command := None;
  }

  /** Every line before the command read was rejected, and the command is what its own line says. */
  lemma {:induction false} NextAnswerIsFirst(lines: seq<string>, start: nat, hasPreLabel: bool)
    requires start <= |lines|
    ensures var (command, next) := NextAnswer(lines, start, hasPreLabel);
            && (command.Some? ==> Answers(lines[next - 1], hasPreLabel) && Decode(lines[next - 1]) == command)
            && (command.None? ==> next == |lines|)
            && forall i :: start <= i < (if command.Some? then next - 1 else next) ==> !Answers(lines[i], hasPreLabel)
    decreases |lines| - start
  {
    if start < |lines| && !Answers(lines[start], hasPreLabel) {
      NextAnswerIsFirst(lines, start + 1, hasPreLabel);
    }
  }

  /** What has been read after some prompts: the commands, how far the input is used up, and whether a
      prompt found it at its end. */
  datatype Reading = Reading(answers: seq<Command>, next: nat, ended: bool)

  function ReadingAfter(pending: Rows, lines: seq<string>, n: nat): (r: Reading)
    requires n <= |pending|
    ensures r.next <= |lines| && |r.answers| <= n && (!r.ended ==> |r.answers| == n)
  {
    if n == 0 then Reading([], 0, false)
    else
      var before := ReadingAfter(pending, lines, n - 1);
      if before.ended then before
      else
        var (command, next) := NextAnswer(lines, before.next, pending[n - 1].preLabel.Some?);
        if command.None? then before.(next := next, ended := true)
        else Reading(before.answers + [command.value], next, false)
  }

  /** The commands an input gives for the rows shown one after the other. */
  function AnswersIn(pending: Rows, lines: seq<string>): seq<Command> {
    ReadingAfter(pending, lines, |pending|).answers
  }

  lemma {:induction false} EndedStays(pending: Rows, lines: seq<string>, n: nat, m: nat)
    requires n <= m <= |pending| && ReadingAfter(pending, lines, n).ended
    ensures ReadingAfter(pending, lines, m) == ReadingAfter(pending, lines, n)
  {
    if n < m { EndedStays(pending, lines, n, m - 1); }
  }

  // ----- which rows are pending -----

  predicate IsPending(row: CalibrationLabel) {
    row.humanVerdict.None? || row.needsReview
  }

  /** A flagged row is shown with the verdict it carried. */
  function Presented(row: CalibrationLabel): CalibrationLabel {
    if row.humanVerdict.None? then row else row.(priorHumanVerdict := row.humanVerdict)
  }

  function Pending(rows: Rows): Rows {
    if rows == [] then []
    else
      var front := Pending(rows[..|rows| - 1]);
      if IsPending(rows[|rows| - 1]) then front + [Presented(rows[|rows| - 1])] else front
  }

  method CollectPending(rows: Rows) returns (pending: Rows)
    ensures pending == Pending(rows)
  {
    pending := [];
    for n := 0 to |rows|
      invariant pending == Pending(rows[..n])
    {
      assert rows[..n + 1][..n] == rows[..n];
      if rows[n].humanVerdict.None? {
        pending := pending + [rows[n]];
      } else if rows[n].needsReview {
        pending := pending + [rows[n].(priorHumanVerdict := rows[n].humanVerdict)];
      }
    }
    assert rows[..|rows|] == rows;
  }

  /** A judged row is shown with its verdict as the prior one, an unjudged row as it is. */
  ghost predicate ShownAs(row: CalibrationLabel, shown: CalibrationLabel) {
    && shown.(priorHumanVerdict := row.priorHumanVerdict) == row
    && shown.priorHumanVerdict == if row.humanVerdict.Some? then row.humanVerdict else row.priorHumanVerdict
  }

  /** The rows are shown one by one as these. */
  ghost predicate AllShownAs(rows: Rows, shown: Rows) {
    |shown| == |rows| && forall i :: 0 <= i < |rows| ==> ShownAs(rows[i], shown[i])
  }

  /** What is shown are the rows without a verdict or with a flag, in order. */
  lemma {:induction false} PendingAreShown(rows: Rows) returns (part: Rows)
    ensures Selects(rows, (row: CalibrationLabel) => row.humanVerdict.None? || row.needsReview, part)
    ensures AllShownAs(part, Pending(rows))
  {
    var p := (row: CalibrationLabel) => row.humanVerdict.None? || row.needsReview;
    part := [];
    if rows == [] {
      SelectsNone(p);
    } else {
      var front, last := rows[..|rows| - 1], rows[|rows| - 1];
      assert rows == front + [last];
      var before := PendingAreShown(front);
      SelectsSnoc(front, last, p, before);
      part := if p(last) then before + [last] else before;
      OneMoreShown(before, Pending(front), last);
    }
  }

  lemma OneMoreShown(rows: Rows, shown: Rows, row: CalibrationLabel)
    requires AllShownAs(rows, shown)
    ensures AllShownAs(rows + [row], shown + [Presented(row)])
  {}

  // ----- one verdict -----

  datatype Applied = Updated(row: CalibrationLabel) | PreLabelMissing

  /** A row as a verdict leaves it: judged, dated, and cleared of its review flag. */
  function WithVerdict(row: CalibrationLabel, verdict: bool, timestamp: string): CalibrationLabel {
    row.(humanVerdict := Some(verdict), adjudicatedAt := Some(timestamp), needsReview := false,
      priorHumanVerdict := None)
  }

  function ApplyVerdict(row: CalibrationLabel, command: Command, timestamp: string): Applied {
    if command == Skip then Updated(row)
    else if (command == Keep || command == Flip) && row.preLabel.None? then PreLabelMissing
    else
      match command
      case Pass => Updated(WithVerdict(row, true, timestamp))
      case Fail => Updated(WithVerdict(row, false, timestamp))
      case Keep => Updated(WithVerdict(row, row.preLabel.value, timestamp))
      case Flip => Updated(WithVerdict(row, !row.preLabel.value, timestamp))
  }

  /** The verdict a command other than skip means for a row. */
  function Says(row: CalibrationLabel, command: Command): bool {
    (command == Keep && row.preLabel == Some(true)) || (command == Flip && row.preLabel == Some(false))
    || command == Pass
  }

  function Judged(row: CalibrationLabel, command: Command, timestamp: string): CalibrationLabel {
    WithVerdict(row, Says(row, command), timestamp)
  }

  /** A verdict fails exactly when it refers to a pre-label that is not there, so an accepted
      command never fails; and showing a row with its prior verdict leaves no trace on the result. */
  lemma AcceptedCommandsApply(row: CalibrationLabel, command: Command, timestamp: string)
    ensures ApplyVerdict(row, command, timestamp).PreLabelMissing? <==> command in {Keep, Flip} && row.preLabel.None?
    ensures Accepted(row.preLabel.Some?, command) && command != Skip ==>
              ApplyVerdict(Presented(row), command, timestamp) == Updated(Judged(row, command, timestamp))
  {}

  // ----- replacing a row -----

  function Matches(rows: Rows, key: Key): nat {
    if rows == [] then 0 else Matches(rows[..|rows| - 1], key) + if rows[|rows| - 1].Key() == key then 1 else 0
  }

  lemma {:induction false} UniqueKeysMatchOnce(rows: Rows, key: Key)
    requires UniqueKeys(rows)
    ensures Matches(rows, key) <= 1
    ensures Matches(rows, key) == 1 <==> exists i :: 0 <= i < |rows| && rows[i].Key() == key
  {
    if rows != [] {
      var n := |rows| - 1;
      UniqueKeysMatchOnce(rows[..n], key);
      if rows[n].Key() == key {
        assert forall i :: 0 <= i < n ==> rows[..n][i] == rows[i];
      } else if Matches(rows[..n], key) == 1 {
        var i :| 0 <= i < n && rows[..n][i].Key() == key;
        assert rows[i].Key() == key;
      }
    }
  }

  function Replaced(rows: Rows, key: Key, row: CalibrationLabel): Rows {
    seq(|rows|, i requires 0 <= i < |rows| => if rows[i].Key() == key then row else rows[i])
  }

  /** The verdict applies, its key is one row's, and `after` has that row replaced. */
  ghost predicate Records(before: Rows, row: CalibrationLabel, command: Command, timestamp: string, after: Rows) {
    var applied := ApplyVerdict(row, command, timestamp);
    applied.Updated? && Matches(before, row.Key()) <= 1 && after == Replaced(before, row.Key(), applied.row)
  }

  /** A key that matches several rows is refused: one verdict would overwrite another. */
  method ReplaceRow(rows: Rows, prior: CalibrationLabel, row: CalibrationLabel) returns (r: Option<Rows>)
    ensures r == if Matches(rows, prior.Key()) > 1 then None else Some(Replaced(rows, prior.Key(), row))
  {
    var matches := 0;
    for n := 0 to |rows|
      invariant matches == Matches(rows[..n], prior.Key())
    {
      assert rows[..n + 1][..n] == rows[..n];
      if rows[n].recordId == prior.recordId && rows[n].scorer == prior.scorer {
        matches := matches + 1;
      }
    }
    assert rows[..|rows|] == rows;
    if matches > 1 {
      return None;
    }
    var replaced := seq(|rows|, i requires 0 <= i < |rows| =>
      if rows[i].recordId == prior.recordId && rows[i].scorer == prior.scorer then row else rows[i]);
    assert replaced == Replaced(rows, prior.Key(), row);
    r := Some(replaced);
  }

  // ----- a session, as what it does to each row -----

  /** Answers to the first pending rows: all of them, or those given before the session was cut short. */
  ghost predicate ValidAnswers(pending: Rows, answers: seq<Command>) {
    |answers| <= |pending| && forall p :: 0 <= p < |answers| ==> Accepted(pending[p].preLabel.Some?, answers[p])
  }

  /** Whether row `i` was shown and given a verdict. */
  ghost predicate Answered(rows: Rows, answers: seq<Command>, i: nat)
    requires i < |rows|
  {
    IsPending(rows[i]) && |Pending(rows[..i])| < |answers| && answers[|Pending(rows[..i])|] != Skip
  }

  /** Row `i` after the session: the `p`-th answer, at time `clock(p)`, goes to the `p`-th pending row. */
  ghost function AfterSession(rows: Rows, answers: seq<Command>, clock: nat -> string, i: nat): CalibrationLabel
    requires ValidAnswers(Pending(rows), answers) && i < |rows|
  {
    if Answered(rows, answers, i) then
      var p := |Pending(rows[..i])|;
      PendingAt(rows, i);
      Judged(rows[i], answers[p], clock(p))
    else rows[i]
  }

  ghost function Session(rows: Rows, answers: seq<Command>, clock: nat -> string): (after: Rows)
    requires ValidAnswers(Pending(rows), answers)
    ensures |after| == |rows|
  {
    seq(|rows|, i requires 0 <= i < |rows| => AfterSession(rows, answers, clock, i))
  }

  function Verdicts(answers: seq<Command>): nat {
    if answers == [] then 0 else Verdicts(answers[..|answers| - 1]) + if answers[|answers| - 1] == Skip then 0 else 1
  }

  lemma {:induction false} PendingPrefix(rows: Rows, i: nat)
    requires i <= |rows|
    ensures |Pending(rows[..i])| <= |Pending(rows)| && Pending(rows)[..|Pending(rows[..i])|] == Pending(rows[..i])
    decreases |rows|
  {
    if i == |rows| {
      assert rows[..i] == rows;
    } else {
      var front := rows[..|rows| - 1];
      PendingPrefix(front, i);
      assert front[..i] == rows[..i];
    }
  }

  /** The pending row at the position row `i` has is row `i`, as presented. */
  lemma PendingAt(rows: Rows, i: nat)
    requires i < |rows| && IsPending(rows[i])
    ensures |Pending(rows[..i])| < |Pending(rows)| && Pending(rows)[|Pending(rows[..i])|] == Presented(rows[i])
  {
    assert rows[..i + 1][..i] == rows[..i];
    PendingPrefix(rows, i + 1);
  }

  /** Every pending position is the position of exactly one row. */
  lemma {:induction false} PendingOrigin(rows: Rows, p: nat) returns (i: nat)
    requires p < |Pending(rows)|
    ensures i < |rows| && IsPending(rows[i]) && |Pending(rows[..i])| == p
    ensures Pending(rows)[p] == Presented(rows[i])
  {
    var n := |rows| - 1;
    if p < |Pending(rows[..n])| {
      i := PendingOrigin(rows[..n], p);
      assert rows[..n][..i] == rows[..i];
    } else {
      i := n;
    }
  }

  lemma ValidPrefix(pending: Rows, answers: seq<Command>, command: Command)
    requires ValidAnswers(pending, answers + [command])
    ensures ValidAnswers(pending, answers) && Accepted(pending[|answers|].preLabel.Some?, command)
  {
    assert (answers + [command])[|answers|] == command;
    assert forall q :: 0 <= q < |answers| ==> (answers + [command])[q] == answers[q];
  }

  lemma OneMoreAnswerAt(rows: Rows, answers: seq<Command>, clock: nat -> string, command: Command, target: nat, i: nat)
    requires UniqueKeys(rows) && ValidAnswers(Pending(rows), answers + [command])
             && ValidAnswers(Pending(rows), answers)
    requires i < |rows| && target < |rows| && IsPending(rows[target]) && |Pending(rows[..target])| == |answers|
    requires Accepted(rows[target].preLabel.Some?, command)
    ensures AfterSession(rows, answers + [command], clock, i)
         == if command != Skip && i == target then Judged(rows[i], command, clock(|answers|))
            else AfterSession(rows, answers, clock, i)
  {
    PendingAt(rows, target);
    if IsPending(rows[i]) && |Pending(rows[..i])| == |answers| {
      PendingAt(rows, i);
      assert rows[i].Key() == rows[target].Key();
    }
  }

  lemma SessionKeepsKeys(rows: Rows, answers: seq<Command>, clock: nat -> string)
    requires ValidAnswers(Pending(rows), answers)
    ensures KeysOf(Session(rows, answers, clock)) == KeysOf(rows)
    ensures forall i :: 0 <= i < |rows| ==> Session(rows, answers, clock)[i].Key() == rows[i].Key()
    ensures UniqueKeys(rows) ==> UniqueKeys(Session(rows, answers, clock))
  {
    var after := Session(rows, answers, clock);
    forall i | 0 <= i < |rows|
      ensures after[i].Key() == rows[i].Key()
    {
      assert after[i] == AfterSession(rows, answers, clock, i);
    }
  }

  lemma ReplacedIsUpdate(rows: Rows, target: nat, row: CalibrationLabel)
    requires UniqueKeys(rows) && target < |rows|
    ensures Replaced(rows, rows[target].Key(), row) == rows[target := row]
    ensures Matches(rows, rows[target].Key()) <= 1
  {
    UniqueKeysMatchOnce(rows, rows[target].Key());
  }

  lemma SessionStep(rows: Rows, answers: seq<Command>, clock: nat -> string, command: Command, target: nat)
    requires UniqueKeys(rows) && ValidAnswers(Pending(rows), answers + [command])
             && ValidAnswers(Pending(rows), answers)
    requires target < |rows| && IsPending(rows[target]) && |Pending(rows[..target])| == |answers|
    requires Accepted(rows[target].preLabel.Some?, command)
    ensures var before := Session(rows, answers, clock);
            Session(rows, answers + [command], clock)
            == if command == Skip then before else before[target := Judged(rows[target], command, clock(|answers|))]
  {
    forall i | 0 <= i < |rows|
      ensures AfterSession(rows, answers + [command], clock, i)
           == if command != Skip && i == target then Judged(rows[i], command, clock(|answers|))
              else AfterSession(rows, answers, clock, i)
    {
      OneMoreAnswerAt(rows, answers, clock, command, target, i);
    }
  }

  /** One more answer changes the row it was given for, and no other. */
  lemma OneMoreAnswer(rows: Rows, answers: seq<Command>, clock: nat -> string, command: Command)
    requires UniqueKeys(rows) && ValidAnswers(Pending(rows), answers + [command])
    ensures ValidAnswers(Pending(rows), answers)
    ensures if command == Skip then Session(rows, answers + [command], clock) == Session(rows, answers, clock)
            else Records(Session(rows, answers, clock), Pending(rows)[|answers|], command, clock(|answers|),
                         Session(rows, answers + [command], clock))
  {
    ValidPrefix(Pending(rows), answers, command);
    var target := PendingOrigin(rows, |answers|);
    SessionStep(rows, answers, clock, command, target);
    if command != Skip {
      SessionKeepsKeys(rows, answers, clock);
      AcceptedCommandsApply(rows[target], command, clock(|answers|));
      ReplacedIsUpdate(Session(rows, answers, clock), target, Judged(rows[target], command, clock(|answers|)));
    }
  }

  lemma NoAnswers(rows: Rows, clock: nat -> string)
    ensures Session(rows, [], clock) == rows
  {}

  datatype SessionResult = Done(verdicts: nat) | InputEnded(verdicts: nat) | DuplicateLabel | NoReferenceOpinion

  datatype Recording = Wrote(rows: Rows) | Raised(error: SessionResult)

  /** The file is rewritten after each verdict. */
  method RecordVerdict(file: LabelFile, rows: Rows, row: CalibrationLabel, command: Command, timestamp: string)
    returns (r: Recording)
    modifies file
    ensures r.Wrote? <==> ApplyVerdict(row, command, timestamp).Updated? && Matches(rows, row.Key()) <= 1
    ensures r.Wrote? ==> Records(rows, row, command, timestamp, r.rows)
    ensures r == Raised(NoReferenceOpinion) <==> ApplyVerdict(row, command, timestamp).PreLabelMissing?
    ensures file.stored == if r.Wrote? then Some(r.rows) else old(file.stored)
  {
    var updated := ApplyVerdict(row, command, timestamp);
    if updated.PreLabelMissing? {
      return Raised(NoReferenceOpinion);
    }
    var replaced := ReplaceRow(rows, row, updated.row);
    if replaced.None? {
      return Raised(DuplicateLabel);
    }
    file.Write(replaced.value);
    r := Wrote(replaced.value);
  }

  /** What one prompt adds to the answers, to their count, and to the rows. */
  lemma OnePrompt(start: Rows, lines: seq<string>, clock: nat -> string, n: nat)
    requires UniqueKeys(start) && n < |Pending(start)|
    requires !ReadingAfter(Pending(start), lines, n).ended
    requires ValidAnswers(Pending(start), ReadingAfter(Pending(start), lines, n).answers)
    ensures var before, after := ReadingAfter(Pending(start), lines, n), ReadingAfter(Pending(start), lines, n + 1);
            var row := Pending(start)[n];
            var (command, next) := NextAnswer(lines, before.next, row.preLabel.Some?);
            && after.ended == command.None? && after.next == next
            && if command.None? then after.answers == before.answers
               else
                 && ValidAnswers(Pending(start), after.answers)
                 && Verdicts(after.answers) == Verdicts(before.answers) + (if command.value == Skip then 0 else 1)
                 && if command.value == Skip then
                      Session(start, after.answers, clock) == Session(start, before.answers, clock)
                    else Records(Session(start, before.answers, clock), row, command.value, clock(n),
                                 Session(start, after.answers, clock))
  {
    var before := ReadingAfter(Pending(start), lines, n);
    var command := NextAnswer(lines, before.next, Pending(start)[n].preLabel.Some?).0;
    if command.Some? {
      AnswerFits(Pending(start), before.answers, command.value);
      OneMoreAnswer(start, before.answers, clock, command.value);
    }
  }

  lemma AnswerFits(pending: Rows, answers: seq<Command>, command: Command)
    requires |answers| < |pending| && ValidAnswers(pending, answers)
    requires Accepted(pending[|answers|].preLabel.Some?, command)
    ensures ValidAnswers(pending, answers + [command])
    ensures Verdicts(answers + [command]) == Verdicts(answers) + if command == Skip then 0 else 1
  {
    assert (answers + [command])[..|answers|] == answers;
  }

  // ----- what a session leaves pending -----

  /** The pending rows not given a verdict: skipped, or not reached. */
  function Unanswered(pending: Rows, answers: seq<Command>): Rows {
    if pending == [] then []
    else
      var p := |pending| - 1;
      var front := Unanswered(pending[..p], answers);
      if p < |answers| && answers[p] != Skip then front else front + [pending[p]]
  }

  lemma PendingStep(rows: Rows, i: nat)
    requires 0 < i <= |rows|
    ensures Pending(rows[..i])
         == Pending(rows[..i - 1]) + if IsPending(rows[i - 1]) then [Presented(rows[i - 1])] else []
  {
    assert rows[..i][..i - 1] == rows[..i - 1];
  }

  lemma UnansweredStep(front: Rows, row: CalibrationLabel, answers: seq<Command>)
    ensures Unanswered(front + [row], answers)
         == Unanswered(front, answers) + if |front| < |answers| && answers[|front|] != Skip then [] else [row]
  {
    assert (front + [row])[..|front|] == front;
  }

  /** A row is pending after the session exactly when it was before and got no verdict; it is shown alike. */
  lemma StillPending(rows: Rows, answers: seq<Command>, clock: nat -> string, i: nat)
    requires ValidAnswers(Pending(rows), answers) && i < |rows|
    ensures var row := AfterSession(rows, answers, clock, i);
            && (IsPending(row) <==> IsPending(rows[i]) && !Answered(rows, answers, i))
            && (IsPending(row) ==> row == rows[i] && Presented(row) == Presented(rows[i]))
  {}

  lemma {:induction false} PendingAfterPrefix(rows: Rows, answers: seq<Command>, clock: nat -> string, i: nat)
    requires ValidAnswers(Pending(rows), answers) && i <= |rows|
    ensures Pending(Session(rows, answers, clock)[..i]) == Unanswered(Pending(rows[..i]), answers)
  {
    if i > 0 {
      var after := Session(rows, answers, clock);
      PendingAfterPrefix(rows, answers, clock, i - 1);
      PendingStep(rows, i);
      PendingStep(after, i);
      assert after[i - 1] == AfterSession(rows, answers, clock, i - 1);
      StillPending(rows, answers, clock, i - 1);
      if IsPending(rows[i - 1]) {
        UnansweredStep(Pending(rows[..i - 1]), Presented(rows[i - 1]), answers);
      } else {
        assert Pending(rows[..i]) == Pending(rows[..i - 1]) + [] == Pending(rows[..i - 1]);
        assert Pending(after[..i]) == Pending(after[..i - 1]) + [] == Pending(after[..i - 1]);
      }
    }
  }

  lemma {:induction false} UnansweredCount(pending: Rows, answers: seq<Command>)
    ensures |answers| <= |pending| ==> |Unanswered(pending, answers)| + Verdicts(answers) == |pending|
    ensures |answers| > |pending| ==> |Unanswered(pending, answers)| + Verdicts(answers[..|pending|]) == |pending|
  {
    if pending != [] {
      var p := |pending| - 1;
      UnansweredCount(pending[..p], answers);
      if |answers| > p {
        assert answers[..p + 1][..p] == answers[..p];
        if |answers| == p + 1 { assert answers[..p + 1] == answers; }
      }
    } else {
      assert answers[..0] == [];
    }
  }

  /** MAIN. A session keeps every key in place, changes only the rows it answers, and leaves pending
      exactly the old pending list without the answered rows; its count is the difference. */
  lemma SessionShrinksPending(rows: Rows, answers: seq<Command>, clock: nat -> string)
    requires ValidAnswers(Pending(rows), answers)
    ensures var after := Session(rows, answers, clock);
            && KeysOf(after) == KeysOf(rows)
            && (UniqueKeys(rows) ==> UniqueKeys(after))
            && Pending(after) == Unanswered(Pending(rows), answers)
            && |Pending(after)| == |Pending(rows)| - Verdicts(answers)
            && (forall i :: 0 <= i < |rows| ==> (after[i] == rows[i] || Answered(rows, answers, i)))
  {
    SessionKeepsKeys(rows, answers, clock);
    PendingAfterSession(rows, answers, clock);
    UnansweredCount(Pending(rows), answers);
  }

  lemma PendingAfterSession(rows: Rows, answers: seq<Command>, clock: nat -> string)
    requires ValidAnswers(Pending(rows), answers)
    ensures Pending(Session(rows, answers, clock)) == Unanswered(Pending(rows), answers)
  {
    var after := Session(rows, answers, clock);
    PendingAfterPrefix(rows, answers, clock, |rows|);
    assert after[..|rows|] == after && rows[..|rows|] == rows;
  }

  // ----- what the input does to the file -----

  /** The verdict a line gives a row with this pre-label, if it gives one. */
  function Spoken(line: string, preLabel: Option<bool>): Option<bool> {
    match preLabel
    case Some(b) => if line in {"keep", "k"} then Some(b) else if line in {"flip", "f"} then Some(!b) else None
    case None => if line in {"pass", "p"} then Some(true) else if line in {"fail", "n"} then Some(false) else None
  }

  predicate Skips(line: string) { line == "skip" || line == "s" }

  lemma GetFrom<V>(table: seq<(string, V)>, i: nat, key: string)
    requires i < |table|
    ensures Get(table[i..], key) == if table[i].0 == key then Some(table[i].1) else Get(table[i + 1..], key)
  {
    assert table[i..][1..] == table[i + 1..];
  }

  lemma ShortcutIs(key: string)
    ensures Get(SHORTCUTS, key)
         == if key == "k" then Some("keep") else if key == "f" then Some("flip") else if key == "p" then Some("pass")
            else if key == "n" then Some("fail") else if key == "s" then Some("skip") else None
  {
    assert SHORTCUTS[0..] == SHORTCUTS;
    forall i | 0 <= i < 5 { GetFrom(SHORTCUTS, i, key); }
    assert Get(SHORTCUTS[5..], key) == None;
  }

  lemma NameIs(key: string)
    ensures Get(NAMES, key)
         == if key == "keep" then Some(Keep) else if key == "flip" then Some(Flip) else if key == "pass" then Some(Pass)
            else if key == "fail" then Some(Fail) else if key == "skip" then Some(Skip) else None
  {
    assert NAMES[0..] == NAMES;
    forall i | 0 <= i < 5 { GetFrom(NAMES, i, key); }
    assert Get(NAMES[5..], key) == None;
  }

  lemma DecodeIs(line: string)
    ensures Decode(line)
         == if line in {"keep", "k"} then Some(Keep) else if line in {"flip", "f"} then Some(Flip)
            else if line in {"pass", "p"} then Some(Pass) else if line in {"fail", "n"} then Some(Fail)
            else if Skips(line) then Some(Skip) else None
  {
    var short := Get(SHORTCUTS, line);
    ShortcutIs(line);
    NameIs(if short.Some? then short.value else line);
  }

  /** A prompt accepts exactly the lines that skip or give its row a verdict. */
  lemma LineSays(line: string, row: CalibrationLabel)
    ensures Answers(line, row.preLabel.Some?) <==> Skips(line) || Spoken(line, row.preLabel).Some?
    ensures Answers(line, row.preLabel.Some?) ==>
              && (Decode(line).value == Skip <==> Skips(line))
              && (!Skips(line) ==> Spoken(line, row.preLabel) == Some(Says(row, Decode(line).value)))
  {
    DecodeIs(line);
  }

  /** The new row is the old one with the verdict, its date, and nothing left to review. */
  ghost predicate Dated(was: CalibrationLabel, now: CalibrationLabel, verdict: bool, date: string) {
    && now.humanVerdict == Some(verdict) && now.adjudicatedAt == Some(date)
    && !now.needsReview && now.priorHumanVerdict.None?
    && now.recordId == was.recordId && now.scorer == was.scorer && now.outputText == was.outputText
    && now.scorerVerdict == was.scorerVerdict && now.preLabel == was.preLabel
    && now.preLabellerModel == was.preLabellerModel && now.notes == was.notes && now.criteria == was.criteria
    && now.playerMessage == was.playerMessage && now.observed == was.observed
    && now.labelSchemaVersion == was.labelSchemaVersion && now.genId == was.genId
    && now.goldenSetVersion == was.goldenSetVersion && now.outputSha256 == was.outputSha256
    && now.criteriaSha256 == was.criteriaSha256 && now.humanLabeller == was.humanLabeller
  }

  /** Unjudged, or flagged for review. */
  ghost predicate Waiting(row: CalibrationLabel) { row.humanVerdict.None? || row.needsReview }

  ghost function WaitingBefore(rows: Rows, i: nat): set<nat>
    requires i <= |rows|
  {
    set j: nat | j < i && Waiting(rows[j])
  }

  /** How many rows before place `i` are waiting: the number of its prompt. */
  ghost function PromptOf(rows: Rows, i: nat): nat
    requires i <= |rows|
  {
    |WaitingBefore(rows, i)|
  }

  /** From line `from` on, `to` is the first line that skips or gives the row a verdict, if any does. */
  ghost predicate Heard(row: CalibrationLabel, lines: seq<string>, from: int, to: int, answered: bool) {
    && 0 <= from <= to <= |lines|
    && (forall j :: from <= j < to ==> !Skips(lines[j]) && Spoken(lines[j], row.preLabel).None?)
    && (answered ==> to < |lines| && (Skips(lines[to]) || Spoken(lines[to], row.preLabel).Some?))
  }

  /** The line after the one that answers the prompt before. */
  ghost function StartOf(at: seq<nat>, p: nat): int
    requires p <= |at|
  {
    if p == 0 then 0 else at[p - 1] + 1
  }

  ghost function EndOf(at: seq<nat>, p: nat, lines: seq<string>): int { if p < |at| then at[p] else |lines| }

  /** Line `at[p]` answers the prompt of row `i`; without an answer to the last prompt, no line is left that does. */
  ghost predicate AnsweredBy(rows: Rows, lines: seq<string>, at: seq<nat>, i: nat)
    requires i < |rows|
  {
    var p := PromptOf(rows, i);
    Waiting(rows[i]) && p <= |at| ==> Heard(rows[i], lines, StartOf(at, p), EndOf(at, p, lines), p < |at|)
  }

  /** The row as the line leaves it: as it was, or with the line's verdict, dated. */
  ghost predicate FiledBy(was: CalibrationLabel, now: CalibrationLabel, line: string, date: string) {
    if Skips(line) then now == was
    else Spoken(line, was.preLabel).Some? && Dated(was, now, Spoken(line, was.preLabel).value, date)
  }

  /** Row `i` after the session: as its line leaves it at its own prompt, or as it was. */
  ghost predicate FiledAs(rows: Rows, after: Rows, lines: seq<string>, clock: nat -> string, at: seq<nat>, i: nat)
    requires i < |rows| == |after|
  {
    var p := PromptOf(rows, i);
    if Waiting(rows[i]) && p < |at| && at[p] < |lines| then FiledBy(rows[i], after[i], lines[at[p]], clock(p))
    else after[i] == rows[i]
  }

  ghost predicate Filed(rows: Rows, after: Rows, lines: seq<string>, clock: nat -> string, at: seq<nat>) {
    && |after| == |rows| && |at| <= PromptOf(rows, |rows|)
    && forall i :: 0 <= i < |rows| ==> AnsweredBy(rows, lines, at, i) && FiledAs(rows, after, lines, clock, at, i)
  }

  lemma {:induction false} PromptIs(rows: Rows, i: nat)
    requires i <= |rows|
    ensures PromptOf(rows, i) == |Pending(rows[..i])|
  {
    if i == 0 {
      assert WaitingBefore(rows, 0) == {};
    } else {
      PromptIs(rows, i - 1);
      PendingStep(rows, i);
      PromptStep(rows, i);
    }
  }

  lemma PromptStep(rows: Rows, i: nat)
    requires 0 < i <= |rows|
    ensures PromptOf(rows, i) == PromptOf(rows, i - 1) + if Waiting(rows[i - 1]) then 1 else 0
  {
    assert WaitingBefore(rows, i) == WaitingBefore(rows, i - 1) + if Waiting(rows[i - 1]) then {i - 1} else {};
  }

  /** The line that answers each prompt: the one before where the reading stands afterwards. */
  ghost function LinesOf(pending: Rows, lines: seq<string>, n: nat): seq<nat>
    requires n <= |pending| && !ReadingAfter(pending, lines, n).ended
  {
    if n == 0 then []
    else
      StillReading(pending, lines, n);
      LinesOf(pending, lines, n - 1) + [ReadingAfter(pending, lines, n).next - 1]
  }

  lemma StillReading(pending: Rows, lines: seq<string>, n: nat)
    requires 0 < n <= |pending| && !ReadingAfter(pending, lines, n).ended
    ensures !ReadingAfter(pending, lines, n - 1).ended && ReadingAfter(pending, lines, n).next > 0
  {}

  /** From line `from` on, `to` is the first line the prompt accepts, if any is. */
  ghost predicate Stops(lines: seq<string>, from: int, to: int, hasPreLabel: bool, answered: bool) {
    && 0 <= from <= to <= |lines|
    && (forall j :: from <= j < to ==> !Answers(lines[j], hasPreLabel))
    && (answered ==> to < |lines| && Answers(lines[to], hasPreLabel))
  }

  lemma StopsIsHeard(row: CalibrationLabel, lines: seq<string>, from: int, to: int, answered: bool)
    requires Stops(lines, from, to, row.preLabel.Some?, answered)
    ensures Heard(row, lines, from, to, answered)
  {
    forall j | 0 <= j < |lines|
      ensures Answers(lines[j], row.preLabel.Some?) <==>
              Skips(lines[j]) || Spoken(lines[j], row.preLabel).Some?
    {
      LineSays(lines[j], row);
    }
  }

  lemma JudgedIsFiled(row: CalibrationLabel, line: string, date: string)
    requires Answers(line, row.preLabel.Some?)
    ensures FiledBy(row, if Decode(line).value == Skip then row else Judged(row, Decode(line).value, date), line, date)
  {
    LineSays(line, row);
  }

  /** What the reading did at prompt `n`. */
  lemma OneReading(pending: Rows, lines: seq<string>, n: nat)
    requires n < |pending| && !ReadingAfter(pending, lines, n).ended
    ensures var before, after := ReadingAfter(pending, lines, n), ReadingAfter(pending, lines, n + 1);
            var to := if after.ended then |lines| else after.next - 1;
            && Stops(lines, before.next, to, pending[n].preLabel.Some?, !after.ended)
            && (!after.ended ==> after.answers == before.answers + [Decode(lines[to]).value])
  {
    NextAnswerIsFirst(lines, ReadingAfter(pending, lines, n).next, pending[n].preLabel.Some?);
  }

  lemma {:induction false} LinesAre(pending: Rows, lines: seq<string>, n: nat, p: nat)
    requires p < n <= |pending| && !ReadingAfter(pending, lines, n).ended
    ensures !ReadingAfter(pending, lines, p).ended && !ReadingAfter(pending, lines, p + 1).ended
    ensures |LinesOf(pending, lines, n)| == n
    ensures LinesOf(pending, lines, n)[p] == ReadingAfter(pending, lines, p + 1).next - 1
    ensures |ReadingAfter(pending, lines, n).answers| == n
    ensures ReadingAfter(pending, lines, n).answers[p] == ReadingAfter(pending, lines, p + 1).answers[p]
  {
    StillReading(pending, lines, n);
    if p < n - 1 {
      LinesAre(pending, lines, n - 1, p);
    } else if n > 1 {
      LinesAre(pending, lines, n - 1, n - 2);
    }
  }

  lemma {:induction false} LastPrompt(pending: Rows, lines: seq<string>, n: nat)
    requires n <= |pending|
    ensures var answers := ReadingAfter(pending, lines, n).answers;
            && |answers| <= n && !ReadingAfter(pending, lines, |answers|).ended
            && ReadingAfter(pending, lines, |answers|).answers == answers
            && (|answers| < n ==> ReadingAfter(pending, lines, |answers| + 1).ended)
  {
    if n > 0 && ReadingAfter(pending, lines, n).ended {
      EndOfReading(pending, lines, n);
      if ReadingAfter(pending, lines, n - 1).ended { LastPrompt(pending, lines, n - 1); }
    }
  }

  lemma EndOfReading(pending: Rows, lines: seq<string>, n: nat)
    requires 0 < n <= |pending| && ReadingAfter(pending, lines, n).ended
    ensures ReadingAfter(pending, lines, n).answers == ReadingAfter(pending, lines, n - 1).answers
  {}

  ghost function AnsweringLines(rows: Rows, lines: seq<string>): seq<nat> {
    var pending := Pending(rows);
    LastPrompt(pending, lines, |pending|);
    LinesOf(pending, lines, |AnswersIn(pending, lines)|)
  }

  lemma {:induction false} LinesCount(pending: Rows, lines: seq<string>, n: nat)
    requires n <= |pending| && !ReadingAfter(pending, lines, n).ended
    ensures |LinesOf(pending, lines, n)| == n
  {
    if n > 0 { LinesAre(pending, lines, n, 0); }
  }

  lemma AnsweringLinesCount(rows: Rows, lines: seq<string>)
    ensures |AnsweringLines(rows, lines)| == |AnswersIn(Pending(rows), lines)| <= |Pending(rows)|
  {
    LastPrompt(Pending(rows), lines, |Pending(rows)|);
    LinesCount(Pending(rows), lines, |AnswersIn(Pending(rows), lines)|);
  }

  /** Where prompt `p` starts reading and where it stops, in terms of the reading. */
  lemma PromptEnds(rows: Rows, lines: seq<string>, p: nat)
    requires p < |Pending(rows)| && p <= |AnswersIn(Pending(rows), lines)|
    ensures var at, pending := AnsweringLines(rows, lines), Pending(rows);
            var before, after := ReadingAfter(pending, lines, p), ReadingAfter(pending, lines, p + 1);
            && |at| == |AnswersIn(pending, lines)| && !before.ended && (after.ended <==> p == |at|)
            && StartOf(at, p) == before.next
            && EndOf(at, p, lines) == if after.ended then |lines| else after.next - 1
  {
    var pending := Pending(rows);
    var a := |AnswersIn(pending, lines)|;
    LastPrompt(pending, lines, |pending|);
    LinesCount(pending, lines, a);
    if p < a { LinesAre(pending, lines, a, p); }
    if p > 0 {
      LinesAre(pending, lines, a, p - 1);
      StillReading(pending, lines, p);
    }
  }

  lemma PromptAnswer(rows: Rows, lines: seq<string>, p: nat)
    requires p < |AnswersIn(Pending(rows), lines)| <= |Pending(rows)|
    ensures var pending := Pending(rows);
            && |ReadingAfter(pending, lines, p).answers| == p
            && |ReadingAfter(pending, lines, p + 1).answers| == p + 1
            && AnswersIn(pending, lines)[p] == ReadingAfter(pending, lines, p + 1).answers[p]
  {
    var pending := Pending(rows);
    var a := |AnswersIn(pending, lines)|;
    LastPrompt(pending, lines, |pending|);
    LinesAre(pending, lines, a, p);
    LinesAre(pending, lines, p + 1, p);
    if p > 0 { LinesAre(pending, lines, p, p - 1); }
  }

  lemma PromptReads(rows: Rows, lines: seq<string>, p: nat)
    requires p < |Pending(rows)| && p <= |AnsweringLines(rows, lines)|
    ensures var at := AnsweringLines(rows, lines);
            && Stops(lines, StartOf(at, p), EndOf(at, p, lines), Pending(rows)[p].preLabel.Some?, p < |at|)
            && (p < |at| ==> p < |AnswersIn(Pending(rows), lines)| && at[p] < |lines|
                             && Decode(lines[at[p]]) == Some(AnswersIn(Pending(rows), lines)[p]))
  {
    AnsweringLinesCount(rows, lines);
    PromptEnds(rows, lines, p);
    OneReading(Pending(rows), lines, p);
    if p < |AnsweringLines(rows, lines)| { PromptAnswer(rows, lines, p); }
  }

  lemma RowIsAnswered(rows: Rows, lines: seq<string>, i: nat)
    requires i < |rows|
    ensures AnsweredBy(rows, lines, AnsweringLines(rows, lines), i)
  {
    var p, at := PromptOf(rows, i), AnsweringLines(rows, lines);
    PromptIs(rows, i);
    if Waiting(rows[i]) && p <= |at| {
      PendingAt(rows, i);
      PromptReads(rows, lines, p);
      StopsIsHeard(rows[i], lines, StartOf(at, p), EndOf(at, p, lines), p < |at|);
    }
  }

  lemma RowAfterSession(rows: Rows, answers: seq<Command>, clock: nat -> string, i: nat)
    requires i < |rows| && ValidAnswers(Pending(rows), answers)
    ensures var p, row := PromptOf(rows, i), rows[i];
            Session(rows, answers, clock)[i]
            == if Waiting(row) && p < |answers| && answers[p] != Skip then Judged(row, answers[p], clock(p)) else row
  {
    PromptIs(rows, i);
    if Waiting(rows[i]) { PendingAt(rows, i); }
  }

  lemma RowIsFiled(rows: Rows, lines: seq<string>, clock: nat -> string, i: nat)
    requires i < |rows| && ValidAnswers(Pending(rows), AnswersIn(Pending(rows), lines))
    ensures FiledAs(rows, Session(rows, AnswersIn(Pending(rows), lines), clock), lines, clock,
                    AnsweringLines(rows, lines), i)
  {
    var p, at := PromptOf(rows, i), AnsweringLines(rows, lines);
    PromptIs(rows, i);
    AnsweringLinesCount(rows, lines);
    RowAfterSession(rows, AnswersIn(Pending(rows), lines), clock, i);
    if Waiting(rows[i]) && p < |at| {
      PendingAt(rows, i);
      PromptReads(rows, lines, p);
      JudgedIsFiled(rows[i], lines[at[p]], clock(p));
    }
  }

  lemma SessionIsFiled(rows: Rows, lines: seq<string>, clock: nat -> string)
    requires ValidAnswers(Pending(rows), AnswersIn(Pending(rows), lines))
    ensures |AnsweringLines(rows, lines)| == |AnswersIn(Pending(rows), lines)|
    ensures PromptOf(rows, |rows|) == |Pending(rows)|
    ensures Filed(rows, Session(rows, AnswersIn(Pending(rows), lines), clock), lines, clock,
                  AnsweringLines(rows, lines))
  {
    PromptIs(rows, |rows|);
    assert rows[..|rows|] == rows;
    AnsweringLinesCount(rows, lines);
    forall i | 0 <= i < |rows|
      ensures AnsweredBy(rows, lines, AnsweringLines(rows, lines), i)
      ensures FiledAs(rows, Session(rows, AnswersIn(Pending(rows), lines), clock), lines, clock,
                      AnsweringLines(rows, lines), i)
    {
      RowIsAnswered(rows, lines, i);
      RowIsFiled(rows, lines, clock, i);
    }
  }

  /** MAIN. The loop presents the pending rows in turn and rewrites the file after each verdict. On a
      file without repeated keys it never fails, and whether it finishes or its input ends, the file
      holds exactly the session of the answers its input gives. */
  method RunAdjudication(file: LabelFile, lines: seq<string>, clock: nat -> string) returns (r: SessionResult)
    requires file.Exists()
    modifies file
    ensures file.stored.Some?
    ensures r.DuplicateLabel? <==> !UniqueKeys(old(file.stored.value))
    ensures !r.NoReferenceOpinion?
    ensures r.DuplicateLabel? ==> file.stored == old(file.stored)
    ensures !r.DuplicateLabel? ==>
              var pending := Pending(old(file.stored.value));
              var answers := AnswersIn(pending, lines);
              && ValidAnswers(pending, answers)
              && file.stored.value == Session(old(file.stored.value), answers, clock)
              && (r.Done? <==> |answers| == |pending|)
              && r.verdicts == Verdicts(answers)
    ensures !r.DuplicateLabel? ==>
              exists at :: Filed(old(file.stored.value), file.stored.value, lines, clock, at)
                           && (r.Done? <==> |at| == PromptOf(old(file.stored.value), |old(file.stored.value)|))
  {
    var read := file.Read();
    if read.DuplicateLabelKey? {
      return DuplicateLabel;
    }
    ghost var start := file.stored.value;
    var rows := read.rows;
    var pending := CollectPending(rows);
    var verdicts: nat, next: nat := 0, 0;
    NoAnswers(start, clock);
    for n := 0 to |pending|
      invariant var reading := ReadingAfter(pending, lines, n);
                && !reading.ended && reading.next == next && ValidAnswers(pending, reading.answers)
                && rows == Session(start, reading.answers, clock) && verdicts == Verdicts(reading.answers)
      invariant file.stored == Some(rows)
    {
      var row := pending[n];
      OnePrompt(start, lines, clock, n);
      var command, position := ReadCommand(lines, next, row.preLabel.Some?);
      if command.None? {
        EndedStays(pending, lines, n + 1, |pending|);
        SessionIsFiled(start, lines, clock);
        return InputEnded(verdicts);
      }
      next := position;
      if command.value != Skip {
        var recorded := RecordVerdict(file, rows, row, command.value, clock(n));
        match recorded {
          case Raised(error) => return error;
          case Wrote(written) => rows, verdicts := written, verdicts + 1;
        }
      }
    }
    SessionIsFiled(start, lines, clock);
    r := Done(verdicts);
  }

  // ----- stopping and resuming -----

  /** The same row but for the time of its verdict. */
  predicate SameButForTime(a: CalibrationLabel, b: CalibrationLabel) {
    a == b.(adjudicatedAt := a.adjudicatedAt)
  }

  /** An opinion on every row, given in the same way whenever the row is shown. */
  ghost predicate Consistent(rows: Rows, opinion: Key -> Command) {
    forall i :: 0 <= i < |rows| && IsPending(rows[i]) ==> Accepted(rows[i].preLabel.Some?, opinion(rows[i].Key()))
  }

  /** The answers of someone who stops after `n` prompts. */
  ghost function AnswersOf(pending: Rows, opinion: Key -> Command, n: nat): seq<Command>
    requires n <= |pending|
  {
    seq(n, p requires 0 <= p < n => opinion(pending[p].Key()))
  }

  lemma OpinionsAreValid(rows: Rows, opinion: Key -> Command, n: nat)
    requires Consistent(rows, opinion) && n <= |Pending(rows)|
    ensures ValidAnswers(Pending(rows), AnswersOf(Pending(rows), opinion, n))
  {
    forall p | 0 <= p < n
      ensures Accepted(Pending(rows)[p].preLabel.Some?, opinion(Pending(rows)[p].Key()))
    {
      var i := PendingOrigin(rows, p);
    }
  }

  /** A row on its way from `first` to its judged form: untouched, or there but for the time. */
  predicate Underway(first: CalibrationLabel, row: CalibrationLabel, opinion: Key -> Command)
    requires IsPending(first) ==> Accepted(first.preLabel.Some?, opinion(first.Key()))
  {
    row == first || Finished(first, row, opinion)
  }

  predicate Finished(first: CalibrationLabel, row: CalibrationLabel, opinion: Key -> Command)
    requires IsPending(first) ==> Accepted(first.preLabel.Some?, opinion(first.Key()))
  {
    if IsPending(first) && opinion(first.Key()) != Skip
      then SameButForTime(row, Judged(first, opinion(first.Key()), ""))
    else row == first
  }

  ghost predicate AllUnderway(first: Rows, rows: Rows, opinion: Key -> Command)
    requires Consistent(first, opinion)
  {
    |rows| == |first| && forall i :: 0 <= i < |rows| ==> Underway(first[i], rows[i], opinion)
  }

  lemma JudgedAtAnyTime(row: CalibrationLabel, command: Command, timestamp: string, timestamp': string)
    ensures SameButForTime(Judged(row, command, timestamp), Judged(row, command, timestamp'))
    ensures !IsPending(Judged(row, command, timestamp))
  {}

  lemma SettledIsNotPending(first: CalibrationLabel, row: CalibrationLabel, command: Command)
    requires SameButForTime(row, Judged(first, command, ""))
    ensures !IsPending(row)
  {}

  /** A sitting of `n` prompts moves every row forward, the ones it reaches to the end. */
  lemma SittingAt(first: Rows, rows: Rows, opinion: Key -> Command, clock: nat -> string, n: nat, i: nat)
    requires Consistent(first, opinion) && AllUnderway(first, rows, opinion)
    requires n <= |Pending(rows)| && i < |rows|
    requires ValidAnswers(Pending(rows), AnswersOf(Pending(rows), opinion, n))
    ensures var row := AfterSession(rows, AnswersOf(Pending(rows), opinion, n), clock, i);
            Underway(first[i], row, opinion) && (n == |Pending(rows)| ==> Finished(first[i], row, opinion))
  {
    assert Underway(first[i], rows[i], opinion);
    var command := opinion(first[i].Key());
    if rows[i] == first[i] && IsPending(rows[i]) {
      PendingAt(rows, i);
      var p := |Pending(rows[..i])|;
      assert Presented(rows[i]).Key() == rows[i].Key();
      assert p < n ==> AnswersOf(Pending(rows), opinion, n)[p] == command;
      JudgedAtAnyTime(first[i], command, clock(p), "");
    } else if IsPending(first[i]) && command != Skip {
      SettledIsNotPending(first[i], rows[i], command);
    }
  }

  lemma UnderwayIsConsistent(first: Rows, rows: Rows, opinion: Key -> Command)
    requires Consistent(first, opinion) && AllUnderway(first, rows, opinion)
    ensures Consistent(rows, opinion)
  {
    forall i | 0 <= i < |rows| && IsPending(rows[i])
      ensures Accepted(rows[i].preLabel.Some?, opinion(rows[i].Key()))
    {
      assert Underway(first[i], rows[i], opinion);
    }
  }

  ghost function Sitting(rows: Rows, opinion: Key -> Command, clock: nat -> string, n: nat): Rows
    requires Consistent(rows, opinion) && n <= |Pending(rows)|
  {
    OpinionsAreValid(rows, opinion, n);
    Session(rows, AnswersOf(Pending(rows), opinion, n), clock)
  }

  lemma SittingMovesForward(first: Rows, rows: Rows, opinion: Key -> Command, clock: nat -> string, n: nat)
    requires Consistent(first, opinion) && AllUnderway(first, rows, opinion) && Consistent(rows, opinion)
    requires n <= |Pending(rows)|
    ensures AllUnderway(first, Sitting(rows, opinion, clock, n), opinion)
    ensures n == |Pending(rows)| ==>
              forall i :: 0 <= i < |rows| ==> Finished(first[i], Sitting(rows, opinion, clock, n)[i], opinion)
  {
    OpinionsAreValid(rows, opinion, n);
    forall i | 0 <= i < |rows|
      ensures Underway(first[i], Sitting(rows, opinion, clock, n)[i], opinion)
      ensures n == |Pending(rows)| ==> Finished(first[i], Sitting(rows, opinion, clock, n)[i], opinion)
    {
      SittingAt(first, rows, opinion, clock, n, i);
    }
  }

  /** Sittings cut short, each after as many prompts as given, or earlier when nothing is left. */
  ghost function Sittings(rows: Rows, opinion: Key -> Command, clock: nat -> string, stops: seq<nat>): (after: Rows)
    requires Consistent(rows, opinion)
    ensures AllUnderway(rows, after, opinion)
    decreases |stops|
  {
    if stops == [] then rows
    else
      var before := Sittings(rows, opinion, clock, stops[..|stops| - 1]);
      UnderwayIsConsistent(rows, before, opinion);
      var last := stops[|stops| - 1];
      var n := if last <= |Pending(before)| then last else |Pending(before)|;
      SittingMovesForward(rows, before, opinion, clock, n);
      Sitting(before, opinion, clock, n)
  }

  /** MAIN. However often the work is stopped and resumed, finishing it gives the rows of one
      uninterrupted session with the same opinions, up to the times of the verdicts. */
  lemma ResumingIsUninterrupted(rows: Rows, opinion: Key -> Command, clock: nat -> string, clock': nat -> string,
                                stops: seq<nat>)
    requires Consistent(rows, opinion)
    ensures var before := Sittings(rows, opinion, clock, stops);
            Consistent(before, opinion) &&
            var resumed := Sitting(before, opinion, clock, |Pending(before)|);
            var whole := Sitting(rows, opinion, clock', |Pending(rows)|);
            |resumed| == |whole| == |rows| && forall i :: 0 <= i < |rows| ==> SameButForTime(resumed[i], whole[i])
  {
    var before := Sittings(rows, opinion, clock, stops);
    UnderwayIsConsistent(rows, before, opinion);
    SittingMovesForward(rows, before, opinion, clock, |Pending(before)|);
    SittingMovesForward(rows, rows, opinion, clock', |Pending(rows)|);
  }
}
