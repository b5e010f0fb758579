/** Importing a labelling session, after `evals/label_import.py`. Hashing and the normalisation of
    record ids are parameters. */
module LabelImport {
  import opened CalibrationRecords
  import opened Options

  /** A field that need not be there. */
  datatype Notes = Absent | Text(value: string) | WrongType

  /** One object of the labeller's file; `None` stands for a field absent or of the wrong type. */
  datatype RawRow = RawRow(
    recordId: Option<string>,
    scorer: Option<string>,
    preLabel: Option<bool>,
    notes: Notes,
    hasOutputText: bool,
    hasScorerVerdict: bool)

  datatype ExportItem = ExportItem(
    recordId: string,
    scorer: string,
    playerMessage: string,
    criteria: string,
    outputText: string,
    observed: map<string, string>)

  datatype ImportError =
    | ContaminatedRow(recordId: string)
    | UnknownRecordId(recordId: string)
    | MissingVerdict(recordId: string)
    | InvalidRow

  /** What one import joins the labeller's rows with. */
  datatype Source = Source(
    transcript: map<string, ExportItem>,
    judged: map<string, bool>,
    preLabellerModel: string,
    genId: string,
    goldenSetVersion: string,
    sha256: string -> string,
    itemId: string -> string)
  {
    ghost predicate HashesAreNonEmpty() {
      forall text :: sha256(text) != ""
    }
  }

  function RawId(raw: RawRow): string {
    if raw.recordId.Some? then raw.recordId.value else ""
  }

  /** The first check a row fails, in the order the checks are made. */
  function RowError(raw: RawRow, source: Source): Option<ImportError> {
    var id := source.itemId(RawId(raw));
    if raw.hasOutputText || raw.hasScorerVerdict then Some(ContaminatedRow(RawId(raw)))
    else if id !in source.transcript then Some(UnknownRecordId(RawId(raw)))
    else if id !in source.judged then Some(MissingVerdict(RawId(raw)))
    else if raw.recordId.None? || raw.scorer.None? || raw.preLabel.None? || raw.notes.WrongType? then Some(InvalidRow)
    else None
  }

  function ImportedRow(raw: RawRow, source: Source): CalibrationLabel
    requires RowError(raw, source).None?
  {
    var id := source.itemId(RawId(raw));
    var item := source.transcript[id];
    CalibrationLabel(
      raw.recordId.value, raw.scorer.value, item.outputText, source.judged[id], raw.preLabel, source.preLabellerModel,
      None, None, if raw.notes.Text? then raw.notes.value else "", item.criteria, item.playerMessage, item.observed,
      1, source.genId, source.goldenSetVersion, source.sha256(item.outputText), source.sha256(item.criteria), "",
      false, None)
  }

  // ----- what a row is made of, and why one is refused -----

  ghost predicate Contaminated(raw: RawRow) { raw.hasOutputText || raw.hasScorerVerdict }

  ghost predicate Malformed(raw: RawRow) {
    raw.recordId == None || raw.scorer == None || raw.preLabel == None || raw.notes == WrongType
  }

  /** The check the row fails: it passes the earlier ones. */
  ghost predicate Refused(raw: RawRow, source: Source, error: ImportError) {
    var given := if raw.recordId.Some? then raw.recordId.value else "";
    var known, judged := source.itemId(given) in source.transcript, source.itemId(given) in source.judged;
    match error
    case ContaminatedRow(id) => Contaminated(raw) && id == given
    case UnknownRecordId(id) => !Contaminated(raw) && !known && id == given
    case MissingVerdict(id) => !Contaminated(raw) && known && !judged && id == given
    case InvalidRow => !Contaminated(raw) && known && judged && Malformed(raw)
  }

  /** What the labeller gave is kept: its ids, its verdict as the pre-label, and its notes. */
  ghost predicate KeepsRaw(row: CalibrationLabel, raw: RawRow) {
    && raw.recordId == Some(row.recordId) && raw.scorer == Some(row.scorer)
    && row.preLabel.Some? && raw.preLabel == row.preLabel
    && (raw.notes == Text(row.notes) || (raw.notes == Absent && row.notes == ""))
  }

  /** The texts are the transcript's, each hash is of its own text, and the scorer's verdict is the judged one. */
  ghost predicate JoinsSource(row: CalibrationLabel, source: Source) {
    var id := source.itemId(row.recordId);
    && id in source.transcript && id in source.judged && row.scorerVerdict == source.judged[id]
    && var item := source.transcript[id];
       && row.outputText == item.outputText && row.outputSha256 == source.sha256(item.outputText)
       && row.criteria == item.criteria && row.criteriaSha256 == source.sha256(item.criteria)
       && row.playerMessage == item.playerMessage && row.observed == item.observed
  }

  /** The row names the run it was made in, and no human has touched it. */
  ghost predicate FreshFrom(row: CalibrationLabel, source: Source) {
    && row.preLabellerModel == source.preLabellerModel && row.genId == source.genId
    && row.goldenSetVersion == source.goldenSetVersion && row.labelSchemaVersion == 1
    && row.humanVerdict == None && row.adjudicatedAt == None && row.humanLabeller == ""
    && !row.needsReview && row.priorHumanVerdict == None
  }

  ghost predicate Joined(row: CalibrationLabel, raw: RawRow, source: Source) {
    KeepsRaw(row, raw) && JoinsSource(row, source) && FreshFrom(row, source)
  }

  /** A row is refused for the first check it fails, and otherwise joined. */
  lemma RefusedOrJoined(raw: RawRow, source: Source)
    ensures RowError(raw, source).Some? ==> Refused(raw, source, RowError(raw, source).value)
    ensures RowError(raw, source).None? ==>
              Joined(ImportedRow(raw, source), raw, source) && forall error :: !Refused(raw, source, error)
  {
    if RowError(raw, source).None? {
      forall error
        ensures !Refused(raw, source, error)
      {
        match error
        case ContaminatedRow(id) =>
        case UnknownRecordId(id) =>
        case MissingVerdict(id) =>
        case InvalidRow =>
      }
    }
  }

  datatype ImportResult = Imported(rows: Rows) | Failed(error: ImportError)

  ghost predicate AllImportable(raws: seq<RawRow>, source: Source) {
    forall i :: 0 <= i < |raws| ==> RowError(raws[i], source).None?
  }

  /** An import is all or nothing, and the first offending row names the error. */
  method ImportLabels(raws: seq<RawRow>, source: Source) returns (r: ImportResult)
    ensures r.Imported? <==> AllImportable(raws, source)
    ensures r.Imported? ==> |r.rows| == |raws| && forall i :: 0 <= i < |raws| ==>
              r.rows[i] == ImportedRow(raws[i], source) && Joined(r.rows[i], raws[i], source)
    ensures r.Failed? ==> exists i :: 0 <= i < |raws| && AllImportable(raws[..i], source)
                                      && RowError(raws[i], source) == Some(r.error)
                                      && Refused(raws[i], source, r.error)
  {
    var results: Rows := [];
    for n := 0 to |raws|
      invariant AllImportable(raws[..n], source)
      invariant |results| == n && forall i :: 0 <= i < n ==>
                  && RowError(raws[i], source).None? && results[i] == ImportedRow(raws[i], source)
                  && Joined(results[i], raws[i], source)
    {
      RefusedOrJoined(raws[n], source);
      var error := RowError(raws[n], source);
      if error.Some? {
        return Failed(error.value);
      }
      results := results + [ImportedRow(raws[n], source)];
    }
    r := Imported(results);
  }

  // ----- what an imported row is -----

  /** A row as an import makes it: unjudged, and stamped with a hash of the criteria it carries. */
  ghost predicate Stamped(row: CalibrationLabel) {
    row.humanVerdict.None? && !row.needsReview && row.preLabel.Some? && row.criteriaSha256 != ""
  }

  ghost predicate AllStamped(rows: Rows) {
    forall row :: row in rows ==> Stamped(row)
  }

  lemma ImportedRowsAreStamped(raws: seq<RawRow>, source: Source, rows: Rows)
    requires AllImportable(raws, source) && source.HashesAreNonEmpty()
    requires |rows| == |raws| && forall i :: 0 <= i < |raws| ==> rows[i] == ImportedRow(raws[i], source)
    ensures AllStamped(rows)
    ensures forall row :: row in rows ==>
              row.criteriaSha256 == source.sha256(row.criteria) && row.outputSha256 == source.sha256(row.outputText)
  {}
}
