/** Calibration labels and their file, after `evals/calibration_records.py`. */
module CalibrationRecords {
  import opened Options

  type Key = (string, string)

  datatype CalibrationLabel = CalibrationLabel(
    recordId: string,
    scorer: string,
    outputText: string,
    scorerVerdict: bool,
    preLabel: Option<bool>,
    preLabellerModel: string,
    humanVerdict: Option<bool>,
    adjudicatedAt: Option<string>,
    notes: string,
    criteria: string,
    playerMessage: string,
    observed: map<string, string>,
    labelSchemaVersion: int,
    genId: string,
    goldenSetVersion: string,
    outputSha256: string,
    criteriaSha256: string,
    humanLabeller: string,
    needsReview: bool,
    priorHumanVerdict: Option<bool>)
  {
    /** One record can be judged by several scorers: the pair is the identity. */
    function Key(): Key { (recordId, scorer) }
  }

  type Rows = seq<CalibrationLabel>

  predicate UniqueKeys(rows: Rows) {
    forall i, j :: 0 <= i < j < |rows| ==> rows[i].Key() != rows[j].Key()
  }

  function KeysOf(rows: Rows): seq<Key> {
    seq(|rows|, i requires 0 <= i < |rows| => rows[i].Key())
  }

  /** The row with the given key, if any. */
  function Lookup(rows: Rows, key: Key): Option<CalibrationLabel> {
    if rows == [] then None
    else if rows[|rows| - 1].Key() == key then Some(rows[|rows| - 1])
    else Lookup(rows[..|rows| - 1], key)
  }

  lemma {:induction false} LookupFinds(rows: Rows, key: Key)
    ensures Lookup(rows, key).Some? <==> exists i :: 0 <= i < |rows| && rows[i].Key() == key
    ensures Lookup(rows, key).Some? ==> Lookup(rows, key).value in rows && Lookup(rows, key).value.Key() == key
  {
    if rows != [] {
      LookupFinds(rows[..|rows| - 1], key);
      assert rows == rows[..|rows| - 1] + [rows[|rows| - 1]];
    }
  }

  lemma {:induction false} LookupUnique(rows: Rows, i: nat)
    requires UniqueKeys(rows) && i < |rows|
    ensures Lookup(rows, rows[i].Key()) == Some(rows[i])
  {
    if i < |rows| - 1 {
      LookupUnique(rows[..|rows| - 1], i);
    }
  }

  datatype ReadResult = Loaded(rows: Rows) | DuplicateLabelKey(recordId: string, scorer: string)

  /** The first row whose key was already seen is the offender. */
  method CheckDuplicates(rows: Rows) returns (r: ReadResult)
    ensures r.Loaded? <==> UniqueKeys(rows)
    ensures r.Loaded? ==> r.rows == rows
    ensures r.DuplicateLabelKey? ==>
              exists i, j :: 0 <= i < j < |rows| && UniqueKeys(rows[..j])
                             && rows[i].Key() == rows[j].Key() == (r.recordId, r.scorer)
  {
    var seen: set<Key> := {};
    for n := 0 to |rows|
      invariant UniqueKeys(rows[..n])
      invariant forall k :: k in seen <==> exists i :: 0 <= i < n && rows[i].Key() == k
    {
      if rows[n].Key() in seen {
        var i :| 0 <= i < n && rows[i].Key() == rows[n].Key();
        return DuplicateLabelKey(rows[n].recordId, rows[n].scorer);
      }
      seen := seen + {rows[n].Key()};
    }
    assert rows[..|rows|] == rows;
    r := Loaded(rows);
  }

  /** The labels file on disk: absent, or holding rows. */
  class LabelFile {
    var stored: Option<Rows>

    constructor ()
      ensures stored == None
    {
      stored := None;
    }

    predicate Exists()
      reads this
    {
      stored.Some?
    }

    /** Reading refuses a file in which a key occurs twice. */
    method Read() returns (r: ReadResult)
      requires Exists()
      ensures r.Loaded? <==> UniqueKeys(stored.value)
      ensures r.Loaded? ==> r.rows == stored.value
    {
      r := CheckDuplicates(stored.value);
    }

    /** Writing replaces the contents, and checks nothing. */
    method Write(rows: Rows)
      modifies this
      ensures stored == Some(rows)
    {
      stored := Some(rows);
    }
  }
}
