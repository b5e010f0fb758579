/** Predicting what a transcript would do to the stored labels, after `evals/label_survival.py`. */
module LabelSurvival {
  import opened CalibrationRecords
  import opened LabelImport
  import opened LabelMerge
  import opened Options

  datatype Report = Report(survives: seq<Key>, drifts: seq<Key>, orphaned: seq<Key>, unlabelled: seq<Key>)
  {
    predicate IsFrozen() { drifts == [] && orphaned == [] }
  }

  function ItemKey(item: ExportItem): Key { (item.recordId, item.scorer) }

  /** A transcript's items in order; each has its own item id. */
  ghost predicate UniqueItems(items: seq<ExportItem>) {
    forall i, j :: 0 <= i < j < |items| ==> items[i].recordId != items[j].recordId
  }

  function FindItem(items: seq<ExportItem>, key: Key): Option<ExportItem> {
    if items == [] then None
    else if ItemKey(items[|items| - 1]) == key then Some(items[|items| - 1])
    else FindItem(items[..|items| - 1], key)
  }

  lemma {:induction false} FindItemFinds(items: seq<ExportItem>, key: Key)
    ensures FindItem(items, key).Some? <==> exists i :: 0 <= i < |items| && ItemKey(items[i]) == key
    ensures FindItem(items, key).Some? ==>
              FindItem(items, key).value in items && ItemKey(FindItem(items, key).value) == key
  {
    if items != [] {
      FindItemFinds(items[..|items| - 1], key);
      assert items == items[..|items| - 1] + [items[|items| - 1]];
    }
  }

  // ----- the labels as a dictionary -----

  /** A key keeps the place where it was first put, and the row last put there. */
  function Put(dict: Rows, row: CalibrationLabel): Rows {
    if dict == [] then [row]
    else if dict[0].Key() == row.Key() then [row] + dict[1..]
    else [dict[0]] + Put(dict[1..], row)
  }

  function Dict(labels: Rows): Rows {
    if labels == [] then [] else Put(Dict(labels[..|labels| - 1]), labels[|labels| - 1])
  }

  lemma {:induction false} LookupConcat(a: Rows, b: Rows, key: Key)
    ensures Lookup(a + b, key) == if Lookup(b, key).Some? then Lookup(b, key) else Lookup(a, key)
  {
    if b == [] {
      assert a + b == a;
    } else {
      assert (a + b)[..|a + b| - 1] == a + b[..|b| - 1];
      LookupConcat(a, b[..|b| - 1], key);
    }
  }

  lemma LookupOne(row: CalibrationLabel, key: Key)
    ensures Lookup([row], key) == if row.Key() == key then Some(row) else None
  {
    assert [row][..0] == [];
    assert Lookup([], key) == None;
  }

  lemma LookupHead(rows: Rows, key: Key)
    requires rows != []
    ensures Lookup(rows, key) == if Lookup(rows[1..], key).Some? then Lookup(rows[1..], key)
                                 else if rows[0].Key() == key then Some(rows[0]) else None
  {
    assert rows == [rows[0]] + rows[1..];
    LookupConcat([rows[0]], rows[1..], key);
    LookupOne(rows[0], key);
  }

  lemma UniqueTail(dict: Rows)
    requires UniqueKeys(dict) && dict != []
    ensures UniqueKeys(dict[1..]) && Lookup(dict[1..], dict[0].Key()).None?
  {
    LookupFinds(dict[1..], dict[0].Key());
  }

  lemma UniqueCons(row: CalibrationLabel, dict: Rows)
    requires UniqueKeys(dict) && Lookup(dict, row.Key()).None?
    ensures UniqueKeys([row] + dict)
  {
    forall i | 0 <= i < |dict|
      ensures dict[i].Key() != row.Key()
    {
      LookupFinds(dict, row.Key());
    }
  }

  lemma {:induction false} PutFinds(dict: Rows, row: CalibrationLabel, key: Key)
    requires UniqueKeys(dict)
    ensures Lookup(Put(dict, row), key) == if row.Key() == key then Some(row) else Lookup(dict, key)
  {
    if dict == [] {
      LookupOne(row, key);
    } else {
      UniqueTail(dict);
      LookupHead(dict, key);
      LookupHead(Put(dict, row), key);
      if dict[0].Key() != row.Key() { PutFinds(dict[1..], row, key); }
    }
  }

  lemma {:induction false} PutIsUnique(dict: Rows, row: CalibrationLabel)
    requires UniqueKeys(dict)
    ensures UniqueKeys(Put(dict, row))
  {
    if dict != [] {
      UniqueTail(dict);
      if dict[0].Key() == row.Key() {
        UniqueCons(row, dict[1..]);
      } else {
        PutIsUnique(dict[1..], row);
        PutFinds(dict[1..], row, dict[0].Key());
        UniqueCons(dict[0], Put(dict[1..], row));
      }
    }
  }

  lemma {:induction false} PutNew(dict: Rows, row: CalibrationLabel)
    requires forall i :: 0 <= i < |dict| ==> dict[i].Key() != row.Key()
    ensures Put(dict, row) == dict + [row]
  {
    if dict != [] { PutNew(dict[1..], row); }
  }

  /** The dictionary has each key once, with the last row of that key; without repeats it is the labels. */
  lemma {:induction false} DictIs(labels: Rows)
    ensures UniqueKeys(Dict(labels))
    ensures forall key :: Lookup(Dict(labels), key) == Lookup(labels, key)
    ensures UniqueKeys(labels) ==> Dict(labels) == labels
  {
    if labels != [] {
      var front, last := labels[..|labels| - 1], labels[|labels| - 1];
      DictIs(front);
      PutIsUnique(Dict(front), last);
      forall key
        ensures Lookup(Dict(labels), key) == Lookup(labels, key)
      {
        PutFinds(Dict(front), last, key);
      }
      if UniqueKeys(labels) { PutNew(front, last); }
    }
  }

  datatype Fate = Survives | Drifting | Orphaned

  predicate HashesDiffer(existing: string, incoming: string) {
    existing != "" && incoming != "" && existing != incoming
  }

  function FateOf(row: CalibrationLabel, items: seq<ExportItem>, sha256: string -> string): Fate {
    var item := FindItem(items, row.Key());
    if item.None? then Orphaned
    else if HashesDiffer(row.criteriaSha256, sha256(item.value.criteria)) then Drifting
    else Survives
  }

  /** The keys with one fate, in the order of the labels. */
  function WithFate(labels: Rows, items: seq<ExportItem>, sha256: string -> string, fate: Fate): seq<Key> {
    if labels == [] then []
    else
      var front := WithFate(labels[..|labels| - 1], items, sha256, fate);
      var last := labels[|labels| - 1];
      if FateOf(last, items, sha256) == fate then front + [last.Key()] else front
  }

  function NewKeys(items: seq<ExportItem>, labels: Rows): seq<Key> {
    if items == [] then []
    else
      var front := NewKeys(items[..|items| - 1], labels);
      var key := ItemKey(items[|items| - 1]);
      if Lookup(labels, key).None? then front + [key] else front
  }

  function Prediction(labels: Rows, items: seq<ExportItem>, sha256: string -> string): Report {
    var dict := Dict(labels);
    Report(WithFate(dict, items, sha256, Survives), WithFate(dict, items, sha256, Drifting),
           WithFate(dict, items, sha256, Orphaned), NewKeys(items, dict))
  }

  // ----- the loops -----

  ghost predicate IndexesItems(byKey: map<Key, ExportItem>, items: seq<ExportItem>) {
    forall k ::
      (k in byKey <==> FindItem(items, k).Some?) && (k in byKey ==> FindItem(items, k) == Some(byKey[k]))
  }

  method IndexItems(items: seq<ExportItem>) returns (byKey: map<Key, ExportItem>)
    ensures IndexesItems(byKey, items)
  {
    byKey := map[];
    for n := 0 to |items|
      invariant IndexesItems(byKey, items[..n])
    {
      assert items[..n + 1][..n] == items[..n];
      byKey := byKey[ItemKey(items[n]) := items[n]];
    }
    assert items[..|items|] == items;
  }

  method ClassifyExistingLabels(labels: Rows, ghost items: seq<ExportItem>, incoming: map<Key, ExportItem>,
                                sha256: string -> string)
    returns (survives: seq<Key>, drifts: seq<Key>, orphaned: seq<Key>)
    requires IndexesItems(incoming, items)
    ensures survives == WithFate(labels, items, sha256, Survives)
    ensures drifts == WithFate(labels, items, sha256, Drifting)
    ensures orphaned == WithFate(labels, items, sha256, Orphaned)
  {
    survives, drifts, orphaned := [], [], [];
    for n := 0 to |labels|
      invariant survives == WithFate(labels[..n], items, sha256, Survives)
      invariant drifts == WithFate(labels[..n], items, sha256, Drifting)
      invariant orphaned == WithFate(labels[..n], items, sha256, Orphaned)
    {
      assert labels[..n + 1][..n] == labels[..n];
      var key := labels[n].Key();
      if key !in incoming {
        orphaned := orphaned + [key];
      } else if HashesDiffer(labels[n].criteriaSha256, sha256(incoming[key].criteria)) {
        drifts := drifts + [key];
      } else {
        survives := survives + [key];
      }
    }
    assert labels[..|labels|] == labels;
  }

  method SimulateSurvival(labels: Rows, items: seq<ExportItem>, sha256: string -> string) returns (r: Report)
    requires UniqueItems(items)
    ensures r == Prediction(labels, items, sha256)
  {
    var incoming := IndexItems(items);
    var dict: Rows := [];
    for n := 0 to |labels|
      invariant dict == Dict(labels[..n])
    {
      assert labels[..n + 1][..n] == labels[..n];
      dict := Put(dict, labels[n]);
    }
    assert labels[..|labels|] == labels;
    DictIs(labels);
    var dup, existing := Index(dict);
    var survives, drifts, orphaned := ClassifyExistingLabels(dict, items, incoming, sha256);
    var unlabelled: seq<Key> := [];
    for n := 0 to |items|
      invariant unlabelled == NewKeys(items[..n], dict)
    {
      assert items[..n + 1][..n] == items[..n];
      if ItemKey(items[n]) !in existing {
        unlabelled := unlabelled + [ItemKey(items[n])];
      }
    }
    assert items[..|items|] == items;
    r := Report(survives, drifts, orphaned, unlabelled);
  }

  // ----- the prediction and the merge -----

  /** Every row of an incoming batch belongs to an item, and carries the item's hash. */
  ghost predicate MatchesItems(incoming: Rows, items: seq<ExportItem>, sha256: string -> string) {
    forall row :: row in incoming ==>
      var item := FindItem(items, row.Key());
      item.Some? && row.criteriaSha256 == sha256(item.value.criteria)
  }

  /** And every item has a row: the batch labels the whole transcript. */
  ghost predicate Covers(incoming: Rows, items: seq<ExportItem>, sha256: string -> string) {
    MatchesItems(incoming, items, sha256) && forall item :: item in items ==> Lookup(incoming, ItemKey(item)).Some?
  }

  function InBatch(keys: seq<Key>, incoming: Rows): seq<Key> {
    if keys == [] then []
    else
      var front := InBatch(keys[..|keys| - 1], incoming);
      if Lookup(incoming, keys[|keys| - 1]).Some? then front + [keys[|keys| - 1]] else front
  }

  function WithoutItem(keys: seq<Key>, items: seq<ExportItem>): seq<Key> {
    if keys == [] then []
    else
      var front := WithoutItem(keys[..|keys| - 1], items);
      if FindItem(items, keys[|keys| - 1]).None? then front + [keys[|keys| - 1]] else front
  }

  lemma KeysSplit(keys: seq<Key>, key: Key)
    requires keys != []
    ensures key in keys <==> key in keys[..|keys| - 1] || key == keys[|keys| - 1]
  {
    assert keys == keys[..|keys| - 1] + [keys[|keys| - 1]];
  }

  ghost predicate AllInBatch(keys: seq<Key>, incoming: Rows) {
    forall key :: key in keys ==> Lookup(incoming, key).Some?
  }

  ghost predicate NoneHasItem(keys: seq<Key>, items: seq<ExportItem>) {
    forall key :: key in keys ==> FindItem(items, key).None?
  }

  lemma {:induction false} InBatchIsAll(keys: seq<Key>, incoming: Rows)
    ensures |InBatch(keys, incoming)| <= |keys|
    ensures |InBatch(keys, incoming)| == |keys| <==> AllInBatch(keys, incoming)
    ensures |InBatch(keys, incoming)| == |keys| ==> InBatch(keys, incoming) == keys
  {
    if keys != [] {
      InBatchIsAll(keys[..|keys| - 1], incoming);
      forall key { KeysSplit(keys, key); }
    }
  }

  lemma {:induction false} WithoutItemIsAll(keys: seq<Key>, items: seq<ExportItem>)
    ensures |WithoutItem(keys, items)| <= |keys|
    ensures |WithoutItem(keys, items)| == |keys| <==> NoneHasItem(keys, items)
    ensures |WithoutItem(keys, items)| == |keys| ==> WithoutItem(keys, items) == keys
  {
    if keys != [] {
      WithoutItemIsAll(keys[..|keys| - 1], items);
      forall key { KeysSplit(keys, key); }
    }
  }

  lemma FateInBatch(row: CalibrationLabel, incoming: Rows, items: seq<ExportItem>, sha256: string -> string)
    requires MatchesItems(incoming, items, sha256)
    ensures Drifts(row, incoming) <==> FateOf(row, items, sha256) == Drifting && Lookup(incoming, row.Key()).Some?
    ensures FateOf(row, items, sha256) == Orphaned ==> Lookup(incoming, row.Key()).None?
  {
    LookupFinds(incoming, row.Key());
  }

  lemma KeysSnoc(rows: Rows, row: CalibrationLabel)
    ensures KeysOf(rows + [row]) == KeysOf(rows) + [row.Key()]
  {}

  lemma InBatchSnoc(keys: seq<Key>, key: Key, incoming: Rows)
    ensures InBatch(keys + [key], incoming)
         == InBatch(keys, incoming) + if Lookup(incoming, key).Some? then [key] else []
  {
    assert (keys + [key])[..|keys|] == keys;
  }

  lemma WithoutItemSnoc(keys: seq<Key>, key: Key, items: seq<ExportItem>)
    ensures WithoutItem(keys + [key], items)
         == WithoutItem(keys, items) + if FindItem(items, key).None? then [key] else []
  {
    assert (keys + [key])[..|keys|] == keys;
  }

  lemma {:induction false} DriftLists(labels: Rows, incoming: Rows, items: seq<ExportItem>, sha256: string -> string)
    requires MatchesItems(incoming, items, sha256)
    ensures KeysOf(DriftedRows(labels, incoming)) == InBatch(WithFate(labels, items, sha256, Drifting), incoming)
  {
    if labels != [] {
      var front, last := labels[..|labels| - 1], labels[|labels| - 1];
      DriftLists(front, incoming, items, sha256);
      FateInBatch(last, incoming, items, sha256);
      KeysSnoc(DriftedRows(front, incoming), last);
      InBatchSnoc(WithFate(front, items, sha256, Drifting), last.Key(), incoming);
    }
  }

  lemma {:induction false} OrphanLists(labels: Rows, incoming: Rows, items: seq<ExportItem>, sha256: string -> string)
    requires MatchesItems(incoming, items, sha256)
    ensures WithFate(labels, items, sha256, Orphaned) == WithoutItem(KeysOf(Missing(labels, incoming)), items)
  {
    if labels != [] {
      var front, last := labels[..|labels| - 1], labels[|labels| - 1];
      OrphanLists(front, incoming, items, sha256);
      FateInBatch(last, incoming, items, sha256);
      KeysSnoc(Missing(front, incoming), last);
      WithoutItemSnoc(KeysOf(Missing(front, incoming)), last.Key(), items);
    }
  }

  ghost predicate HasFate(labels: Rows, items: seq<ExportItem>, sha256: string -> string, fate: Fate, key: Key) {
    exists row :: row in labels && row.Key() == key && FateOf(row, items, sha256) == fate
  }

  lemma HasFateSnoc(labels: Rows, items: seq<ExportItem>, sha256: string -> string, fate: Fate, key: Key)
    requires labels != []
    ensures var front, last := labels[..|labels| - 1], labels[|labels| - 1];
            HasFate(labels, items, sha256, fate, key) <==>
              HasFate(front, items, sha256, fate, key) || (last.Key() == key && FateOf(last, items, sha256) == fate)
  {
    assert labels == labels[..|labels| - 1] + [labels[|labels| - 1]];
  }

  lemma {:induction false} WithFateAre(labels: Rows, items: seq<ExportItem>, sha256: string -> string, fate: Fate,
                                       key: Key)
    ensures key in WithFate(labels, items, sha256, fate) <==> HasFate(labels, items, sha256, fate, key)
  {
    if labels != [] {
      WithFateAre(labels[..|labels| - 1], items, sha256, fate, key);
      HasFateSnoc(labels, items, sha256, fate, key);
    }
  }

  lemma {:induction false} NewKeysAre(items: seq<ExportItem>, labels: Rows, key: Key)
    ensures key in NewKeys(items, labels) <==> FindItem(items, key).Some? && Lookup(labels, key).None?
  {
    if items != [] {
      NewKeysAre(items[..|items| - 1], labels, key);
    }
  }

  lemma MissingKeysAre(incoming: Rows, labels: Rows, key: Key)
    ensures key in KeysOf(Missing(incoming, labels)) <==> Lookup(incoming, key).Some? && Lookup(labels, key).None?
  {
    var unseen := Missing(incoming, labels);
    MissingAreUnseen(incoming, labels);
    LookupFinds(incoming, key);
    if key in KeysOf(unseen) {
      var i :| 0 <= i < |unseen| && KeysOf(unseen)[i] == key;
      assert unseen[i] in unseen;
    }
    if Lookup(incoming, key).Some? && Lookup(labels, key).None? {
      var row := Lookup(incoming, key).value;
      assert row in unseen;
      var i :| 0 <= i < |unseen| && unseen[i] == row;
      assert KeysOf(unseen)[i] == key;
    }
  }

  function FirstIds(keys: seq<Key>): seq<string> {
    seq(|keys|, i requires 0 <= i < |keys| => keys[i].0)
  }

  lemma DriftedAmong(labels: Rows, incoming: Rows, items: seq<ExportItem>, sha256: string -> string)
    requires UniqueKeys(labels) && MatchesItems(incoming, items, sha256)
    ensures var drifts := Prediction(labels, items, sha256).drifts;
            var drifted := RecordIds(DriftedRows(labels, incoming));
            && drifted == FirstIds(InBatch(drifts, incoming))
            && (drifted == FirstIds(drifts) <==> AllInBatch(drifts, incoming))
  {
    DictIs(labels);
    DriftLists(labels, incoming, items, sha256);
    var drifts := Prediction(labels, items, sha256).drifts;
    InBatchIsAll(drifts, incoming);
    SameIds(DriftedRows(labels, incoming));
    if RecordIds(DriftedRows(labels, incoming)) == FirstIds(drifts) {
      assert |FirstIds(drifts)| == |drifts| && |FirstIds(InBatch(drifts, incoming))| == |InBatch(drifts, incoming)|;
    }
  }

  lemma SameIds(rows: Rows)
    ensures RecordIds(rows) == FirstIds(KeysOf(rows))
  {}

  ghost predicate Labelled(labels: Rows, incoming: Rows) {
    forall row :: row in labels ==> Lookup(incoming, row.Key()).Some?
  }

  /** Every stored label of an item of the transcript is labelled again. */
  ghost predicate ItemsLabelled(labels: Rows, items: seq<ExportItem>, incoming: Rows) {
    forall row :: row in labels && FindItem(items, row.Key()).Some? ==> Lookup(incoming, row.Key()).Some?
  }

  lemma MissingHaveNoItemIff(labels: Rows, incoming: Rows, items: seq<ExportItem>)
    ensures NoneHasItem(KeysOf(Missing(labels, incoming)), items) <==> ItemsLabelled(labels, items, incoming)
  {
    forall key
      ensures key in KeysOf(Missing(labels, incoming)) <==>
              Lookup(labels, key).Some? && Lookup(incoming, key).None?
      ensures Lookup(labels, key).Some? <==> exists row :: row in labels && row.Key() == key
    {
      MissingKeysAre(labels, incoming, key);
      LookupFinds(labels, key);
    }
  }

  lemma OrphanedAmong(labels: Rows, incoming: Rows, items: seq<ExportItem>, sha256: string -> string)
    requires UniqueKeys(labels) && MatchesItems(incoming, items, sha256)
    ensures var orphaned := Prediction(labels, items, sha256).orphaned;
            var missing := KeysOf(Missing(labels, incoming));
            && orphaned == WithoutItem(missing, items)
            && (RecordIds(Missing(labels, incoming)) == FirstIds(orphaned) <==> ItemsLabelled(labels, items, incoming))
  {
    DictIs(labels);
    OrphanLists(labels, incoming, items, sha256);
    var orphaned := Prediction(labels, items, sha256).orphaned;
    var missing := KeysOf(Missing(labels, incoming));
    WithoutItemIsAll(missing, items);
    SameIds(Missing(labels, incoming));
    if RecordIds(Missing(labels, incoming)) == FirstIds(orphaned) {
      assert |FirstIds(orphaned)| == |orphaned| && |FirstIds(missing)| == |missing|;
    }
    MissingHaveNoItemIff(labels, incoming, items);
  }

  lemma QuietIff(labels: Rows, incoming: Rows, items: seq<ExportItem>, sha256: string -> string)
    requires UniqueKeys(labels) && MatchesItems(incoming, items, sha256)
    ensures DriftedRows(labels, incoming) == [] && Missing(labels, incoming) == [] <==>
            Prediction(labels, items, sha256).IsFrozen() && Labelled(labels, incoming)
  {
    DictIs(labels);
    DriftLists(labels, incoming, items, sha256);
    OrphanLists(labels, incoming, items, sha256);
    MissingAreUnseen(labels, incoming);
    var drifts := WithFate(labels, items, sha256, Drifting);
    assert Missing(labels, incoming) == [] || Missing(labels, incoming)[0] in Missing(labels, incoming);
    if Labelled(labels, incoming) {
      forall key | key in drifts
        ensures Lookup(incoming, key).Some?
      {
        WithFateAre(labels, items, sha256, Drifting, key);
      }
      InBatchIsAll(drifts, incoming);
    }
  }

  /** MAIN. Against a batch that labels part of the transcript, the merge reports those of the predicted drifts
      that the batch labels, and the predicted orphans are those of the merge's whose item is gone. The lists are
      the same exactly when the batch labels every drifting label, and every label that has an item; and the merge
      is quiet exactly when the corpus is called frozen and the batch labels every label. */
  lemma PartialBatch(labels: Rows, incoming: Rows, items: seq<ExportItem>, sha256: string -> string,
                     replacePreLabel: bool)
    requires UniqueKeys(labels) && MatchesItems(incoming, items, sha256)
    ensures var p := Prediction(labels, items, sha256);
            var m := Merge(labels, incoming, replacePreLabel);
            && m.drifted == FirstIds(InBatch(p.drifts, incoming))
            && p.orphaned == WithoutItem(KeysOf(Missing(labels, incoming)), items)
            && (m.drifted == FirstIds(p.drifts) <==> AllInBatch(p.drifts, incoming))
            && (m.orphaned == FirstIds(p.orphaned) <==> ItemsLabelled(labels, items, incoming))
            && (m.drifted == [] && m.orphaned == [] <==> p.IsFrozen() && Labelled(labels, incoming))
  {
    DriftedAmong(labels, incoming, items, sha256);
    OrphanedAmong(labels, incoming, items, sha256);
    QuietIff(labels, incoming, items, sha256);
  }

  lemma CoveredKeys(labels: Rows, incoming: Rows, items: seq<ExportItem>, sha256: string -> string, key: Key)
    requires Covers(incoming, items, sha256)
    ensures FindItem(items, key).Some? <==> Lookup(incoming, key).Some?
  {
    LookupFinds(incoming, key);
    FindItemFinds(items, key);
  }

  /** MAIN. Against a batch that labels the whole transcript, the prediction is what the merge does: the
      drift and orphan lists are the merge's, in its order; the new keys are the ones it adds; and the
      corpus is called frozen exactly when the merge reports neither drift nor orphan. */
  lemma PredictionMatchesMerge(labels: Rows, incoming: Rows, items: seq<ExportItem>, sha256: string -> string,
                               replacePreLabel: bool)
    requires UniqueKeys(labels) && Covers(incoming, items, sha256)
    ensures var p := Prediction(labels, items, sha256);
            var m := Merge(labels, incoming, replacePreLabel);
            && FirstIds(p.drifts) == m.drifted && FirstIds(p.orphaned) == m.orphaned
            && (forall key :: key in p.unlabelled <==> key in KeysOf(Missing(incoming, labels)))
            && (p.IsFrozen() <==> m.drifted == [] && m.orphaned == [])
  {
    DictIs(labels);
    PartialBatch(labels, incoming, items, sha256, replacePreLabel);
    forall key
      ensures FindItem(items, key).Some? <==> Lookup(incoming, key).Some?
    {
      CoveredKeys(labels, incoming, items, sha256, key);
    }
    forall key | key in WithFate(labels, items, sha256, Drifting)
      ensures Lookup(incoming, key).Some?
    {
      WithFateAre(labels, items, sha256, Drifting, key);
    }
    forall key
      ensures key in NewKeys(items, labels) <==> key in KeysOf(Missing(incoming, labels))
    {
      NewKeysAre(items, labels, key);
      MissingKeysAre(incoming, labels, key);
    }
  }

  // ----- where such a batch comes from -----

  function RawKey(raw: RawRow): Key {
    (RawId(raw), if raw.scorer.Some? then raw.scorer.value else "")
  }

  ghost predicate IsLabelled(raws: seq<RawRow>, key: Key) {
    exists i :: 0 <= i < |raws| && RawKey(raws[i]) == key
  }

  /** The labeller labelled exactly the items, each under its composite id and its own scorer. */
  ghost predicate LabelsTheTranscript(raws: seq<RawRow>, items: seq<ExportItem>, source: Source) {
    && AllImportable(raws, source)
    && (forall i :: 0 <= i < |items| ==>
          items[i].recordId in source.transcript && source.transcript[items[i].recordId] == items[i])
    && (forall i :: 0 <= i < |raws| ==> source.itemId(RawId(raws[i])) == RawId(raws[i]))
    && (forall i :: 0 <= i < |raws| ==> FindItem(items, RawKey(raws[i])).Some?)
    && (forall i :: 0 <= i < |items| ==> IsLabelled(raws, ItemKey(items[i])))
  }

  lemma ImportedRowOfItem(raw: RawRow, source: Source, item: ExportItem)
    requires RowError(raw, source).None? && source.itemId(RawId(raw)) == RawId(raw)
    requires ItemKey(item) == RawKey(raw)
    requires item.recordId in source.transcript && source.transcript[item.recordId] == item
    ensures ImportedRow(raw, source).Key() == ItemKey(item)
    ensures ImportedRow(raw, source).criteriaSha256 == source.sha256(item.criteria)
  {}

  lemma RowHasItem(raws: seq<RawRow>, items: seq<ExportItem>, source: Source, i: nat)
    requires LabelsTheTranscript(raws, items, source) && i < |raws|
    ensures var row := ImportedRow(raws[i], source);
            var item := FindItem(items, row.Key());
            && row.Key() == RawKey(raws[i])
            && item.Some? && row.criteriaSha256 == source.sha256(item.value.criteria)
  {
    FindItemFinds(items, RawKey(raws[i]));
    var item := FindItem(items, RawKey(raws[i])).value;
    var j :| 0 <= j < |items| && items[j] == item;
    ImportedRowOfItem(raws[i], source, item);
  }

  lemma ItemHasRow(raws: seq<RawRow>, items: seq<ExportItem>, source: Source, rows: Rows, j: nat)
    requires LabelsTheTranscript(raws, items, source) && j < |items|
    requires |rows| == |raws| && forall i :: 0 <= i < |raws| ==> rows[i].Key() == RawKey(raws[i])
    ensures Lookup(rows, ItemKey(items[j])).Some?
  {
    assert IsLabelled(raws, ItemKey(items[j]));
    LookupFinds(rows, ItemKey(items[j]));
  }

  /** MAIN. What an import makes of such labels is a batch the prediction is about. */
  lemma ImportCoversTranscript(raws: seq<RawRow>, items: seq<ExportItem>, source: Source, rows: Rows)
    requires LabelsTheTranscript(raws, items, source)
    requires |rows| == |raws| && forall i :: 0 <= i < |raws| ==> rows[i] == ImportedRow(raws[i], source)
    ensures Covers(rows, items, source.sha256)
  {
    forall i | 0 <= i < |rows|
      ensures rows[i].Key() == RawKey(raws[i])
      ensures var item := FindItem(items, rows[i].Key());
              item.Some? && rows[i].criteriaSha256 == source.sha256(item.value.criteria)
    {
      RowHasItem(raws, items, source, i);
    }
    forall j | 0 <= j < |items|
      ensures Lookup(rows, ItemKey(items[j])).Some?
    {
      ItemHasRow(raws, items, source, rows, j);
    }
  }
}
