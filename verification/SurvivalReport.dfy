/** What a survival report of `evals/label_survival.py` lists, told from the stored rows and the items. */
module SurvivalReport {
  import opened CalibrationRecords
  import opened Grouping
  import opened LabelImport
  import opened LabelSurvival
  import opened Options
  import opened Selection

  /** No item of the transcript is the row's. */
  ghost predicate Lost(row: CalibrationLabel, items: seq<ExportItem>) {
    forall item :: item in items ==> ItemKey(item) != row.Key()
  }

  /** The row's item has other criteria, as far as the two hashes can tell. */
  ghost predicate Moved(row: CalibrationLabel, items: seq<ExportItem>, sha256: string -> string) {
    exists item :: item in items && ItemKey(item) == row.Key()
                   && row.criteriaSha256 != "" && sha256(item.criteria) != ""
                   && row.criteriaSha256 != sha256(item.criteria)
  }

  ghost predicate Meets(row: CalibrationLabel, items: seq<ExportItem>, sha256: string -> string, fate: Fate) {
    match fate
    case Orphaned => Lost(row, items)
    case Drifting => Moved(row, items, sha256)
    case Survives => !Lost(row, items) && !Moved(row, items, sha256)
  }

  ghost predicate Unlabelled(item: ExportItem, labels: Rows) {
    forall row :: row in labels ==> row.Key() != ItemKey(item)
  }

  function Keyed(labels: Rows): seq<(Key, CalibrationLabel)> {
    seq(|labels|, i requires 0 <= i < |labels| => (labels[i].Key(), labels[i]))
  }

  /** One row for each key, in the order the keys are first seen: the last row of that key. */
  ghost predicate IsDictionary(rows: Rows, labels: Rows) {
    && KeysOf(rows) == KeysInOrder(Keyed(labels))
    && forall i :: 0 <= i < |rows| ==> Lookup(labels, rows[i].Key()) == Some(rows[i])
  }

  /** The keys of the rows with the fate, in order. */
  ghost predicate Lists(keys: seq<Key>, rows: Rows, items: seq<ExportItem>, sha256: string -> string, fate: Fate) {
    exists part :: Selects(rows, (row: CalibrationLabel) => Meets(row, items, sha256, fate), part)
                   && keys == KeysOf(part)
  }

  function ItemKeys(items: seq<ExportItem>): seq<Key> {
    seq(|items|, i requires 0 <= i < |items| => ItemKey(items[i]))
  }

  ghost predicate ListsNew(keys: seq<Key>, items: seq<ExportItem>, labels: Rows) {
    exists part :: Selects(items, (item: ExportItem) => Unlabelled(item, labels), part) && keys == ItemKeys(part)
  }

  // ----- fates -----

  lemma FoundIsTheItem(items: seq<ExportItem>, item: ExportItem)
    requires UniqueItems(items) && item in items
    ensures FindItem(items, ItemKey(item)) == Some(item)
  {
    FindItemFinds(items, ItemKey(item));
    var i :| 0 <= i < |items| && items[i] == item;
    var found := FindItem(items, ItemKey(item)).value;
    var j :| 0 <= j < |items| && items[j] == found;
  }

  lemma FateIs(row: CalibrationLabel, items: seq<ExportItem>, sha256: string -> string, fate: Fate)
    requires UniqueItems(items)
    ensures FateOf(row, items, sha256) == fate <==> Meets(row, items, sha256, fate)
  {
    FindItemFinds(items, row.Key());
    forall item | item in items && ItemKey(item) == row.Key()
      ensures FindItem(items, row.Key()) == Some(item)
    {
      FoundIsTheItem(items, item);
    }
    if FindItem(items, row.Key()).None? {
      assert Lost(row, items);
    }
  }

  lemma KeysOfSnoc(part: Rows, row: CalibrationLabel)
    ensures KeysOf(part + [row]) == KeysOf(part) + [row.Key()]
  {}

  lemma ListsSnoc(keys: seq<Key>, front: Rows, last: CalibrationLabel, items: seq<ExportItem>,
                  sha256: string -> string, fate: Fate)
    requires Lists(keys, front, items, sha256, fate)
    ensures Lists(if Meets(last, items, sha256, fate) then keys + [last.Key()] else keys, front + [last], items, sha256,
                  fate)
  {
    var p := (row: CalibrationLabel) => Meets(row, items, sha256, fate);
    var part :| Selects(front, p, part) && keys == KeysOf(part);
    SelectsSnoc(front, last, p, part);
    KeysOfSnoc(part, last);
    assert Selects(front + [last], p, if p(last) then part + [last] else part);
  }

  lemma {:induction false} FatesListed(rows: Rows, items: seq<ExportItem>, sha256: string -> string, fate: Fate)
    requires UniqueItems(items)
    ensures Lists(WithFate(rows, items, sha256, fate), rows, items, sha256, fate)
  {
    if rows == [] {
      SelectsNone((row: CalibrationLabel) => Meets(row, items, sha256, fate));
      assert KeysOf([]) == [];
    } else {
      var front, last := rows[..|rows| - 1], rows[|rows| - 1];
      assert rows == front + [last];
      FatesListed(front, items, sha256, fate);
      ListsSnoc(WithFate(front, items, sha256, fate), front, last, items, sha256, fate);
      FateIs(last, items, sha256, fate);
    }
  }

  lemma ItemKeysSnoc(part: seq<ExportItem>, item: ExportItem)
    ensures ItemKeys(part + [item]) == ItemKeys(part) + [ItemKey(item)]
  {}

  lemma ListsNewSnoc(keys: seq<Key>, front: seq<ExportItem>, last: ExportItem, labels: Rows)
    requires ListsNew(keys, front, labels)
    ensures ListsNew(if Unlabelled(last, labels) then keys + [ItemKey(last)] else keys, front + [last], labels)
  {
    var p := (item: ExportItem) => Unlabelled(item, labels);
    var part :| Selects(front, p, part) && keys == ItemKeys(part);
    SelectsSnoc(front, last, p, part);
    ItemKeysSnoc(part, last);
    assert Selects(front + [last], p, if p(last) then part + [last] else part);
  }

  lemma {:induction false} NewListed(items: seq<ExportItem>, labels: Rows, dict: Rows)
    requires forall key :: Lookup(dict, key) == Lookup(labels, key)
    ensures ListsNew(NewKeys(items, dict), items, labels)
  {
    if items == [] {
      SelectsNone((item: ExportItem) => Unlabelled(item, labels));
      assert ItemKeys([]) == [];
    } else {
      var front, last := items[..|items| - 1], items[|items| - 1];
      assert items == front + [last];
      NewListed(front, labels, dict);
      ListsNewSnoc(NewKeys(front, dict), front, last, labels);
      UnlabelledIs(last, labels);
    }
  }

  lemma UnlabelledIs(item: ExportItem, labels: Rows)
    ensures Unlabelled(item, labels) <==> Lookup(labels, ItemKey(item)).None?
  {
    LookupFinds(labels, ItemKey(item));
    if i :| 0 <= i < |labels| && labels[i].Key() == ItemKey(item) {
      assert labels[i] in labels;
    }
  }

  // ----- the dictionary -----

  lemma KeysOfCons(row: CalibrationLabel, tail: Rows)
    ensures KeysOf([row] + tail) == [row.Key()] + KeysOf(tail)
  {}

  lemma {:induction false} PutKeys(dict: Rows, row: CalibrationLabel)
    ensures KeysOf(Put(dict, row))
         == if row.Key() in KeysOf(dict) then KeysOf(dict) else KeysOf(dict) + [row.Key()]
  {
    if dict != [] {
      var tail := dict[1..];
      assert dict == [dict[0]] + tail;
      KeysOfCons(dict[0], tail);
      if dict[0].Key() == row.Key() {
        KeysOfCons(row, tail);
      } else {
        PutKeys(tail, row);
        KeysOfCons(dict[0], Put(tail, row));
      }
    }
  }

  lemma {:induction false} DictKeys(labels: Rows)
    ensures KeysOf(Dict(labels)) == KeysInOrder(Keyed(labels))
  {
    if labels != [] {
      var front, last := labels[..|labels| - 1], labels[|labels| - 1];
      DictKeys(front);
      PutKeys(Dict(front), last);
      assert Keyed(labels) == Keyed(front) + [(last.Key(), last)];
      Snoc(Keyed(front), last.Key(), last);
    }
  }

  lemma DictIsDictionary(labels: Rows)
    ensures IsDictionary(Dict(labels), labels)
  {
    DictKeys(labels);
    DictIs(labels);
    forall i | 0 <= i < |Dict(labels)|
      ensures Lookup(labels, Dict(labels)[i].Key()) == Some(Dict(labels)[i])
    {
      LookupUnique(Dict(labels), i);
    }
  }

  /** MAIN. The report sorts the stored rows, the last of each key, into those without an item, those whose item
      moved and the others, and lists the items without a row; each list keeps its order. */
  lemma ReportSorts(labels: Rows, items: seq<ExportItem>, sha256: string -> string)
    requires UniqueItems(items)
    ensures var r := Prediction(labels, items, sha256);
            && ListsNew(r.unlabelled, items, labels)
            && exists rows ::
                 && IsDictionary(rows, labels) && Lists(r.survives, rows, items, sha256, Survives)
                 && Lists(r.drifts, rows, items, sha256, Drifting) && Lists(r.orphaned, rows, items, sha256, Orphaned)
  {
    var rows := Dict(labels);
    DictIs(labels);
    DictIsDictionary(labels);
    FatesListed(rows, items, sha256, Survives);
    FatesListed(rows, items, sha256, Drifting);
    FatesListed(rows, items, sha256, Orphaned);
    NewListed(items, labels, rows);
  }
}
