/** The value codec of `demo_game/snapshot.py`. */
module SnapshotCodec {

  const TAG: string := "__neo4j_type__"
  const VALUE: string := "value"

  /** What the driver returns. `Other` stands for any object without an ISO form, with its text. */
  datatype Value =
    | Null
    | Bool(b: bool)
    | Int(i: int)
    | Float(r: real)
    | Str(s: string)
    | List(items: seq<Value>)
    | Dict(entries: map<string, Value>)
    | Temporal(kind: string, iso: string)
    | Other(text: string)

  type Props = map<string, Value>

  function Serialize(v: Value): Value {
    match v
    case List(items) => List(seq(|items|, i requires 0 <= i < |items| => Serialize(items[i])))
    case Dict(entries) => Dict(map k | k in entries :: Serialize(entries[k]))
    case Temporal(kind, iso) => Dict(map[TAG := Str(kind), VALUE := Str(iso)])
    case Other(text) => Str(text)
    case _ => v
  }

  /** Decoding fails on a tagged dict that has no value. */
  predicate Decodable(v: Value) {
    match v
    case List(items) => forall i :: 0 <= i < |items| ==> Decodable(items[i])
    case Dict(entries) =>
      if TAG in entries then VALUE in entries else forall k :: k in entries ==> Decodable(entries[k])
    case _ => true
  }

  function Deserialize(v: Value): Value
    requires Decodable(v)
  {
    match v
    case List(items) => List(seq(|items|, i requires 0 <= i < |items| => Deserialize(items[i])))
    case Dict(entries) =>
      if TAG in entries then entries[VALUE]
      else Dict(map k | k in entries :: Deserialize(entries[k]))
    case _ => v
  }

  function SerializeProps(props: Props): Props { map k | k in props :: Serialize(props[k]) }

  predicate DecodableProps(props: Props) { forall k :: k in props ==> Decodable(props[k]) }

  function DeserializeProps(props: Props): Props
    requires DecodableProps(props)
  {
    map k | k in props :: Deserialize(props[k])
  }

  // ----- what survives -----

  /** The value with every temporal as its ISO string, and every other object as its text. */
  function Erase(v: Value): Value {
    match v
    case List(items) => List(seq(|items|, i requires 0 <= i < |items| => Erase(items[i])))
    case Dict(entries) => Dict(map k | k in entries :: Erase(entries[k]))
    case Temporal(_, iso) => Str(iso)
    case Other(text) => Str(text)
    case _ => v
  }

  /** No dict in the value uses the reserved tag. */
  predicate TagFree(v: Value) {
    match v
    case List(items) => forall i :: 0 <= i < |items| ==> TagFree(items[i])
    case Dict(entries) => TAG !in entries && forall k :: k in entries ==> TagFree(entries[k])
    case _ => true
  }

  lemma TemporalComesBack(kind: string, iso: string)
    ensures Decodable(Serialize(Temporal(kind, iso))) && Deserialize(Serialize(Temporal(kind, iso))) == Str(iso)
  {
    assert TAG != VALUE by { assert |TAG| != |VALUE|; }
  }

  ghost predicate ComesBack(v: Value) {
    Decodable(Serialize(v)) && Deserialize(Serialize(v)) == Erase(v)
  }

  lemma ListComesBack(items: seq<Value>)
    requires forall i :: 0 <= i < |items| ==> ComesBack(items[i])
    ensures ComesBack(List(items))
  {
    assert forall i :: 0 <= i < |items| ==> Decodable(Serialize(items[i]));
  }

  lemma DictComesBack(entries: map<string, Value>)
    requires TAG !in entries && forall k :: k in entries ==> ComesBack(entries[k])
    ensures ComesBack(Dict(entries))
  {
    assert forall k :: k in entries ==> Decodable(Serialize(entries[k]));
  }

  /** MAIN. Decoding undoes encoding but for temporals and other objects, which become strings. */
  lemma {:induction false} DecodeEncode(v: Value)
    requires TagFree(v)
    ensures Decodable(Serialize(v)) && Deserialize(Serialize(v)) == Erase(v)
  {
    match v
    case List(items) =>
      forall i | 0 <= i < |items| ensures ComesBack(items[i]) {
        DecodeEncode(items[i]);
      }
      ListComesBack(items);
    case Dict(entries) =>
      forall k | k in entries ensures ComesBack(entries[k]) {
        DecodeEncode(entries[k]);
      }
      DictComesBack(entries);
    case Temporal(kind, iso) => TemporalComesBack(kind, iso);
    case _ =>
  }

  ghost predicate Fixed(v: Value) {
    TagFree(Erase(v)) && Serialize(Erase(v)) == Erase(v) && Erase(Erase(v)) == Erase(v)
  }

  lemma ListIsFixed(items: seq<Value>)
    requires forall i :: 0 <= i < |items| ==> Fixed(items[i])
    ensures Fixed(List(items))
  {
    assert Erase(List(items)).items == seq(|items|, i requires 0 <= i < |items| => Erase(items[i]));
  }

  lemma DictIsFixed(entries: map<string, Value>)
    requires TAG !in entries && forall k :: k in entries ==> Fixed(entries[k])
    ensures Fixed(Dict(entries))
  {
    assert Erase(Dict(entries)).entries == map k | k in entries :: Erase(entries[k]);
  }

  /** MAIN. What is decoded is plain: encoding and decoding it again changes nothing. */
  lemma {:induction false} ErasedIsFixed(v: Value)
    requires TagFree(v)
    ensures TagFree(Erase(v)) && Serialize(Erase(v)) == Erase(v) && Erase(Erase(v)) == Erase(v)
  {
    match v
    case List(items) =>
      forall i | 0 <= i < |items| ensures Fixed(items[i]) {
        ErasedIsFixed(items[i]);
      }
      ListIsFixed(items);
    case Dict(entries) =>
      forall k | k in entries ensures Fixed(entries[k]) {
        ErasedIsFixed(entries[k]);
      }
      DictIsFixed(entries);
    case _ =>
  }

  // ----- exactly which values come back -----

  /** A tagged dict that looks like the encoding of its own value: a tag and a value, where the value is a
      temporal of the kind the tag names, or again such a dict with the matching tag. */
  predicate Mirrors(entries: map<string, Value>)
    decreases Dict(entries)
  {
    && entries.Keys == {TAG, VALUE}
    && match entries[VALUE]
       case Temporal(kind, _) => Erase(entries[TAG]) == Str(kind)
       case Dict(inner) => Mirrors(inner) && Serialize(inner[TAG]) == Erase(entries[TAG])
       case _ => false
  }

  /** Every dict reached without passing a tag is untagged, or a mirror. */
  predicate Returns(v: Value) {
    match v
    case List(items) => forall i :: 0 <= i < |items| ==> Returns(items[i])
    case Dict(entries) => if TAG in entries then Mirrors(entries) else forall k :: k in entries ==> Returns(entries[k])
    case _ => true
  }

  lemma SameEntries(a: map<string, Value>, b: map<string, Value>)
    ensures Dict(a) == Dict(b) <==> a.Keys == b.Keys && forall k :: k in a.Keys * b.Keys ==> a[k] == b[k]
  {
    if a.Keys == b.Keys && forall k :: k in a.Keys * b.Keys ==> a[k] == b[k] {
      forall k | k in a ensures k in b && a[k] == b[k] {
        assert k in a.Keys * b.Keys;
      }
      assert a == b;
    }
  }

  function Encoded(entries: map<string, Value>): map<string, Value> { map k | k in entries :: Serialize(entries[k]) }

  function Erased(entries: map<string, Value>): map<string, Value> { map k | k in entries :: Erase(entries[k]) }

  lemma TemporalMirror(entries: map<string, Value>, kind: string, iso: string)
    requires TAG in entries && VALUE in entries && entries[VALUE] == Temporal(kind, iso)
    ensures Serialize(entries[VALUE]) == Erase(Dict(entries)) <==> Mirrors(entries)
  {
    assert TAG != VALUE by { assert |TAG| != |VALUE|; }
    var a, b := map[TAG := Str(kind), VALUE := Str(iso)], Erased(entries);
    assert a.Keys == {TAG, VALUE} && b.Keys == entries.Keys;
    SameEntries(a, b);
    assert b[TAG] == Erase(entries[TAG]) && b[VALUE] == Str(iso);
  }

  lemma SameDicts(inner: map<string, Value>, entries: map<string, Value>)
    ensures Serialize(Dict(inner)) == Erase(Dict(entries)) <==> Encoded(inner) == Erased(entries)
  {
    assert Serialize(Dict(inner)) == Dict(Encoded(inner));
    assert Erase(Dict(entries)) == Dict(Erased(entries));
  }

  lemma SameAt(inner: map<string, Value>, entries: map<string, Value>, k: string)
    requires Encoded(inner) == Erased(entries)
    ensures k in inner <==> k in entries
    ensures k in inner ==> Serialize(inner[k]) == Erase(entries[k])
  {
    assert k in inner <==> k in Encoded(inner);
    assert k in entries <==> k in Erased(entries);
    if k in inner { assert Encoded(inner)[k] == Erased(entries)[k]; }
  }

  lemma EqualIsMirror(entries: map<string, Value>, inner: map<string, Value>)
    requires TAG in entries && VALUE in entries && entries[VALUE] == Dict(inner)
    requires TAG in inner && VALUE in inner && Serialize(inner[VALUE]) == Erase(Dict(inner)) ==> Mirrors(inner)
    requires Encoded(inner) == Erased(entries)
    ensures Mirrors(entries)
  {
    SameAt(inner, entries, TAG);
    SameAt(inner, entries, VALUE);
    assert Mirrors(inner);
    forall k ensures k in entries <==> k in inner {
      SameAt(inner, entries, k);
    }
    assert entries.Keys == inner.Keys;
  }

  lemma MirrorOfMirror(entries: map<string, Value>, inner: map<string, Value>)
    requires Mirrors(entries) && VALUE in entries && entries[VALUE] == Dict(inner)
    ensures entries.Keys == inner.Keys == {TAG, VALUE}
    ensures Mirrors(inner) && Serialize(inner[TAG]) == Erase(entries[TAG])
  {
    assert Mirrors(inner);
  }

  lemma MirrorIsEqual(entries: map<string, Value>, inner: map<string, Value>)
    requires entries.Keys == inner.Keys == {TAG, VALUE} && entries[VALUE] == Dict(inner)
    requires Serialize(inner[VALUE]) == Erase(Dict(inner)) && Serialize(inner[TAG]) == Erase(entries[TAG])
    ensures Encoded(inner) == Erased(entries)
  {
    assert Serialize(inner[VALUE]) == Erase(entries[VALUE]);
  }

  lemma DictMirror(entries: map<string, Value>, inner: map<string, Value>)
    requires TAG in entries && VALUE in entries && entries[VALUE] == Dict(inner)
    requires TAG in inner && VALUE in inner ==> (Serialize(inner[VALUE]) == Erase(Dict(inner)) <==> Mirrors(inner))
    ensures Serialize(entries[VALUE]) == Erase(Dict(entries)) <==> Mirrors(entries)
  {
    SameDicts(inner, entries);
    if Encoded(inner) == Erased(entries) {
      EqualIsMirror(entries, inner);
    } else if Mirrors(entries) {
      MirrorOfMirror(entries, inner);
      MirrorIsEqual(entries, inner);
    }
  }

  lemma {:induction false} MirrorsIff(entries: map<string, Value>)
    requires TAG in entries && VALUE in entries
    ensures Serialize(entries[VALUE]) == Erase(Dict(entries)) <==> Mirrors(entries)
    decreases Dict(entries)
  {
    match entries[VALUE]
    case Temporal(kind, iso) => TemporalMirror(entries, kind, iso);
    case Dict(inner) =>
      if TAG in inner && VALUE in inner { MirrorsIff(inner); }
      DictMirror(entries, inner);
    case _ =>
  }

  lemma ListReturnsIff(items: seq<Value>)
    requires forall i :: 0 <= i < |items| ==> (ComesBack(items[i]) <==> Returns(items[i]))
    ensures ComesBack(List(items)) <==> Returns(List(items))
  {
    if ComesBack(List(items)) {
      forall i | 0 <= i < |items| ensures ComesBack(items[i]) {
        assert Decodable(Serialize(List(items)).items[i]);
        assert Deserialize(Serialize(List(items))).items[i] == Erase(List(items)).items[i];
      }
    } else if forall i :: 0 <= i < |items| ==> ComesBack(items[i]) {
      ListComesBack(items);
    }
  }

  lemma UntaggedReturnsIff(entries: map<string, Value>)
    requires TAG !in entries && forall k :: k in entries ==> (ComesBack(entries[k]) <==> Returns(entries[k]))
    ensures ComesBack(Dict(entries)) <==> Returns(Dict(entries))
  {
    if ComesBack(Dict(entries)) {
      forall k | k in entries ensures ComesBack(entries[k]) {
        assert Decodable(Serialize(Dict(entries)).entries[k]);
        assert Deserialize(Serialize(Dict(entries))).entries[k] == Erase(Dict(entries)).entries[k];
      }
    } else if forall k :: k in entries ==> ComesBack(entries[k]) {
      DictComesBack(entries);
    }
  }

  /** A tagged dict is taken for a temporal: it comes back as the bare encoding of its value, or not at all. */
  lemma TaggedDictCollapses(entries: map<string, Value>)
    requires TAG in entries
    ensures Decodable(Serialize(Dict(entries))) <==> VALUE in entries
    ensures VALUE in entries ==> Deserialize(Serialize(Dict(entries))) == Serialize(entries[VALUE])
  {}

  /** MAIN. Decoding undoes encoding, up to temporals and other objects, of exactly these values: those in
      which every dict reached is untagged, or mirrors the encoding of its own value. */
  lemma {:induction false} RoundTripIff(v: Value)
    ensures Decodable(Serialize(v)) && Deserialize(Serialize(v)) == Erase(v) <==> Returns(v)
  {
    match v
    case List(items) =>
      forall i | 0 <= i < |items| ensures ComesBack(items[i]) <==> Returns(items[i]) {
        RoundTripIff(items[i]);
      }
      ListReturnsIff(items);
    case Dict(entries) =>
      if TAG in entries {
        TaggedDictCollapses(entries);
        if VALUE in entries { MirrorsIff(entries); }
      } else {
        forall k | k in entries ensures ComesBack(entries[k]) <==> Returns(entries[k]) {
          RoundTripIff(entries[k]);
        }
        UntaggedReturnsIff(entries);
      }
    case Temporal(kind, iso) => TemporalComesBack(kind, iso);
    case _ =>
  }

  /** Of two tagged dicts one is lost and one comes back. */
  lemma TaggedDictsDiffer(kind: string, iso: string)
    ensures !ComesBack(Dict(map[TAG := Null, VALUE := Null]))
    ensures ComesBack(Dict(map[TAG := Str(kind), VALUE := Temporal(kind, iso)]))
  {
    RoundTripIff(Dict(map[TAG := Null, VALUE := Null]));
    RoundTripIff(Dict(map[TAG := Str(kind), VALUE := Temporal(kind, iso)]));
    assert TAG != VALUE by { assert |TAG| != |VALUE|; }
  }

  /** A property value of the database: no dict anywhere. */
  predicate DictFree(v: Value) {
    match v
    case List(items) => forall i :: 0 <= i < |items| ==> DictFree(items[i])
    case Dict(_) => false
    case _ => true
  }

  /** No temporal and no other object anywhere. */
  predicate Plain(v: Value) {
    match v
    case List(items) => forall i :: 0 <= i < |items| ==> Plain(items[i])
    case Dict(entries) => forall k :: k in entries ==> Plain(entries[k])
    case Temporal(_, _) => false
    case Other(_) => false
    case _ => true
  }

  lemma {:induction false} ErasedIsSelf(v: Value)
    ensures Erase(v) == v <==> Plain(v)
  {
    match v
    case List(items) =>
      forall i | 0 <= i < |items| ensures Erase(items[i]) == items[i] <==> Plain(items[i]) {
        ErasedIsSelf(items[i]);
      }
      ErasedList(items);
    case Dict(entries) =>
      forall k | k in entries ensures Erase(entries[k]) == entries[k] <==> Plain(entries[k]) {
        ErasedIsSelf(entries[k]);
      }
      ErasedDict(entries);
    case _ =>
  }

  lemma ErasedList(items: seq<Value>)
    ensures Erase(List(items)) == List(items) <==> forall i :: 0 <= i < |items| ==> Erase(items[i]) == items[i]
  {
    var erased := Erase(List(items)).items;
    assert |erased| == |items| && forall i :: 0 <= i < |items| ==> erased[i] == Erase(items[i]);
    if forall i :: 0 <= i < |items| ==> Erase(items[i]) == items[i] {
      assert erased == items;
    }
  }

  lemma ErasedDict(entries: map<string, Value>)
    ensures Erase(Dict(entries)) == Dict(entries) <==> forall k :: k in entries ==> Erase(entries[k]) == entries[k]
  {
    assert Erase(Dict(entries)) == Dict(Erased(entries));
    if forall k :: k in entries ==> Erase(entries[k]) == entries[k] {
      assert Erased(entries) == entries;
    } else {
      var k :| k in entries && Erase(entries[k]) != entries[k];
      assert Erased(entries)[k] != entries[k];
    }
  }

  lemma EncodedList(items: seq<Value>)
    ensures Serialize(List(items)) == List(items) <==> forall i :: 0 <= i < |items| ==> Serialize(items[i]) == items[i]
  {
    var encoded := Serialize(List(items)).items;
    assert |encoded| == |items| && forall i :: 0 <= i < |items| ==> encoded[i] == Serialize(items[i]);
    if forall i :: 0 <= i < |items| ==> Serialize(items[i]) == items[i] {
      assert encoded == items;
    }
  }

  lemma EncodedDict(entries: map<string, Value>)
    ensures Serialize(Dict(entries)) == Dict(entries) <==>
            forall k :: k in entries ==> Serialize(entries[k]) == entries[k]
  {
    assert Serialize(Dict(entries)) == Dict(Encoded(entries));
    if forall k :: k in entries ==> Serialize(entries[k]) == entries[k] {
      assert Encoded(entries) == entries;
    } else {
      var k :| k in entries && Serialize(entries[k]) != entries[k];
      assert Encoded(entries)[k] != entries[k];
    }
  }

  ghost predicate Encodes(v: Value) { Plain(Serialize(v)) && (Serialize(v) == v <==> Plain(v)) }

  /** MAIN. What is stored holds nothing but what JSON can, and a value is stored as it is exactly when it holds
      nothing else. */
  lemma {:induction false} StoredIsPlain(v: Value)
    ensures Plain(Serialize(v)) && (Serialize(v) == v <==> Plain(v))
  {
    match v
    case List(items) =>
      forall i | 0 <= i < |items| ensures Encodes(items[i]) {
        StoredIsPlain(items[i]);
      }
      EncodedList(items);
    case Dict(entries) =>
      forall k | k in entries ensures Encodes(entries[k]) {
        StoredIsPlain(entries[k]);
      }
      EncodedDict(entries);
    case _ =>
  }

  /** MAIN. So every value a graph property can hold comes back, up to temporals and other objects, and as it
      was exactly when it holds none of these. */
  lemma {:induction false} PropertyValuesComeBack(v: Value)
    requires DictFree(v)
    ensures TagFree(v) && ComesBack(v)
    ensures Deserialize(Serialize(v)) == v <==> Plain(v)
  {
    DictFreeIsTagFree(v);
    DecodeEncode(v);
    ErasedIsSelf(v);
  }

  lemma {:induction false} DictFreeIsTagFree(v: Value)
    requires DictFree(v)
    ensures TagFree(v)
  {
    if v.List? {
      forall i | 0 <= i < |v.items| ensures TagFree(v.items[i]) {
        DictFreeIsTagFree(v.items[i]);
      }
    }
  }

  ghost predicate TagFreeProps(props: Props) { forall k :: k in props ==> TagFree(props[k]) }

  function EraseProps(props: Props): Props { map k | k in props :: Erase(props[k]) }

  lemma ErasedPropsAreFixed(props: Props)
    requires TagFreeProps(props)
    ensures TagFreeProps(EraseProps(props)) && EraseProps(EraseProps(props)) == EraseProps(props)
  {
    forall k | k in props
      ensures TagFree(Erase(props[k])) && Erase(Erase(props[k])) == Erase(props[k])
    {
      ErasedIsFixed(props[k]);
    }
  }
}
