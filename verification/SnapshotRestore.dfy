/** Exporting, wiping and rebuilding a graph, after `demo_game/snapshot.py`. The Cypher statements are
    operations on a plain graph. */
module SnapshotRestore {
  import opened Options
  import opened SnapshotCodec

  const SNAP: string := "_snap_eid"

  datatype Node = Node(labels: seq<string>, props: Props)

  datatype Rel = Rel(src: nat, dst: nat, relType: string, props: Props)

  datatype NodeEntry = NodeEntry(eid: string, labels: seq<string>, props: Props)

  datatype RelEntry = RelEntry(srcEid: string, dstEid: string, relType: string, props: Props)

  datatype Payload = Payload(nodes: seq<NodeEntry>, rels: seq<RelEntry>)

  type Nodes = map<nat, Node>

  /** `SET n = $props` keeps no null. */
  function Stored(props: Props): Props { map k | k in props && props[k] != Null :: props[k] }

  // ----- the statements, as functions of the graph -----

  /** `CREATE (n:...) SET n = $props`; without labels the statement says `Node`. */
  function Created(entry: NodeEntry): Node
    requires DecodableProps(entry.props)
  {
    Node(if entry.labels == [] then ["Node"] else entry.labels,
         Stored(DeserializeProps(entry.props)[SNAP := Str(entry.eid)]))
  }

  function Matching(nodes: Nodes, eid: string): set<nat> {
    set id | id in nodes && SNAP in nodes[id].props && nodes[id].props[SNAP] == Str(eid)
  }

  /** One relationship for every pair of nodes. */
  function Pairs(sources: set<nat>, targets: set<nat>, relType: string, props: Props): multiset<Rel> {
    multiset(set a, b | a in sources && b in targets :: Rel(a, b, relType, props))
  }

  function Connected(nodes: Nodes, entry: RelEntry): multiset<Rel>
    requires DecodableProps(entry.props)
  {
    Pairs(Matching(nodes, entry.srcEid), Matching(nodes, entry.dstEid), entry.relType,
      Stored(DeserializeProps(entry.props)))
  }

  function Stripped(nodes: Nodes): Nodes {
    map id | id in nodes :: Node(nodes[id].labels, nodes[id].props - {SNAP})
  }

  predicate AllNodesDecodable(entries: seq<NodeEntry>) {
    forall i :: 0 <= i < |entries| ==> DecodableProps(entries[i].props)
  }

  predicate AllRelsDecodable(entries: seq<RelEntry>) {
    forall i :: 0 <= i < |entries| ==> DecodableProps(entries[i].props)
  }

  function WithNodes(nodes: Nodes, next: nat, entries: seq<NodeEntry>): Nodes
    requires AllNodesDecodable(entries)
  {
    if entries == [] then nodes
    else WithNodes(nodes, next, entries[..|entries| - 1])[next + |entries| - 1 := Created(entries[|entries| - 1])]
  }

  function WithRels(nodes: Nodes, entries: seq<RelEntry>): multiset<Rel>
    requires AllRelsDecodable(entries)
  {
    if entries == [] then multiset{}
    else WithRels(nodes, entries[..|entries| - 1]) + Connected(nodes, entries[|entries| - 1])
  }

  // ----- the graph -----

  class Graph {
    var nodes: Nodes
    var rels: multiset<Rel>
    var next: nat

    constructor ()
      ensures nodes == map[] && rels == multiset{} && next == 0
    {
      nodes, rels, next := map[], multiset{}, 0;
    }

    /** Ids are handed out upwards; no relationship hangs. */
    ghost predicate Valid()
      reads this
    {
      && (forall id :: id in nodes ==> id < next)
      && (forall r :: r in rels ==> r.src in nodes && r.dst in nodes)
    }

    method Wipe()
      modifies this
      ensures nodes == map[] && rels == multiset{} && next == old(next)
    {
      nodes, rels := map[], multiset{};
    }

    method CreateNode(node: Node)
      modifies this
      ensures nodes == old(nodes)[old(next) := node] && rels == old(rels) && next == old(next) + 1
    {
      nodes, next := nodes[next := node], next + 1;
    }

    method Connect(entry: RelEntry)
      requires DecodableProps(entry.props)
      modifies this
      ensures nodes == old(nodes) && next == old(next) && rels == old(rels) + Connected(old(nodes), entry)
    {
      rels := rels + Connected(nodes, entry);
    }

    method StripSentinel()
      modifies this
      ensures nodes == Stripped(old(nodes)) && rels == old(rels) && next == old(next)
    {
      nodes := Stripped(nodes);
    }
  }

  // ----- the restore -----

  /** False stands for the KeyError of a tagged dict without a value. */
  method RestoreNodes(tx: Graph, entries: seq<NodeEntry>) returns (ok: bool)
    modifies tx
    ensures ok <==> AllNodesDecodable(entries)
    ensures ok ==> tx.nodes == WithNodes(old(tx.nodes), old(tx.next), entries) && tx.next == old(tx.next) + |entries|
    ensures tx.rels == old(tx.rels)
  {
    ghost var nodes, next := tx.nodes, tx.next;
    for n := 0 to |entries|
      invariant AllNodesDecodable(entries[..n])
      invariant tx.nodes == WithNodes(nodes, next, entries[..n]) && tx.next == next + n && tx.rels == old(tx.rels)
    {
      assert entries[..n + 1][..n] == entries[..n];
      if !DecodableProps(entries[n].props) {
        return false;
      }
      tx.CreateNode(Created(entries[n]));
    }
    assert entries[..|entries|] == entries;
    ok := true;
  }

  method RestoreRels(tx: Graph, entries: seq<RelEntry>) returns (ok: bool)
    requires tx.rels == multiset{}
    modifies tx
    ensures ok <==> AllRelsDecodable(entries)
    ensures ok ==> tx.rels == WithRels(old(tx.nodes), entries)
    ensures tx.nodes == old(tx.nodes) && tx.next == old(tx.next)
  {
    ghost var nodes := tx.nodes;
    for n := 0 to |entries|
      invariant AllRelsDecodable(entries[..n])
      invariant tx.nodes == nodes && tx.next == old(tx.next) && tx.rels == WithRels(nodes, entries[..n])
    {
      assert entries[..n + 1][..n] == entries[..n];
      if !DecodableProps(entries[n].props) {
        return false;
      }
      tx.Connect(entries[n]);
    }
    assert entries[..|entries|] == entries;
    ok := true;
  }

  /** What a restore leaves when nothing fails; `next` is where the graph's ids had got to. */
  function Rebuilt(payload: Payload, next: nat): (Nodes, multiset<Rel>)
    requires AllNodesDecodable(payload.nodes) && AllRelsDecodable(payload.rels)
  {
    var tagged := WithNodes(map[], next, payload.nodes);
    (Stripped(tagged), WithRels(tagged, payload.rels))
  }

  lemma {:induction false} RelsHaveEnds(nodes: Nodes, entries: seq<RelEntry>)
    requires AllRelsDecodable(entries)
    ensures forall r :: r in WithRels(nodes, entries) ==> r.src in nodes && r.dst in nodes
  {
    if entries != [] { RelsHaveEnds(nodes, entries[..|entries| - 1]); }
  }

  method RestoreAll(tx: Graph, payload: Payload) returns (ok: bool)
    modifies tx
    ensures ok <==> AllNodesDecodable(payload.nodes) && AllRelsDecodable(payload.rels)
    ensures ok ==> (tx.nodes, tx.rels) == Rebuilt(payload, old(tx.next)) && tx.next == old(tx.next) + |payload.nodes|
    ensures ok ==> tx.Valid()
  {
    tx.Wipe();
    ok := RestoreNodes(tx, payload.nodes);
    if !ok {
      return;
    }
    ok := RestoreRels(tx, payload.rels);
    if !ok {
      return;
    }
    NodesAre(old(tx.next), payload.nodes);
    RelsHaveEnds(tx.nodes, payload.rels);
    tx.StripSentinel();
  }

  // ----- what is rebuilt -----

  /** Position of the first entry with the given element id. */
  function Position(entries: seq<NodeEntry>, eid: string): Option<nat> {
    if entries == [] then None
    else
      var front := Position(entries[..|entries| - 1], eid);
      if front.None? && entries[|entries| - 1].eid == eid then Some(|entries| - 1) else front
  }

  ghost predicate UniqueEids(entries: seq<NodeEntry>) {
    forall i, j :: 0 <= i < j < |entries| ==> entries[i].eid != entries[j].eid
  }

  lemma {:induction false} PositionIs(entries: seq<NodeEntry>, eid: string)
    ensures Position(entries, eid).None? <==> forall i :: 0 <= i < |entries| ==> entries[i].eid != eid
    ensures Position(entries, eid).Some? ==>
              Position(entries, eid).value < |entries| && entries[Position(entries, eid).value].eid == eid
  {
    if entries != [] {
      PositionIs(entries[..|entries| - 1], eid);
    }
  }

  lemma {:induction false} NodesAre(next: nat, entries: seq<NodeEntry>)
    requires AllNodesDecodable(entries)
    ensures forall id :: id in WithNodes(map[], next, entries) <==> next <= id < next + |entries|
    ensures forall i :: 0 <= i < |entries| ==> WithNodes(map[], next, entries)[next + i] == Created(entries[i])
  {
    if entries != [] {
      NodesAre(next, entries[..|entries| - 1]);
    }
  }

  lemma CreatedCarries(entry: NodeEntry)
    requires DecodableProps(entry.props)
    ensures SNAP in Created(entry).props && Created(entry).props[SNAP] == Str(entry.eid)
  {}

  lemma MatchesAt(next: nat, entries: seq<NodeEntry>, eid: string, i: nat)
    requires AllNodesDecodable(entries) && i < |entries|
    ensures next + i in Matching(WithNodes(map[], next, entries), eid) <==> entries[i].eid == eid
  {
    NodesAre(next, entries);
    CreatedCarries(entries[i]);
  }

  function At(next: nat, p: Option<nat>): set<nat> {
    match p case None => {} case Some(i) => {next + i}
  }

  lemma OnlyAt(found: set<nat>, next: nat, n: nat, p: Option<nat>)
    requires forall id :: id in found ==> next <= id < next + n
    requires p.Some? ==> p.value < n
    requires forall i :: 0 <= i < n ==> (next + i in found <==> p == Some(i))
    ensures found == At(next, p)
  {
    forall id | id in found ensures id in At(next, p) {
      var i := id - next;
      assert next + i in found <==> p == Some(i);
    }
  }

  lemma MatchingInside(next: nat, entries: seq<NodeEntry>, eid: string)
    requires AllNodesDecodable(entries)
    ensures forall id :: id in Matching(WithNodes(map[], next, entries), eid) ==> next <= id < next + |entries|
  {
    NodesAre(next, entries);
  }

  lemma {:induction false} UniquePosition(entries: seq<NodeEntry>, i: nat)
    requires UniqueEids(entries) && i < |entries|
    ensures Position(entries, entries[i].eid) == Some(i)
  {
    PositionIs(entries, entries[i].eid);
  }

  lemma MatchingIs(next: nat, entries: seq<NodeEntry>, eid: string)
    requires AllNodesDecodable(entries) && UniqueEids(entries)
    ensures Matching(WithNodes(map[], next, entries), eid) == At(next, Position(entries, eid))
  {
    var found := Matching(WithNodes(map[], next, entries), eid);
    MatchingInside(next, entries, eid);
    PositionIs(entries, eid);
    forall i | 0 <= i < |entries|
      ensures next + i in found <==> Position(entries, eid) == Some(i)
    {
      MatchesAt(next, entries, eid, i);
      UniquePosition(entries, i);
    }
    OnlyAt(found, next, |entries|, Position(entries, eid));
  }

  /** The relationship between two positions, unless one is missing. */
  function Between(next: nat, src: Option<nat>, dst: Option<nat>, relType: string, props: Props): seq<Rel> {
    if src.None? || dst.None? then [] else [Rel(next + src.value, next + dst.value, relType, props)]
  }

  /** The relationships the entries become: one for each, unless an endpoint is not in the payload. */
  function BuiltRels(next: nat, entries: seq<NodeEntry>, rels: seq<RelEntry>): seq<Rel>
    requires AllRelsDecodable(rels)
  {
    if rels == [] then []
    else
      var last := rels[|rels| - 1];
      BuiltRels(next, entries, rels[..|rels| - 1])
      + Between(next, Position(entries, last.srcEid), Position(entries, last.dstEid), last.relType,
                Stored(DeserializeProps(last.props)))
  }

  lemma PairsAt(next: nat, src: Option<nat>, dst: Option<nat>, relType: string, props: Props)
    ensures Pairs(At(next, src), At(next, dst), relType, props) == multiset(Between(next, src, dst, relType, props))
  {
    var pairs := set x, y | x in At(next, src) && y in At(next, dst) :: Rel(x, y, relType, props);
    if src.Some? && dst.Some? {
      assert pairs == {Rel(next + src.value, next + dst.value, relType, props)};
    } else {
      assert pairs == {};
    }
  }

  lemma ConnectedIs(next: nat, entries: seq<NodeEntry>, entry: RelEntry)
    requires AllNodesDecodable(entries) && UniqueEids(entries) && DecodableProps(entry.props)
    ensures Connected(WithNodes(map[], next, entries), entry)
         == multiset(Between(next, Position(entries, entry.srcEid), Position(entries, entry.dstEid), entry.relType,
                             Stored(DeserializeProps(entry.props))))
  {
    MatchingIs(next, entries, entry.srcEid);
    MatchingIs(next, entries, entry.dstEid);
    PairsAt(next, Position(entries, entry.srcEid), Position(entries, entry.dstEid), entry.relType,
            Stored(DeserializeProps(entry.props)));
  }

  lemma {:induction false} RelsAre(next: nat, entries: seq<NodeEntry>, rels: seq<RelEntry>)
    requires AllNodesDecodable(entries) && UniqueEids(entries) && AllRelsDecodable(rels)
    ensures WithRels(WithNodes(map[], next, entries), rels) == multiset(BuiltRels(next, entries, rels))
  {
    if rels != [] {
      RelsAre(next, entries, rels[..|rels| - 1]);
      ConnectedIs(next, entries, rels[|rels| - 1]);
    }
  }

  /** The node an entry becomes once the sentinel is gone. */
  function Final(entry: NodeEntry): Node
    requires DecodableProps(entry.props)
  {
    Node(if entry.labels == [] then ["Node"] else entry.labels, Stored(DeserializeProps(entry.props)) - {SNAP})
  }

  lemma StrippedCreated(entry: NodeEntry)
    requires DecodableProps(entry.props)
    ensures Created(entry).props - {SNAP} == Final(entry).props
  {}

  /** MAIN. Whatever was there before, a restore of a payload with distinct element ids leaves one node for
      each entry, in order, with its labels (or `Node`) and its decoded properties but no sentinel, also
      when the entry had one of its own; and exactly one relationship for each entry both of whose
      endpoints are in the payload. */
  lemma RestoreRebuilds(payload: Payload, next: nat)
    requires AllNodesDecodable(payload.nodes) && AllRelsDecodable(payload.rels) && UniqueEids(payload.nodes)
    ensures var (nodes, rels) := Rebuilt(payload, next);
            && (forall id :: id in nodes <==> next <= id < next + |payload.nodes|)
            && (forall i :: 0 <= i < |payload.nodes| ==> nodes[next + i] == Final(payload.nodes[i]))
            && (forall id :: id in nodes ==> SNAP !in nodes[id].props)
            && rels == multiset(BuiltRels(next, payload.nodes, payload.rels))
  {
    NodesAre(next, payload.nodes);
    RelsAre(next, payload.nodes, payload.rels);
    forall i | 0 <= i < |payload.nodes|
      ensures Rebuilt(payload, next).0[next + i] == Final(payload.nodes[i])
    {
      StrippedCreated(payload.nodes[i]);
    }
  }

  function Shifted(r: Rel, d: int): Rel
    requires r.src + d >= 0 && r.dst + d >= 0
  {
    r.(src := r.src + d, dst := r.dst + d)
  }

  lemma {:induction false} BuiltLength(next: nat, next': nat, entries: seq<NodeEntry>, rels: seq<RelEntry>)
    requires AllRelsDecodable(rels)
    ensures |BuiltRels(next, entries, rels)| == |BuiltRels(next', entries, rels)|
  {
    if rels != [] { BuiltLength(next, next', entries, rels[..|rels| - 1]); }
  }

  /** MAIN. A retry, or a restore over any other graph, gives the same relationships up to where the new
      ids start. */
  lemma {:induction false} RetryGivesTheSameRels(next: nat, next': nat, entries: seq<NodeEntry>, rels: seq<RelEntry>,
                                                 i: nat)
    requires AllRelsDecodable(rels) && i < |BuiltRels(next, entries, rels)|
    ensures |BuiltRels(next, entries, rels)| == |BuiltRels(next', entries, rels)|
    ensures var r := BuiltRels(next, entries, rels)[i];
            r.src >= next && r.dst >= next && BuiltRels(next', entries, rels)[i] == Shifted(r, next' - next)
  {
    BuiltLength(next, next', entries, rels);
    var front := rels[..|rels| - 1];
    BuiltLength(next, next', entries, front);
    if i < |BuiltRels(next, entries, front)| {
      RetryGivesTheSameRels(next, next', entries, front, i);
    }
  }

  lemma RebuiltNode(payload: Payload, next: nat, i: nat)
    requires AllNodesDecodable(payload.nodes) && AllRelsDecodable(payload.rels) && UniqueEids(payload.nodes)
    requires i < |payload.nodes|
    ensures var nodes := Rebuilt(payload, next).0;
            next + i in nodes && nodes[next + i] == Final(payload.nodes[i])
  {
    RestoreRebuilds(payload, next);
  }

  /** MAIN. And the same nodes. */
  lemma RetryGivesTheSameNodes(payload: Payload, next: nat, next': nat, i: nat)
    requires AllNodesDecodable(payload.nodes) && AllRelsDecodable(payload.rels) && UniqueEids(payload.nodes)
    requires i < |payload.nodes|
    ensures var nodes, nodes' := Rebuilt(payload, next).0, Rebuilt(payload, next').0;
            next + i in nodes && next' + i in nodes' && nodes[next + i] == nodes'[next' + i]
  {
    RebuiltNode(payload, next, i);
    RebuiltNode(payload, next', i);
  }

  // ----- snapshot, then restore -----

  /** The graph to be exported, with the order the queries return it in and its element ids. */
  datatype World = World(nodes: Nodes, rels: multiset<Rel>, nodeOrder: seq<nat>, relOrder: seq<Rel>, eid: nat -> string)
  {
    /** Each node once, each relationship once, element ids distinct, no relationship hanging. */
    ghost predicate Valid() {
      && (forall i :: 0 <= i < |nodeOrder| ==> nodeOrder[i] in nodes)
      && (forall id :: id in nodes ==> id in nodeOrder)
      && (forall i, j :: 0 <= i < j < |nodeOrder| ==>
           nodeOrder[i] != nodeOrder[j] && eid(nodeOrder[i]) != eid(nodeOrder[j]))
      && multiset(relOrder) == rels
      && (forall i :: 0 <= i < |relOrder| ==> relOrder[i].src in nodes && relOrder[i].dst in nodes)
    }

    /** The nodes have labels and no property named like the sentinel, and the properties return. */
    ghost predicate Returnable() {
      && Valid()
      && (forall id :: id in nodes ==> NodeReturns(nodes[id]))
      && (forall i :: 0 <= i < |relOrder| ==> Returning(relOrder[i].props))
    }

    /** What a graph database can hold, and the restore does not take for its own: nodes labelled,
        no null property, no tagged dict, no sentinel. */
    ghost predicate Restorable() {
      && Valid()
      && (forall id :: id in nodes ==> nodes[id].labels != [] && Keepable(nodes[id].props) && SNAP !in nodes[id].props)
      && (forall i :: 0 <= i < |relOrder| ==> Keepable(relOrder[i].props))
    }
  }

  /** No property is null, and each is a value the codec returns. */
  ghost predicate Returning(props: Props) { forall k :: k in props ==> props[k] != Null && Returns(props[k]) }

  ghost predicate NodeReturns(node: Node) { node.labels != [] && SNAP !in node.props && Returning(node.props) }

  ghost predicate Keepable(props: Props) {
    TagFreeProps(props) && forall k :: k in props ==> props[k] != Null
  }

  function ExportNode(w: World, id: nat): NodeEntry
    requires id in w.nodes
  {
    NodeEntry(w.eid(id), w.nodes[id].labels, SerializeProps(w.nodes[id].props))
  }

  function ExportRel(w: World, r: Rel): RelEntry {
    RelEntry(w.eid(r.src), w.eid(r.dst), r.relType, SerializeProps(r.props))
  }

  /** The two comprehensions of the export. */
  function Snapshot(w: World): Payload
    requires forall i :: 0 <= i < |w.nodeOrder| ==> w.nodeOrder[i] in w.nodes
  {
    Payload(seq(|w.nodeOrder|, i requires 0 <= i < |w.nodeOrder| => ExportNode(w, w.nodeOrder[i])),
            seq(|w.relOrder|, i requires 0 <= i < |w.relOrder| => ExportRel(w, w.relOrder[i])))
  }

  ghost predicate PropsComeBack(props: Props) {
    DecodableProps(SerializeProps(props)) && Stored(DeserializeProps(SerializeProps(props))) == EraseProps(props)
  }

  /** A property that comes back is not null, and is what decoding its encoding gives. */
  lemma PropComesBack(props: Props, k: string)
    requires PropsComeBack(props) && k in props
    ensures props[k] != Null && ComesBack(props[k])
  {
    var stored := Stored(DeserializeProps(SerializeProps(props)));
    assert k in EraseProps(props) && k in stored;
    assert Decodable(SerializeProps(props)[k]);
    assert stored[k] == Deserialize(Serialize(props[k])) == Erase(props[k]) != Null;
  }

  lemma PropsReturnIff(props: Props)
    ensures PropsComeBack(props) <==> Returning(props)
  {
    forall k | k in props ensures ComesBack(props[k]) <==> Returns(props[k]) {
      RoundTripIff(props[k]);
    }
    if PropsComeBack(props) {
      forall k | k in props ensures props[k] != Null && ComesBack(props[k]) {
        PropComesBack(props, k);
      }
    } else if Returning(props) {
      ReturningComeBack(props);
    }
  }

  lemma ReturningDecodes(props: Props)
    requires forall k :: k in props ==> ComesBack(props[k])
    ensures DecodableProps(SerializeProps(props)) && DeserializeProps(SerializeProps(props)) == EraseProps(props)
  {
    forall k | k in SerializeProps(props) ensures Decodable(SerializeProps(props)[k]) {
      assert ComesBack(props[k]);
    }
    forall k | k in props ensures DeserializeProps(SerializeProps(props))[k] == EraseProps(props)[k] {
      assert ComesBack(props[k]);
    }
  }

  lemma ErasedKeepsAll(props: Props)
    requires forall k :: k in props ==> props[k] != Null
    ensures Stored(EraseProps(props)) == EraseProps(props)
  {
    forall k | k in props ensures EraseProps(props)[k] != Null {
      assert props[k] != Null;
    }
  }

  lemma ReturningComeBack(props: Props)
    requires forall k :: k in props ==> props[k] != Null && ComesBack(props[k])
    ensures PropsComeBack(props)
  {
    ReturningDecodes(props);
    ErasedKeepsAll(props);
  }

  lemma KeepableReturns(props: Props)
    requires Keepable(props)
    ensures Returning(props)
  {
    forall k | k in props ensures Returns(props[k]) {
      DecodeEncode(props[k]);
      RoundTripIff(props[k]);
    }
  }

  lemma RestorableReturns(w: World)
    requires w.Restorable()
    ensures w.Returnable()
  {
    forall id | id in w.nodes ensures NodeReturns(w.nodes[id]) {
      KeepableReturns(w.nodes[id].props);
    }
    forall i | 0 <= i < |w.relOrder| ensures Returning(w.relOrder[i].props) {
      KeepableReturns(w.relOrder[i].props);
    }
  }

  function IndexOf(order: seq<nat>, id: nat): nat
    requires id in order
  {
    if order[|order| - 1] == id then |order| - 1 else IndexOf(order[..|order| - 1], id)
  }

  lemma {:induction false} IndexOfIs(order: seq<nat>, id: nat)
    requires id in order
    ensures IndexOf(order, id) < |order| && order[IndexOf(order, id)] == id
  {
    if order[|order| - 1] != id { IndexOfIs(order[..|order| - 1], id); }
  }

  /** The new id of every old one: they count up in the order of the export. */
  ghost function Renaming(w: World, next: nat): map<nat, nat>
    requires w.Valid()
  {
    map id | id in w.nodes :: next + IndexOf(w.nodeOrder, id)
  }

  function MovedRel(r: Rel, f: map<nat, nat>): Rel
    requires r.src in f && r.dst in f
  {
    Rel(f[r.src], f[r.dst], r.relType, EraseProps(r.props))
  }

  function MovedRels(rels: seq<Rel>, f: map<nat, nat>): seq<Rel>
    requires forall i :: 0 <= i < |rels| ==> rels[i].src in f && rels[i].dst in f
  {
    seq(|rels|, i requires 0 <= i < |rels| => MovedRel(rels[i], f))
  }

  /** `f` is a bijection of the nodes under which labels, erased properties and relationships agree. */
  ghost predicate Isomorphic(w: World, nodes: Nodes, rels: multiset<Rel>, f: map<nat, nat>)
    requires w.Valid()
  {
    && f.Keys == w.nodes.Keys
    && (forall a, b :: a in f && b in f && f[a] == f[b] ==> a == b)
    && (forall id :: id in nodes <==> id in f.Values)
    && (forall id :: id in w.nodes ==>
         f[id] in nodes && nodes[f[id]] == Node(w.nodes[id].labels, EraseProps(w.nodes[id].props)))
    && rels == multiset(MovedRels(w.relOrder, f))
  }

  lemma SnapshotIds(w: World)
    requires w.Valid()
    ensures UniqueEids(Snapshot(w).nodes)
  {}

  lemma SnapshotIsSound(w: World)
    requires w.Returnable()
    ensures var p := Snapshot(w);
            UniqueEids(p.nodes) && AllNodesDecodable(p.nodes) && AllRelsDecodable(p.rels)
  {
    SnapshotIds(w);
    forall i | 0 <= i < |w.nodeOrder|
      ensures DecodableProps(Snapshot(w).nodes[i].props)
    {
      PropsReturnIff(w.nodes[w.nodeOrder[i]].props);
    }
    forall i | 0 <= i < |w.relOrder|
      ensures DecodableProps(Snapshot(w).rels[i].props)
    {
      PropsReturnIff(w.relOrder[i].props);
    }
  }

  /** A node comes back erased exactly when it has a label, no property named like the sentinel, and
      properties that return. */
  lemma NodeComesBackIff(node: Node, entry: NodeEntry)
    requires entry.labels == node.labels && entry.props == SerializeProps(node.props)
    ensures DecodableProps(entry.props) && Final(entry) == Node(node.labels, EraseProps(node.props)) <==>
            NodeReturns(node)
  {
    PropsReturnIff(node.props);
    if DecodableProps(entry.props) {
      var stored := Stored(DeserializeProps(entry.props));
      if SNAP !in node.props {
        assert stored - {SNAP} == stored;
      } else {
        assert SNAP in EraseProps(node.props) && SNAP !in stored - {SNAP};
      }
    }
  }

  lemma EidPosition(w: World, id: nat)
    requires w.Valid() && id in w.nodes && UniqueEids(Snapshot(w).nodes)
    ensures id in w.nodeOrder && Position(Snapshot(w).nodes, w.eid(id)) == Some(IndexOf(w.nodeOrder, id))
  {
    IndexOfIs(w.nodeOrder, id);
    UniquePosition(Snapshot(w).nodes, IndexOf(w.nodeOrder, id));
  }

  /** The entry becomes exactly the relationship `r`. */
  ghost predicate BuiltAs(next: nat, entries: seq<NodeEntry>, entry: RelEntry, r: Rel) {
    && DecodableProps(entry.props)
    && Between(next, Position(entries, entry.srcEid), Position(entries, entry.dstEid), entry.relType,
               Stored(DeserializeProps(entry.props))) == [r]
  }

  lemma BuiltAsBetween(next: nat, entries: seq<NodeEntry>, entry: RelEntry, p: nat, q: nat, r: Rel)
    requires DecodableProps(entry.props)
    requires Position(entries, entry.srcEid) == Some(p) && Position(entries, entry.dstEid) == Some(q)
    requires r == Rel(next + p, next + q, entry.relType, Stored(DeserializeProps(entry.props)))
    ensures BuiltAs(next, entries, entry, r)
  {}

  lemma {:induction false} AllBuiltAs(next: nat, entries: seq<NodeEntry>, rels: seq<RelEntry>, built: seq<Rel>)
    requires AllRelsDecodable(rels) && |rels| == |built|
    requires forall i :: 0 <= i < |rels| ==> BuiltAs(next, entries, rels[i], built[i])
    ensures BuiltRels(next, entries, rels) == built
  {
    if rels != [] {
      var n := |rels| - 1;
      AllBuiltAs(next, entries, rels[..n], built[..n]);
      BuiltSnoc(next, entries, rels, built[n]);
      assert built == built[..n] + [built[n]];
    }
  }

  lemma BuiltSnoc(next: nat, entries: seq<NodeEntry>, rels: seq<RelEntry>, r: Rel)
    requires AllRelsDecodable(rels) && rels != [] && BuiltAs(next, entries, rels[|rels| - 1], r)
    ensures BuiltRels(next, entries, rels) == BuiltRels(next, entries, rels[..|rels| - 1]) + [r]
  {}

  lemma RenamedAt(w: World, next: nat, id: nat)
    requires w.Valid() && id in w.nodes
    ensures id in w.nodeOrder && IndexOf(w.nodeOrder, id) < |w.nodeOrder| && w.nodeOrder[IndexOf(w.nodeOrder, id)] == id
    ensures id in Renaming(w, next) && Renaming(w, next)[id] == next + IndexOf(w.nodeOrder, id)
  {
    IndexOfIs(w.nodeOrder, id);
  }

  /** What the entry of `r` becomes, whether or not its properties return. */
  function BuiltRel(r: Rel, f: map<nat, nat>): Rel
    requires r.src in f && r.dst in f && DecodableProps(SerializeProps(r.props))
  {
    Rel(f[r.src], f[r.dst], r.relType, Stored(DeserializeProps(SerializeProps(r.props))))
  }

  lemma RelIsBuilt(w: World, next: nat, r: Rel, f: map<nat, nat>)
    requires w.Valid() && UniqueEids(Snapshot(w).nodes) && r.src in w.nodes && r.dst in w.nodes
    requires f == Renaming(w, next) && DecodableProps(SerializeProps(r.props))
    ensures r.src in f && r.dst in f && BuiltAs(next, Snapshot(w).nodes, ExportRel(w, r), BuiltRel(r, f))
  {
    EidPosition(w, r.src);
    EidPosition(w, r.dst);
    RenamedAt(w, next, r.src);
    RenamedAt(w, next, r.dst);
    BuiltAsBetween(next, Snapshot(w).nodes, ExportRel(w, r), IndexOf(w.nodeOrder, r.src), IndexOf(w.nodeOrder, r.dst),
      BuiltRel(r, f));
  }

  ghost predicate Endpoints(rels: seq<Rel>, f: map<nat, nat>) {
    forall i :: 0 <= i < |rels| ==> rels[i].src in f && rels[i].dst in f
  }

  ghost predicate AllDecodable(rels: seq<Rel>) {
    forall i :: 0 <= i < |rels| ==> DecodableProps(SerializeProps(rels[i].props))
  }

  function BuiltOf(rels: seq<Rel>, f: map<nat, nat>): seq<Rel>
    requires Endpoints(rels, f) && AllDecodable(rels)
  {
    seq(|rels|, i requires 0 <= i < |rels| => BuiltRel(rels[i], f))
  }

  lemma SnapshotRels(w: World)
    requires w.Valid()
    ensures AllRelsDecodable(Snapshot(w).rels) <==> AllDecodable(w.relOrder)
  {
    forall i | 0 <= i < |w.relOrder|
      ensures Snapshot(w).rels[i].props == SerializeProps(w.relOrder[i].props)
    {
      assert Snapshot(w).rels[i] == ExportRel(w, w.relOrder[i]);
    }
  }

  lemma EndsAreRenamed(w: World, next: nat)
    requires w.Valid()
    ensures Endpoints(w.relOrder, Renaming(w, next))
  {}

  lemma RelsAreBuilt(w: World, next: nat, f: map<nat, nat>)
    requires w.Valid() && AllDecodable(w.relOrder) && f == Renaming(w, next) && Endpoints(w.relOrder, f)
    ensures AllRelsDecodable(Snapshot(w).rels)
    ensures BuiltRels(next, Snapshot(w).nodes, Snapshot(w).rels) == BuiltOf(w.relOrder, f)
  {
    SnapshotIds(w);
    SnapshotRels(w);
    forall i | 0 <= i < |w.relOrder|
      ensures BuiltAs(next, Snapshot(w).nodes, Snapshot(w).rels[i], BuiltOf(w.relOrder, f)[i])
    {
      RelIsBuilt(w, next, w.relOrder[i], f);
    }
    AllBuiltAs(next, Snapshot(w).nodes, Snapshot(w).rels, BuiltOf(w.relOrder, f));
  }

  lemma SameRelsIff(rels: seq<Rel>, f: map<nat, nat>)
    requires Endpoints(rels, f) && AllDecodable(rels)
    ensures BuiltOf(rels, f) == MovedRels(rels, f) <==> forall i :: 0 <= i < |rels| ==> PropsComeBack(rels[i].props)
  {
    var built, moved := BuiltOf(rels, f), MovedRels(rels, f);
    forall i | 0 <= i < |rels|
      ensures built[i] == moved[i] <==> PropsComeBack(rels[i].props)
    {
      assert built[i] == BuiltRel(rels[i], f) && moved[i] == MovedRel(rels[i], f);
    }
    if forall i :: 0 <= i < |rels| ==> PropsComeBack(rels[i].props) {
      assert built == moved;
    }
  }

  /** The relationships come back one by one exactly when all their properties return. */
  lemma RelsComeBackIff(w: World, next: nat, f: map<nat, nat>)
    requires w.Valid() && f == Renaming(w, next)
    ensures Endpoints(w.relOrder, f)
    ensures AllRelsDecodable(Snapshot(w).rels)
            && BuiltRels(next, Snapshot(w).nodes, Snapshot(w).rels) == MovedRels(w.relOrder, f) <==>
            forall i :: 0 <= i < |w.relOrder| ==> Returning(w.relOrder[i].props)
  {
    EndsAreRenamed(w, next);
    SnapshotRels(w);
    forall i | 0 <= i < |w.relOrder|
      ensures PropsComeBack(w.relOrder[i].props) <==> Returning(w.relOrder[i].props)
    {
      PropsReturnIff(w.relOrder[i].props);
    }
    if AllDecodable(w.relOrder) {
      RelsAreBuilt(w, next, f);
      SameRelsIff(w.relOrder, f);
    }
  }

  lemma RenamingIsInjective(w: World, next: nat, a: nat, b: nat)
    requires w.Valid() && a in w.nodes && b in w.nodes && Renaming(w, next)[a] == Renaming(w, next)[b]
    ensures a == b
  {
    RenamedAt(w, next, a);
    RenamedAt(w, next, b);
  }

  lemma RenamingIsOnto(w: World, next: nat, id: nat)
    requires w.Valid()
    ensures id in Renaming(w, next).Values <==> next <= id < next + |w.nodeOrder|
  {
    var f := Renaming(w, next);
    if id in f.Values {
      var a :| a in f && f[a] == id;
      RenamedAt(w, next, a);
    }
    if next <= id < next + |w.nodeOrder| {
      var a := w.nodeOrder[id - next];
      RenamedAt(w, next, a);
      SamePlace(w, IndexOf(w.nodeOrder, a), id - next);
      assert a in f && f[a] == id;
    }
  }

  lemma SamePlace(w: World, i: nat, j: nat)
    requires w.Valid() && i < |w.nodeOrder| && j < |w.nodeOrder| && w.nodeOrder[i] == w.nodeOrder[j]
    ensures i == j
  {}

  lemma RenamingIsBijective(w: World, next: nat, nodes: Nodes, f: map<nat, nat>)
    requires w.Valid() && f == Renaming(w, next)
    requires forall id :: id in nodes <==> next <= id < next + |w.nodeOrder|
    ensures forall a, b :: a in f && b in f && f[a] == f[b] ==> a == b
    ensures forall id :: id in nodes <==> id in f.Values
  {
    forall a, b | a in f && b in f && f[a] == f[b] ensures a == b {
      RenamingIsInjective(w, next, a, b);
    }
    forall id ensures id in nodes <==> id in f.Values {
      RenamingIsOnto(w, next, id);
    }
  }

  lemma RestoredNode(w: World, next: nat, nodes: Nodes, id: nat)
    requires w.Returnable() && id in w.nodes && AllNodesDecodable(Snapshot(w).nodes)
    requires forall i :: 0 <= i < |w.nodeOrder| ==> next + i in nodes && nodes[next + i] == Final(Snapshot(w).nodes[i])
    ensures id in Renaming(w, next) && Renaming(w, next)[id] in nodes
    ensures nodes[Renaming(w, next)[id]] == Node(w.nodes[id].labels, EraseProps(w.nodes[id].props))
  {
    RenamedAt(w, next, id);
    NodeComesBackIff(w.nodes[id], Snapshot(w).nodes[IndexOf(w.nodeOrder, id)]);
  }

  lemma IsomorphicBy(w: World, next: nat, nodes: Nodes, rels: multiset<Rel>, f: map<nat, nat>)
    requires w.Returnable() && AllNodesDecodable(Snapshot(w).nodes) && f == Renaming(w, next)
    requires forall id :: id in nodes <==> next <= id < next + |w.nodeOrder|
    requires forall i :: 0 <= i < |w.nodeOrder| ==> nodes[next + i] == Final(Snapshot(w).nodes[i])
    requires rels == multiset(MovedRels(w.relOrder, f))
    ensures Isomorphic(w, nodes, rels, f)
  {
    RenamingIsBijective(w, next, nodes, f);
    forall id | id in w.nodes
      ensures f[id] in nodes && nodes[f[id]] == Node(w.nodes[id].labels, EraseProps(w.nodes[id].props))
    {
      RestoredNode(w, next, nodes, id);
    }
  }

  /** MAIN. Restoring a snapshot over any graph gives the exported graph back, up to new element ids and
      up to temporals, which have become strings. */
  lemma RestoreOfSnapshot(w: World, next: nat)
    requires w.Returnable()
    ensures AllNodesDecodable(Snapshot(w).nodes) && AllRelsDecodable(Snapshot(w).rels)
    ensures Isomorphic(w, Rebuilt(Snapshot(w), next).0, Rebuilt(Snapshot(w), next).1, Renaming(w, next))
  {
    SnapshotIsSound(w);
    var payload := Snapshot(w);
    RestoreRebuilds(payload, next);
    RelsComeBackIff(w, next, Renaming(w, next));
    IsomorphicBy(w, next, Rebuilt(payload, next).0, Rebuilt(payload, next).1, Renaming(w, next));
  }

  /** The node at place `i` of the export is, under its new id, what it was. */
  ghost predicate NodeIsBack(w: World, next: nat, nodes: Nodes, i: nat)
    requires w.Valid() && i < |w.nodeOrder|
  {
    var node := w.nodes[w.nodeOrder[i]];
    next + i in nodes && nodes[next + i] == Node(node.labels, EraseProps(node.props))
  }

  ghost predicate NodesComeBack(w: World, next: nat, nodes: Nodes)
    requires w.Valid()
  {
    forall i :: 0 <= i < |w.nodeOrder| ==> NodeIsBack(w, next, nodes, i)
  }

  /** The restore succeeds, and the entries become, one by one, what they were made of. */
  ghost predicate EachComesBack(w: World, next: nat)
    requires w.Valid()
  {
    && AllNodesDecodable(Snapshot(w).nodes) && AllRelsDecodable(Snapshot(w).rels)
    && NodesComeBack(w, next, Rebuilt(Snapshot(w), next).0)
    && BuiltRels(next, Snapshot(w).nodes, Snapshot(w).rels) == MovedRels(w.relOrder, Renaming(w, next))
  }

  ghost predicate AllNodesReturn(w: World) { forall id :: id in w.nodes ==> NodeReturns(w.nodes[id]) }

  lemma NodesComeBackIff(w: World, next: nat, nodes: Nodes)
    requires w.Valid() && AllNodesDecodable(Snapshot(w).nodes)
    requires forall i :: 0 <= i < |w.nodeOrder| ==> next + i in nodes && nodes[next + i] == Final(Snapshot(w).nodes[i])
    ensures NodesComeBack(w, next, nodes) <==> AllNodesReturn(w)
  {
    forall i | 0 <= i < |w.nodeOrder|
      ensures NodeIsBack(w, next, nodes, i) <==> NodeReturns(w.nodes[w.nodeOrder[i]])
    {
      assert Snapshot(w).nodes[i] == ExportNode(w, w.nodeOrder[i]);
      assert next + i in nodes && nodes[next + i] == Final(Snapshot(w).nodes[i]);
      NodeComesBackIff(w.nodes[w.nodeOrder[i]], Snapshot(w).nodes[i]);
    }
    forall id | id in w.nodes
      ensures exists i :: 0 <= i < |w.nodeOrder| && w.nodeOrder[i] == id
    {
      IndexOfIs(w.nodeOrder, id);
    }
  }

  lemma RebuiltNodesIff(w: World, next: nat)
    requires w.Valid() && AllNodesDecodable(Snapshot(w).nodes) && AllRelsDecodable(Snapshot(w).rels)
    ensures NodesComeBack(w, next, Rebuilt(Snapshot(w), next).0) <==> AllNodesReturn(w)
  {
    SnapshotIds(w);
    RestoreRebuilds(Snapshot(w), next);
    NodesComeBackIff(w, next, Rebuilt(Snapshot(w), next).0);
  }

  /** MAIN. Exactly these graphs come back: every node has a label and no property named like the sentinel, and
      every property is one the codec returns. */
  lemma ComesBackIff(w: World, next: nat)
    requires w.Valid()
    ensures EachComesBack(w, next) <==> w.Returnable()
  {
    if w.Returnable() { SnapshotIsSound(w); }
    if AllNodesDecodable(Snapshot(w).nodes) && AllRelsDecodable(Snapshot(w).rels) {
      RebuiltNodesIff(w, next);
      RelsComeBackIff(w, next, Renaming(w, next));
    }
  }

  // ----- and again -----

  ghost predicate Settled(w: World)
    requires w.Valid()
  {
    && (forall id :: id in w.nodes ==> EraseProps(w.nodes[id].props) == w.nodes[id].props)
    && (forall i :: 0 <= i < |w.relOrder| ==> EraseProps(w.relOrder[i].props) == w.relOrder[i].props)
  }

  lemma ErasedPropsKeep(props: Props)
    requires Keepable(props)
    ensures Keepable(EraseProps(props)) && EraseProps(EraseProps(props)) == EraseProps(props)
  {
    ErasedPropsAreFixed(props);
    forall k | k in props ensures EraseProps(props)[k] != Null {
      assert props[k] != Null;
    }
  }

  lemma SettledNode(w: World, nodes: Nodes, rels: multiset<Rel>, f: map<nat, nat>, id: nat)
    requires w.Restorable() && Isomorphic(w, nodes, rels, f) && id in nodes
    ensures nodes[id].labels != [] && Keepable(nodes[id].props) && SNAP !in nodes[id].props
    ensures EraseProps(nodes[id].props) == nodes[id].props
  {
    var was :| was in f && f[was] == id;
    ErasedPropsKeep(w.nodes[was].props);
  }

  lemma SettledRel(rels: seq<Rel>, f: map<nat, nat>, r: Rel)
    requires forall i :: 0 <= i < |rels| ==> rels[i].src in f && rels[i].dst in f && Keepable(rels[i].props)
    requires r in MovedRels(rels, f)
    ensures Keepable(r.props) && EraseProps(r.props) == r.props
  {
    var j :| 0 <= j < |rels| && MovedRels(rels, f)[j] == r;
    ErasedPropsKeep(rels[j].props);
  }

  /** MAIN. A restored graph is a fixed point: exported again, in whatever order, it can be restored, and
      no property of it changes any more. */
  lemma RestoredWorldIsSettled(w: World, f: map<nat, nat>, w': World)
    requires w.Restorable() && w'.Valid() && Isomorphic(w, w'.nodes, w'.rels, f)
    ensures w'.Restorable() && w'.Returnable() && Settled(w')
  {
    forall id | id in w'.nodes
      ensures w'.nodes[id].labels != [] && Keepable(w'.nodes[id].props) && SNAP !in w'.nodes[id].props
      ensures EraseProps(w'.nodes[id].props) == w'.nodes[id].props
    {
      SettledNode(w, w'.nodes, w'.rels, f, id);
    }
    forall i | 0 <= i < |w'.relOrder|
      ensures Keepable(w'.relOrder[i].props) && EraseProps(w'.relOrder[i].props) == w'.relOrder[i].props
    {
      assert w'.relOrder[i] in multiset(w'.relOrder);
      assert w'.relOrder[i] in MovedRels(w.relOrder, f);
      SettledRel(w.relOrder, f, w'.relOrder[i]);
    }
    RestorableReturns(w');
  }
}
