/** Insertion-ordered grouping: what `d.setdefault(key, []).append(value)` builds in a loop. */
module Grouping {

  /** The values recorded under `key`, in input order. */
  function ValuesOf<K(==), V>(items: seq<(K, V)>, key: K): seq<V> {
    if items == [] then []
    else
      var last := items[|items| - 1];
      ValuesOf(items[..|items| - 1], key) + if last.0 == key then [last.1] else []
  }

  /** The distinct keys, in order of first occurrence. */
  function KeysInOrder<K(==), V>(items: seq<(K, V)>): seq<K> {
    if items == [] then []
    else
      var before, key := KeysInOrder(items[..|items| - 1]), items[|items| - 1].0;
      if key in before then before else before + [key]
  }

  ghost predicate Distinct<T>(s: seq<T>) {
    forall i, j :: 0 <= i < j < |s| ==> s[i] != s[j]
  }

  function Flatten<T>(parts: seq<seq<T>>): seq<T> {
    if parts == [] then [] else Flatten(parts[..|parts| - 1]) + parts[|parts| - 1]
  }

  function Snds<K, V>(items: seq<(K, V)>): seq<V> {
    seq(|items|, i requires 0 <= i < |items| => items[i].1)
  }

  lemma {:induction false} KeysAreTheKeys<K, V>(items: seq<(K, V)>)
    ensures Distinct(KeysInOrder(items))
    ensures forall k :: k in KeysInOrder(items) <==> ValuesOf(items, k) != []
  {
    if items != [] {
      KeysAreTheKeys(items[..|items| - 1]);
    }
  }

  ghost predicate Occurs<K(!new), V(!new)>(items: seq<(K, V)>, k: K) { exists p :: 0 <= p < |items| && items[p].0 == k }

  /** The one key occurs at a place up to which the other has not occurred. */
  ghost predicate SeenBefore<K(!new), V(!new)>(items: seq<(K, V)>, k: K, k': K) {
    exists p :: 0 <= p < |items| && items[p].0 == k && forall q :: 0 <= q <= p ==> items[q].0 != k'
  }

  lemma OccursSnoc<K(!new), V(!new)>(rest: seq<(K, V)>, last: (K, V), k: K)
    ensures Occurs(rest + [last], k) <==> Occurs(rest, k) || last.0 == k
  {
    var items := rest + [last];
    assert items[|rest|] == last;
    if p :| 0 <= p < |rest| && rest[p].0 == k {
      assert items[p].0 == k;
    }
  }

  lemma SeenSnoc<K(!new), V(!new)>(rest: seq<(K, V)>, last: (K, V), k: K, k': K)
    requires SeenBefore(rest, k, k') || (Occurs(rest, k) && !Occurs(rest, k'))
    ensures SeenBefore(rest + [last], k, k')
  {
    var items := rest + [last];
    var p :| 0 <= p < |rest| && rest[p].0 == k && forall q :: 0 <= q <= p ==> rest[q].0 != k';
    assert items[p].0 == k;
  }

  lemma {:induction false} KeysOccur<K(!new), V(!new)>(items: seq<(K, V)>, k: K)
    ensures k in KeysInOrder(items) <==> Occurs(items, k)
  {
    if items != [] {
      var rest, last := items[..|items| - 1], items[|items| - 1];
      assert items == rest + [last];
      KeysOccur(rest, k);
      OccursSnoc(rest, last, k);
    }
  }

  /** MAIN. The keys stand in the order they are first seen in. */
  lemma {:induction false} KeysAsSeen<K(!new), V(!new)>(items: seq<(K, V)>, i: nat, j: nat)
    requires i < j < |KeysInOrder(items)|
    ensures SeenBefore(items, KeysInOrder(items)[i], KeysInOrder(items)[j])
  {
    var rest, last := items[..|items| - 1], items[|items| - 1];
    var before := KeysInOrder(rest);
    assert items == rest + [last];
    if j < |before| {
      KeysAsSeen(rest, i, j);
      SeenSnoc(rest, last, before[i], before[j]);
    } else {
      assert before[i] in before;
      KeysOccur(rest, before[i]);
      KeysOccur(rest, last.0);
      SeenSnoc(rest, last, before[i], last.0);
    }
  }

  /** The group lists of the given keys, in that order. */
  function Groups<K(==), V>(items: seq<(K, V)>, keys: seq<K>): seq<seq<V>> {
    seq(|keys|, i requires 0 <= i < |keys| => ValuesOf(items, keys[i]))
  }

  lemma FlattenSnoc<T>(parts: seq<seq<T>>, last: seq<T>)
    ensures Flatten(parts + [last]) == Flatten(parts) + last
  {
    assert (parts + [last])[..|parts|] == parts;
  }

  lemma FlattenSplit<T>(front: seq<seq<T>>, last: seq<T>)
    ensures multiset(Flatten(front + [last])) == multiset(Flatten(front)) + multiset(last)
  {
    assert (front + [last])[..|front|] == front;
  }

  /** Appending one value to one part adds it to the flattened multiset. */
  lemma {:induction false} FlattenGrow<T>(parts: seq<seq<T>>, i: nat, v: T)
    requires i < |parts|
    ensures multiset(Flatten(parts[i := parts[i] + [v]])) == multiset(Flatten(parts)) + multiset{v}
    decreases |parts|
  {
    var front, last := parts[..|parts| - 1], parts[|parts| - 1];
    assert parts == front + [last];
    FlattenSplit(front, last);
    if i == |front| {
      assert parts[i := parts[i] + [v]] == front + [last + [v]];
      FlattenSplit(front, last + [v]);
    } else {
      assert parts[i := parts[i] + [v]] == front[i := parts[i] + [v]] + [last];
      FlattenSplit(front[i := parts[i] + [v]], last);
      FlattenGrow(front, i, v);
    }
  }

  /** One more item: its key is new or not, and only its own list grows. */
  lemma Snoc<K, V>(rest: seq<(K, V)>, key: K, v: V)
    ensures KeysInOrder(rest + [(key, v)])
            == if key in KeysInOrder(rest) then KeysInOrder(rest) else KeysInOrder(rest) + [key]
    ensures ValuesOf(rest + [(key, v)], key) == ValuesOf(rest, key) + [v]
    ensures forall k :: k != key ==> ValuesOf(rest + [(key, v)], k) == ValuesOf(rest, k)
  {
    assert (rest + [(key, v)])[..|rest|] == rest;
  }

  lemma GroupsSnocOld<K, V>(rest: seq<(K, V)>, keys: seq<K>, i: nat, v: V)
    requires Distinct(keys) && i < |keys|
    ensures Groups(rest + [(keys[i], v)], keys)
            == var parts := Groups(rest, keys); parts[i := parts[i] + [v]]
  {
    Snoc(rest, keys[i], v);
  }

  lemma GroupsSnocNew<K, V>(rest: seq<(K, V)>, keys: seq<K>, key: K, v: V)
    requires key !in keys && ValuesOf(rest, key) == []
    ensures Groups(rest + [(key, v)], keys + [key]) == Groups(rest, keys) + [[v]]
  {
    Snoc(rest, key, v);
    var all := rest + [(key, v)];
    assert ValuesOf(all, key) == [v];
    forall i | 0 <= i < |keys|
      ensures ValuesOf(all, (keys + [key])[i]) == ValuesOf(rest, keys[i])
    {
      assert keys[i] in keys;
    }
  }

  /** MAIN. Grouping loses and invents nothing: the groups together hold exactly the values. */
  lemma {:induction false} GroupingConserves<K, V>(items: seq<(K, V)>)
    ensures multiset(Flatten(Groups(items, KeysInOrder(items)))) == multiset(Snds(items))
  {
    if items == [] {
    } else {
      var n := |items| - 1;
      var rest, key, v := items[..n], items[n].0, items[n].1;
      assert items == rest + [(key, v)];
      assert Snds(items) == Snds(rest) + [v];
      GroupingConserves(rest);
      KeysAreTheKeys(rest);
      Snoc(rest, key, v);
      var before := KeysInOrder(rest);
      if key in before {
        var i :| 0 <= i < |before| && before[i] == key;
        GroupsSnocOld(rest, before, i, v);
        FlattenGrow(Groups(rest, before), i, v);
      } else {
        GroupsSnocNew(rest, before, key, v);
        FlattenSnoc(Groups(rest, before), [v]);
      }
    }
  }

  /** With one key there is one group, and it is everything. */
  lemma {:induction false} OneKeyOneGroup<K, V>(items: seq<(K, V)>, key: K)
    requires forall i :: 0 <= i < |items| ==> items[i].0 == key
    ensures ValuesOf(items, key) == Snds(items)
    ensures items != [] ==> KeysInOrder(items) == [key]
  {
    if items != [] {
      OneKeyOneGroup(items[..|items| - 1], key);
      assert Snds(items) == Snds(items[..|items| - 1]) + [items[|items| - 1].1];
    }
  }

  /** The dict has the keys in order of first appearance, each with its values. */
  ghost predicate Grouped<K, V>(items: seq<(K, V)>, keys: seq<K>, groups: map<K, seq<V>>) {
    && keys == KeysInOrder(items)
    && (forall k :: k in groups ==> k in keys)
    && forall k :: k in keys ==> k in groups && groups[k] == ValuesOf(items, k)
  }

  lemma GroupOneMore<K, V>(rest: seq<(K, V)>, key: K, v: V, keys: seq<K>, groups: map<K, seq<V>>)
    requires Grouped(rest, keys, groups)
    ensures if key in groups then Grouped(rest + [(key, v)], keys, groups[key := groups[key] + [v]])
            else Grouped(rest + [(key, v)], keys + [key], groups[key := [v]])
  {
    Snoc(rest, key, v);
    KeysAreTheKeys(rest);
  }

  /** The loop itself: a dict of lists filled one item at a time. */
  method GroupBy<K(==), V>(items: seq<(K, V)>) returns (keys: seq<K>, groups: map<K, seq<V>>)
    ensures keys == KeysInOrder(items)
    ensures forall k :: k in groups <==> k in keys
    ensures forall k :: k in keys ==> groups[k] == ValuesOf(items, k)
  {
    keys, groups := [], map[];
    for n := 0 to |items|
      invariant Grouped(items[..n], keys, groups)
    {
      var key, v := items[n].0, items[n].1;
      assert items[..n + 1] == items[..n] + [(key, v)];
      GroupOneMore(items[..n], key, v, keys, groups);
      if key !in groups {
        keys, groups := keys + [key], groups[key := []];
      }
      assert [] + [v] == [v];
      groups := groups[key := groups[key] + [v]];
    }
    assert items[..|items|] == items;
  }
}
