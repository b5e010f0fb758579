/** The order in which rows are labelled, after `evals/label_sampling.py`. */
module LabelSampling {
  import opened Grouping
  import opened Selection

  /** A key, the scorer it was judged by, and the scorer's verdict. */
  datatype LabelRow = LabelRow(key: string, scorer: string, verdict: bool)

  datatype Stratum = Stratum(scorer: string, verdict: bool, keys: seq<string>)

  // ----- the order of strata -----

  /** Strings compare by their characters, a proper prefix first. */
  predicate StringBefore(a: string, b: string) {
    b != [] && (a == [] || a[0] < b[0] || (a[0] == b[0] && StringBefore(a[1..], b[1..])))
  }

  lemma {:induction false} StringOrder(a: string, b: string)
    ensures !(StringBefore(a, b) && StringBefore(b, a))
    ensures a == b || StringBefore(a, b) || StringBefore(b, a)
    decreases |a|
  {
    if a != [] && b != [] {
      StringOrder(a[1..], b[1..]);
      assert a[0] == b[0] && a[1..] == b[1..] ==> a == [a[0]] + a[1..] == b;
    }
  }

  lemma {:induction false} StringTransitive(a: string, b: string, c: string)
    requires StringBefore(a, b) && StringBefore(b, c)
    ensures StringBefore(a, c)
  {
    if a != [] && a[0] == b[0] == c[0] { StringTransitive(a[1..], b[1..], c[1..]); }
  }

  /** Smaller strata first; equal sizes by scorer, then false before true. */
  predicate Before(a: Stratum, b: Stratum) {
    || |a.keys| < |b.keys|
    || (|a.keys| == |b.keys| && (StringBefore(a.scorer, b.scorer) || (a.scorer == b.scorer && !a.verdict && b.verdict)))
  }

  predicate SameLabel(a: Stratum, b: Stratum) { a.scorer == b.scorer && a.verdict == b.verdict }

  lemma BeforeIsStrict(a: Stratum, b: Stratum, c: Stratum)
    ensures !(Before(a, b) && Before(b, a))
    ensures !SameLabel(a, b) ==> Before(a, b) || Before(b, a)
    ensures Before(a, b) && Before(b, c) ==> Before(a, c)
  {
    StringOrder(a.scorer, b.scorer);
    StringOrder(b.scorer, c.scorer);
    if StringBefore(a.scorer, b.scorer) && StringBefore(b.scorer, c.scorer) {
      StringTransitive(a.scorer, b.scorer, c.scorer);
    }
  }

  ghost predicate Ordered(s: seq<Stratum>) {
    forall i, j :: 0 <= i < j < |s| ==> Before(s[i], s[j])
  }

  ghost predicate DistinctLabels(s: seq<Stratum>) {
    forall i, j :: 0 <= i < j < |s| ==> !SameLabel(s[i], s[j])
  }

  // ----- stratify -----

  function Tagged(rows: seq<LabelRow>): seq<((string, bool), string)> {
    seq(|rows|, i requires 0 <= i < |rows| => ((rows[i].scorer, rows[i].verdict), rows[i].key))
  }

  function StratumOf(rows: seq<LabelRow>, kind: (string, bool)): Stratum {
    Stratum(kind.0, kind.1, ValuesOf(Tagged(rows), kind))
  }

  /** The strata in order of first appearance. */
  function Unsorted(rows: seq<LabelRow>): seq<Stratum> {
    var kinds := KeysInOrder(Tagged(rows));
    seq(|kinds|, i requires 0 <= i < |kinds| => StratumOf(rows, kinds[i]))
  }

  function Insert(s: seq<Stratum>, x: Stratum): seq<Stratum> {
    if s == [] || Before(s[|s| - 1], x) then s + [x]
    else Insert(s[..|s| - 1], x) + [s[|s| - 1]]
  }

  function SortStrata(s: seq<Stratum>): seq<Stratum> {
    if s == [] then [] else Insert(SortStrata(s[..|s| - 1]), s[|s| - 1])
  }

  method Stratify(rows: seq<LabelRow>) returns (strata: seq<Stratum>)
    ensures strata == SortStrata(Unsorted(rows))
  {
    var kinds, grouped := GroupBy(Tagged(rows));
    strata := [];
    for n := 0 to |kinds|
      invariant strata == Unsorted(rows)[..n]
    {
      assert kinds[n] in kinds;
      strata := strata + [Stratum(kinds[n].0, kinds[n].1, grouped[kinds[n]])];
    }
    assert Unsorted(rows)[..|kinds|] == Unsorted(rows);
    strata := SortStrata(strata);
  }

  lemma {:induction false} InsertContents(s: seq<Stratum>, x: Stratum)
    ensures multiset(Insert(s, x)) == multiset(s) + multiset{x}
    ensures forall y :: y in Insert(s, x) <==> y in s || y == x
  {
    if s != [] {
      assert s == s[..|s| - 1] + [s[|s| - 1]];
      InsertContents(s[..|s| - 1], x);
    }
  }

  lemma OrderedSnoc(s: seq<Stratum>, top: Stratum)
    requires Ordered(s) && forall y :: y in s ==> Before(y, top)
    ensures Ordered(s + [top])
  {
    assert forall i :: 0 <= i < |s| ==> s[i] in s;
  }

  lemma {:induction false} InsertOrders(s: seq<Stratum>, x: Stratum)
    requires Ordered(s) && forall y :: y in s ==> !SameLabel(y, x)
    ensures Ordered(Insert(s, x))
  {
    if s == [] {
    } else {
      var n := |s| - 1;
      var last := s[n];
      assert last in s;
      if Before(last, x) {
        forall y | y in s ensures Before(y, x) {
          BeforeIsStrict(y, last, x);
        }
        OrderedSnoc(s, x);
      } else {
        BeforeIsStrict(last, x, x);
        InsertOrders(s[..n], x);
        InsertContents(s[..n], x);
        OrderedSnoc(Insert(s[..n], x), last);
      }
    }
  }

  lemma {:induction false} SortOrders(s: seq<Stratum>)
    requires DistinctLabels(s)
    ensures Ordered(SortStrata(s)) && multiset(SortStrata(s)) == multiset(s)
  {
    if s != [] {
      var n := |s| - 1;
      SortOrders(s[..n]);
      assert s == s[..n] + [s[n]];
      forall y | y in SortStrata(s[..n]) ensures !SameLabel(y, s[n]) {
        assert y in multiset(s[..n]);
      }
      InsertOrders(SortStrata(s[..n]), s[n]);
      InsertContents(SortStrata(s[..n]), s[n]);
    }
  }

  lemma UnsortedAreDistinct(rows: seq<LabelRow>)
    ensures DistinctLabels(Unsorted(rows))
    ensures forall s :: s in Unsorted(rows) ==> s.keys != [] && s == StratumOf(rows, (s.scorer, s.verdict))
    ensures forall kind :: ValuesOf(Tagged(rows), kind) != [] ==> StratumOf(rows, kind) in Unsorted(rows)
  {
    KeysAreTheKeys(Tagged(rows));
    var kinds := KeysInOrder(Tagged(rows));
    assert forall i :: 0 <= i < |kinds| ==> kinds[i] in kinds;
    forall kind | ValuesOf(Tagged(rows), kind) != []
      ensures StratumOf(rows, kind) in Unsorted(rows)
    {
      var i :| 0 <= i < |kinds| && kinds[i] == kind;
      assert Unsorted(rows)[i] == StratumOf(rows, kind);
    }
  }

  // ----- shuffling in place -----

  function Swap(s: seq<string>, i: nat, j: nat): seq<string>
    requires i < |s| && j < |s|
  {
    s[i := s[j]][j := s[i]]
  }

  /** The list after the swaps from the last position down to position `i`, whatever is drawn. */
  function Shuffled(s: seq<string>, draw: nat -> nat, i: nat): (r: seq<string>)
    ensures |r| == |s|
    decreases |s| - i
  {
    if i >= |s| then s else Swap(Shuffled(s, draw, i + 1), i, draw(i) % (i + 1))
  }

  lemma SwapKeepsContents(s: seq<string>, i: nat, j: nat)
    requires i < |s| && j < |s|
    ensures multiset(Swap(s, i, j)) == multiset(s)
  {}

  lemma {:induction false} ShufflePermutes(s: seq<string>, draw: nat -> nat, i: nat)
    ensures multiset(Shuffled(s, draw, i)) == multiset(s)
    decreases |s| - i
  {
    if i < |s| {
      ShufflePermutes(s, draw, i + 1);
      SwapKeepsContents(Shuffled(s, draw, i + 1), i, draw(i) % (i + 1));
    }
  }

  lemma {:induction false} ShuffledAlike(s: seq<string>, draw: nat -> nat, draw': nat -> nat, i: nat)
    requires forall k :: k >= i ==> draw(k) == draw'(k)
    ensures Shuffled(s, draw, i) == Shuffled(s, draw', i)
    decreases |s| - i
  {
    if i < |s| { ShuffledAlike(s, draw, draw', i + 1); }
  }

  /** The lists agree from a place on, so they have the same elements before it. */
  lemma SameFronts(r: seq<string>, t: seq<string>, i: nat)
    requires multiset(r) == multiset(t) && |r| == |t| && i <= |r| && r[i..] == t[i..]
    ensures multiset(r[..i]) == multiset(t[..i])
  {
    assert r == r[..i] + r[i..] && t == t[..i] + t[i..];
    assert multiset(r[..i]) == multiset(r) - multiset(r[i..]);
  }

  /** A place at or before i from which the wanted element can be swapped to i. */
  lemma FoundBelow(r: seq<string>, t: seq<string>, i: nat) returns (j: nat)
    requires multiset(r) == multiset(t) && |r| == |t| && i < |r| && r[i + 1..] == t[i + 1..]
    ensures j <= i && r[j] == t[i]
  {
    SameFronts(r, t, i + 1);
    assert t[i] == t[..i + 1][i] && t[..i + 1][i] in multiset(r[..i + 1]);
    j :| 0 <= j < i + 1 && r[..i + 1][j] == t[i];
  }

  lemma SwappedIn(r: seq<string>, t: seq<string>, i: nat, j: nat)
    requires |r| == |t| && j <= i < |r| && r[i + 1..] == t[i + 1..] && r[j] == t[i]
    ensures Swap(r, i, j)[i..] == t[i..]
  {
    forall k | i <= k < |r|
      ensures Swap(r, i, j)[k] == t[k]
    {
      assert k > i ==> r[k] == r[i + 1..][k - i - 1] && t[k] == t[i + 1..][k - i - 1];
    }
  }

  function Redirected(draw: nat -> nat, i: nat, j: nat): nat -> nat { k => if k == i then j else draw(k) }

  lemma RedirectedSwaps(s: seq<string>, draw: nat -> nat, i: nat, j: nat)
    requires j <= i < |s|
    ensures Shuffled(s, Redirected(draw, i, j), i) == Swap(Shuffled(s, draw, i + 1), i, j)
  {
    ShuffledAlike(s, draw, Redirected(draw, i, j), i + 1);
    SmallRemainder(j, i + 1);
  }

  lemma ReachOneMore(s: seq<string>, t: seq<string>, i: nat, above: nat -> nat) returns (draw: nat -> nat)
    requires multiset(s) == multiset(t) && |s| == |t| && i < |s| && Shuffled(s, above, i + 1)[i + 1..] == t[i + 1..]
    ensures Shuffled(s, draw, i)[i..] == t[i..]
  {
    var r := Shuffled(s, above, i + 1);
    ShufflePermutes(s, above, i + 1);
    var j := FoundBelow(r, t, i);
    SwappedIn(r, t, i, j);
    RedirectedSwaps(s, above, i, j);
    draw := Redirected(above, i, j);
  }

  lemma SmallRemainder(j: nat, m: nat)
    requires j < m
    ensures j % m == j
  {}

  /** The draw that brings the wanted element to place i, after those above it are in place. */
  lemma {:induction false} Reach(s: seq<string>, t: seq<string>, i: nat) returns (draw: nat -> nat)
    requires multiset(s) == multiset(t) && |s| == |t| && i <= |s|
    ensures Shuffled(s, draw, i)[i..] == t[i..]
    decreases |s| - i
  {
    draw := (_: nat) => 0;
    if i < |s| {
      var above := Reach(s, t, i + 1);
      draw := ReachOneMore(s, t, i, above);
    }
  }

  lemma TailsDecide(r: seq<string>, t: seq<string>)
    requires multiset(r) == multiset(t) && |r| == |t| && r != [] && r[1..] == t[1..]
    ensures r == t
  {
    var j := FoundBelow(r, t, 0);
    assert r == [r[0]] + r[1..] && t == [t[0]] + t[1..];
  }

  /** MAIN. The shuffle favours nothing: every order of the list is reached by some draws, and no other. */
  lemma ShuffleReaches(s: seq<string>, t: seq<string>)
    ensures (exists draw: nat -> nat :: Shuffled(s, draw, 1) == t) <==> multiset(s) == multiset(t)
  {
    if draw: nat -> nat :| Shuffled(s, draw, 1) == t {
      ShufflePermutes(s, draw, 1);
    }
    if multiset(s) == multiset(t) {
      assert |s| == |multiset(s)| == |t|;
      var draw := Reach(s, t, if |s| == 0 then 0 else 1);
      ShufflePermutes(s, draw, 1);
      if s != [] { TailsDecide(Shuffled(s, draw, 1), t); }
      assert Shuffled(s, draw, 1) == t;
    }
  }

  method Shuffle(a: array<string>, draw: nat -> nat)
    modifies a
    ensures a[..] == Shuffled(old(a[..]), draw, 1)
  {
    if a.Length == 0 {
      return;
    }
    ghost var was := a[..];
    var i := a.Length - 1;
    while i >= 1
      invariant 0 <= i < a.Length
      invariant a[..] == Shuffled(was, draw, i + 1)
    {
      ghost var before := a[..];
      var j := draw(i) % (i + 1);
      a[i], a[j] := a[j], a[i];
      assert a[..] == Swap(before, i, j);
      i := i - 1;
    }
  }

  // ----- round robin -----

  /** The order after bucket `m` of round `i`: in every round each bucket still long enough gives one key. */
  function Stage(buckets: seq<seq<string>>, i: nat, m: nat): seq<string>
    requires m <= |buckets|
    decreases i, m
  {
    if m == 0 then if i == 0 then [] else Stage(buckets, i - 1, |buckets|)
    else
      var before := Stage(buckets, i, m - 1);
      if i < |buckets[m - 1]| then before + [buckets[m - 1][i]] else before
  }

  function MaxLength(buckets: seq<seq<string>>): nat {
    if buckets == [] then 0
    else
      var before, last := MaxLength(buckets[..|buckets| - 1]), |buckets[|buckets| - 1]|;
      if last > before then last else before
  }

  lemma {:induction false} MaxLengthIs(buckets: seq<seq<string>>)
    ensures forall b :: 0 <= b < |buckets| ==> |buckets[b]| <= MaxLength(buckets)
    ensures MaxLength(buckets) > 0 ==> exists b :: 0 <= b < |buckets| && |buckets[b]| == MaxLength(buckets)
  {
    if buckets != [] {
      var front := buckets[..|buckets| - 1];
      MaxLengthIs(front);
      assert forall b :: 0 <= b < |front| ==> buckets[b] == front[b];
    }
  }

  function RoundRobin(buckets: seq<seq<string>>): seq<string> { Stage(buckets, MaxLength(buckets), 0) }

  method Interleave(shuffled: seq<seq<string>>) returns (ordered: seq<string>)
    ensures ordered == RoundRobin(shuffled)
  {
    ordered := [];
    var index := 0;
    MaxLengthIs(shuffled);
    while exists b :: 0 <= b < |shuffled| && index < |shuffled[b]|
      invariant index <= MaxLength(shuffled)
      invariant ordered == Stage(shuffled, index, 0)
      decreases MaxLength(shuffled) - index
    {
      for m := 0 to |shuffled|
        invariant ordered == Stage(shuffled, index, m)
      {
        if index < |shuffled[m]| {
          ordered := ordered + [shuffled[m][index]];
        }
      }
      index := index + 1;
    }
  }

  // ----- the whole order -----

  function Buckets(strata: seq<Stratum>, draw: (nat, nat) -> nat): seq<seq<string>> {
    seq(|strata|, b requires 0 <= b < |strata| => Shuffled(strata[b].keys, i => draw(b, i), 1))
  }

  /** The order for arbitrary draws of the seeded generator. */
  function LabellingOrder(rows: seq<LabelRow>, draw: (nat, nat) -> nat): seq<string> {
    RoundRobin(Buckets(SortStrata(Unsorted(rows)), draw))
  }

  /** `keys = list(stratum.keys)`, then shuffled in place. */
  method ShuffledCopy(keys: seq<string>, draw: nat -> nat) returns (out: seq<string>)
    ensures out == Shuffled(keys, draw, 1)
  {
    var copy := new string[|keys|](i requires 0 <= i < |keys| => keys[i]);
    assert copy[..] == keys;
    Shuffle(copy, draw);
    out := copy[..];
  }

  method OrderForLabelling(rows: seq<LabelRow>, draw: (nat, nat) -> nat) returns (ordered: seq<string>)
    ensures ordered == LabellingOrder(rows, draw)
  {
    var strata := Stratify(rows);
    var shuffled: seq<seq<string>> := [];
    for b := 0 to |strata|
      invariant shuffled == Buckets(strata, draw)[..b]
    {
      var keys := ShuffledCopy(strata[b].keys, i => draw(b, i));
      shuffled := shuffled + [keys];
    }
    assert Buckets(strata, draw)[..|strata|] == Buckets(strata, draw);
    ordered := Interleave(shuffled);
  }

  // ----- a permutation -----

  /** How many of bucket `b` are picked at stage `i`, `m`. */
  function Reached(len: nat, b: nat, i: nat, m: nat): nat {
    var rounds := if b < m then i + 1 else i;
    if len <= rounds then len else rounds
  }

  function Prefixes(buckets: seq<seq<string>>, i: nat, m: nat): seq<seq<string>> {
    seq(|buckets|, b requires 0 <= b < |buckets| => buckets[b][..Reached(|buckets[b]|, b, i, m)])
  }

  lemma PrefixesGrow(buckets: seq<seq<string>>, i: nat, m: nat)
    requires 0 < m <= |buckets|
    ensures var before := Prefixes(buckets, i, m - 1);
            Prefixes(buckets, i, m) ==
              if i < |buckets[m - 1]| then before[m - 1 := before[m - 1] + [buckets[m - 1][i]]] else before
  {
    if i < |buckets[m - 1]| {
      assert buckets[m - 1][..i + 1] == buckets[m - 1][..i] + [buckets[m - 1][i]];
    }
  }

  /** How often `key` occurs in the parts together. */
  function Occurrences(parts: seq<seq<string>>, key: string): nat {
    if parts == [] then 0 else Occurrences(parts[..|parts| - 1], key) + multiset(parts[|parts| - 1])[key]
  }

  lemma {:induction false} FlattenOccurrences(parts: seq<seq<string>>, key: string)
    ensures multiset(Flatten(parts))[key] == Occurrences(parts, key)
  {
    if parts != [] { FlattenOccurrences(parts[..|parts| - 1], key); }
  }

  lemma OccurrencesSnoc(parts: seq<seq<string>>, last: seq<string>, key: string)
    ensures Occurrences(parts + [last], key) == Occurrences(parts, key) + multiset(last)[key]
  {
    assert (parts + [last])[..|parts|] == parts;
  }

  lemma {:induction false} OccurrencesGrow(parts: seq<seq<string>>, i: nat, x: string, key: string)
    requires i < |parts|
    ensures Occurrences(parts[i := parts[i] + [x]], key) == Occurrences(parts, key) + if x == key then 1 else 0
    decreases |parts|
  {
    var n := |parts| - 1;
    var grown := parts[i := parts[i] + [x]];
    if i == n {
      assert grown[..n] == parts[..n];
    } else {
      assert grown[..n] == parts[..n][i := parts[i] + [x]];
      OccurrencesGrow(parts[..n], i, x, key);
    }
  }

  lemma OccurrencesGrowAt(before: seq<seq<string>>, after: seq<seq<string>>, i: nat, x: string, key: string)
    requires i < |before| && after == before[i := before[i] + [x]]
    ensures Occurrences(after, key) == Occurrences(before, key) + if x == key then 1 else 0
  {
    OccurrencesGrow(before, i, x, key);
  }

  lemma {:induction false} NoOccurrences(parts: seq<seq<string>>, key: string)
    requires forall i :: 0 <= i < |parts| ==> parts[i] == []
    ensures Occurrences(parts, key) == 0
  {
    if parts != [] { NoOccurrences(parts[..|parts| - 1], key); }
  }

  function Pushed(buckets: seq<seq<string>>, i: nat, m: nat, key: string): nat
    requires 0 < m <= |buckets|
  {
    if i < |buckets[m - 1]| && buckets[m - 1][i] == key then 1 else 0
  }

  lemma StageGrows(buckets: seq<seq<string>>, i: nat, m: nat, key: string)
    requires 0 < m <= |buckets|
    ensures multiset(Stage(buckets, i, m))[key] == multiset(Stage(buckets, i, m - 1))[key] + Pushed(buckets, i, m, key)
  {}

  lemma PrefixOccurrencesGrow(buckets: seq<seq<string>>, i: nat, m: nat, key: string)
    requires 0 < m <= |buckets|
    ensures Occurrences(Prefixes(buckets, i, m), key)
         == Occurrences(Prefixes(buckets, i, m - 1), key) + Pushed(buckets, i, m, key)
  {
    PrefixesGrow(buckets, i, m);
    if i < |buckets[m - 1]| {
      OccurrencesGrowAt(Prefixes(buckets, i, m - 1), Prefixes(buckets, i, m), m - 1, buckets[m - 1][i], key);
    }
  }

  lemma PrefixesOfNewRound(buckets: seq<seq<string>>, i: nat)
    requires i > 0
    ensures Prefixes(buckets, i, 0) == Prefixes(buckets, i - 1, |buckets|)
  {
    forall b | 0 <= b < |buckets|
      ensures Reached(|buckets[b]|, b, i, 0) == Reached(|buckets[b]|, b, i - 1, |buckets|)
    {}
  }

  /** How often `key` has been taken at a stage. */
  ghost function Taken(buckets: seq<seq<string>>, i: nat, m: nat, key: string): nat
    requires m <= |buckets|
    decreases i, m
  {
    if m > 0 then Taken(buckets, i, m - 1, key) + Pushed(buckets, i, m, key)
    else if i > 0 then Taken(buckets, i - 1, |buckets|, key)
    else 0
  }

  lemma {:induction false} StageHolds(buckets: seq<seq<string>>, i: nat, m: nat, key: string)
    requires m <= |buckets|
    ensures multiset(Stage(buckets, i, m))[key] == Taken(buckets, i, m, key)
    decreases i, m
  {
    if m > 0 {
      StageHolds(buckets, i, m - 1, key);
      StageGrows(buckets, i, m, key);
    } else if i > 0 {
      StageHolds(buckets, i - 1, |buckets|, key);
    }
  }

  lemma {:induction false} PrefixesHold(buckets: seq<seq<string>>, i: nat, m: nat, key: string)
    requires m <= |buckets|
    ensures Occurrences(Prefixes(buckets, i, m), key) == Taken(buckets, i, m, key)
    decreases i, m
  {
    if m > 0 {
      PrefixesHold(buckets, i, m - 1, key);
      PrefixOccurrencesGrow(buckets, i, m, key);
    } else if i > 0 {
      PrefixesHold(buckets, i - 1, |buckets|, key);
      PrefixesOfNewRound(buckets, i);
    } else {
      NoOccurrences(Prefixes(buckets, 0, 0), key);
    }
  }

  /** At every stage the order so far holds exactly a prefix of each bucket. */
  lemma StageContents(buckets: seq<seq<string>>, i: nat, m: nat, key: string)
    requires m <= |buckets|
    ensures multiset(Stage(buckets, i, m))[key] == Occurrences(Prefixes(buckets, i, m), key)
  {
    StageHolds(buckets, i, m, key);
    PrefixesHold(buckets, i, m, key);
  }

  lemma AllReached(buckets: seq<seq<string>>)
    ensures Prefixes(buckets, MaxLength(buckets), 0) == buckets
  {
    MaxLengthIs(buckets);
    forall b | 0 <= b < |buckets|
      ensures Prefixes(buckets, MaxLength(buckets), 0)[b] == buckets[b]
    {
      assert buckets[b][..|buckets[b]|] == buckets[b];
    }
  }

  lemma {:induction false} SameOccurrences(a: seq<seq<string>>, b: seq<seq<string>>, key: string)
    requires |a| == |b| && forall i :: 0 <= i < |a| ==> multiset(a[i]) == multiset(b[i])
    ensures Occurrences(a, key) == Occurrences(b, key)
  {
    if a != [] { SameOccurrences(a[..|a| - 1], b[..|b| - 1], key); }
  }

  function KeyLists(strata: seq<Stratum>): seq<seq<string>> {
    seq(|strata|, i requires 0 <= i < |strata| => strata[i].keys)
  }

  lemma KeyListsSnoc(strata: seq<Stratum>, x: Stratum, key: string)
    ensures Occurrences(KeyLists(strata + [x]), key) == Occurrences(KeyLists(strata), key) + multiset(x.keys)[key]
  {
    assert KeyLists(strata + [x]) == KeyLists(strata) + [x.keys];
    OccurrencesSnoc(KeyLists(strata), x.keys, key);
  }

  lemma {:induction false} InsertKeepsKeys(s: seq<Stratum>, x: Stratum, key: string)
    ensures Occurrences(KeyLists(Insert(s, x)), key) == Occurrences(KeyLists(s), key) + multiset(x.keys)[key]
  {
    if s == [] || Before(s[|s| - 1], x) {
      assert Insert(s, x) == s + [x];
      KeyListsSnoc(s, x, key);
    } else {
      var n := |s| - 1;
      assert Insert(s, x) == Insert(s[..n], x) + [s[n]];
      InsertKeepsKeys(s[..n], x, key);
      KeyListsSnoc(Insert(s[..n], x), s[n], key);
      KeyListsSnoc(s[..n], s[n], key);
      assert s[..n] + [s[n]] == s;
    }
  }

  lemma {:induction false} SortKeepsKeys(s: seq<Stratum>, key: string)
    ensures Occurrences(KeyLists(SortStrata(s)), key) == Occurrences(KeyLists(s), key)
  {
    if s != [] {
      var front, last := s[..|s| - 1], s[|s| - 1];
      assert s == front + [last];
      SortKeepsKeys(front, key);
      InsertKeepsKeys(SortStrata(front), last, key);
      KeyListsSnoc(front, last, key);
    }
  }

  function KeysOf(rows: seq<LabelRow>): seq<string> {
    seq(|rows|, i requires 0 <= i < |rows| => rows[i].key)
  }

  lemma BucketsHoldTheKeys(strata: seq<Stratum>, draw: (nat, nat) -> nat, key: string)
    ensures Occurrences(Buckets(strata, draw), key) == Occurrences(KeyLists(strata), key)
  {
    forall b | 0 <= b < |strata|
      ensures multiset(Buckets(strata, draw)[b]) == multiset(strata[b].keys)
    {
      ShufflePermutes(strata[b].keys, i => draw(b, i), 1);
    }
    SameOccurrences(Buckets(strata, draw), KeyLists(strata), key);
  }

  lemma StrataHoldTheKeys(rows: seq<LabelRow>, key: string)
    ensures Occurrences(KeyLists(Unsorted(rows)), key) == multiset(KeysOf(rows))[key]
  {
    assert KeyLists(Unsorted(rows)) == Groups(Tagged(rows), KeysInOrder(Tagged(rows)));
    GroupingConserves(Tagged(rows));
    FlattenOccurrences(KeyLists(Unsorted(rows)), key);
    assert Snds(Tagged(rows)) == KeysOf(rows);
  }

  lemma OccurrencesInOrder(rows: seq<LabelRow>, draw: (nat, nat) -> nat, key: string)
    ensures multiset(LabellingOrder(rows, draw))[key] == multiset(KeysOf(rows))[key]
  {
    var strata := SortStrata(Unsorted(rows));
    var buckets := Buckets(strata, draw);
    StageContents(buckets, MaxLength(buckets), 0, key);
    AllReached(buckets);
    BucketsHoldTheKeys(strata, draw, key);
    SortKeepsKeys(Unsorted(rows), key);
    StrataHoldTheKeys(rows, key);
  }

  lemma SameSize(a: seq<string>, b: seq<string>)
    requires multiset(a) == multiset(b)
    ensures |a| == |b|
  {
    assert |a| == |multiset(a)| && |b| == |multiset(b)|;
  }

  /** MAIN. Whatever is drawn, the order lists exactly the keys of the rows, each as often as it occurs. */
  lemma OrderIsAPermutation(rows: seq<LabelRow>, draw: (nat, nat) -> nat)
    ensures multiset(LabellingOrder(rows, draw)) == multiset(KeysOf(rows))
    ensures |LabellingOrder(rows, draw)| == |rows|
  {
    forall key
      ensures multiset(LabellingOrder(rows, draw))[key] == multiset(KeysOf(rows))[key]
    {
      OccurrencesInOrder(rows, draw, key);
    }
    SameSize(LabellingOrder(rows, draw), KeysOf(rows));
  }

  // ----- fairness -----

  /** The same stages, as the bucket and the place in it each key is taken from. */
  function Picks(buckets: seq<seq<string>>, i: nat, m: nat): seq<(nat, nat)>
    requires m <= |buckets|
    decreases i, m
  {
    if m == 0 then if i == 0 then [] else Picks(buckets, i - 1, |buckets|)
    else
      var before := Picks(buckets, i, m - 1);
      if i < |buckets[m - 1]| then before + [(m - 1, i)] else before
  }

  ghost predicate TakenFrom(buckets: seq<seq<string>>, pick: (nat, nat), key: string) {
    pick.0 < |buckets| && pick.1 < |buckets[pick.0]| && key == buckets[pick.0][pick.1]
  }

  lemma {:induction false} PicksAreTheStage(buckets: seq<seq<string>>, i: nat, m: nat)
    requires m <= |buckets|
    ensures |Picks(buckets, i, m)| == |Stage(buckets, i, m)|
    ensures forall k :: 0 <= k < |Picks(buckets, i, m)| ==>
              TakenFrom(buckets, Picks(buckets, i, m)[k], Stage(buckets, i, m)[k])
    decreases i, m
  {
    if m > 0 {
      PicksAreTheStage(buckets, i, m - 1);
    } else if i > 0 {
      PicksAreTheStage(buckets, i - 1, |buckets|);
    }
  }

  /** How many picks are of bucket `b`. */
  function Count(picks: seq<(nat, nat)>, b: nat): nat {
    if picks == [] then 0 else Count(picks[..|picks| - 1], b) + if picks[|picks| - 1].0 == b then 1 else 0
  }

  lemma CountSnoc(picks: seq<(nat, nat)>, pick: (nat, nat), b: nat)
    ensures Count(picks + [pick], b) == Count(picks, b) + if pick.0 == b then 1 else 0
  {
    assert (picks + [pick])[..|picks|] == picks;
  }

  lemma {:induction false} CountAtStage(buckets: seq<seq<string>>, i: nat, m: nat, b: nat)
    requires m <= |buckets| && b < |buckets|
    ensures Count(Picks(buckets, i, m), b) == Reached(|buckets[b]|, b, i, m)
    decreases i, m
  {
    if m > 0 {
      CountAtStage(buckets, i, m - 1, b);
      CountSnoc(Picks(buckets, i, m - 1), (m - 1, i), b);
      ReachedStep(|buckets[b]|, b, i, m);
    } else if i > 0 {
      CountAtStage(buckets, i - 1, |buckets|, b);
    }
  }

  lemma ReachedStep(len: nat, b: nat, i: nat, m: nat)
    requires m > 0
    ensures Reached(len, b, i, m) == Reached(len, b, i, m - 1) + if b == m - 1 && i < len then 1 else 0
  {}

  /** Every prefix of the picks is itself a stage. */
  lemma {:induction false} PrefixIsAStage(buckets: seq<seq<string>>, i: nat, m: nat, n: nat) returns (i': nat, m': nat)
    requires m <= |buckets| && n <= |Picks(buckets, i, m)|
    ensures m' <= |buckets| && Picks(buckets, i', m') == Picks(buckets, i, m)[..n]
    decreases i, m
  {
    var picks := Picks(buckets, i, m);
    if n == |picks| {
      i', m' := i, m;
      assert picks[..n] == picks;
    } else if m > 0 {
      i', m' := PrefixIsAStage(buckets, i, m - 1, n);
      assert Picks(buckets, i, m - 1)[..n] == picks[..n];
    } else {
      i', m' := PrefixIsAStage(buckets, i - 1, |buckets|, n);
    }
  }

  function Schedule(buckets: seq<seq<string>>): seq<(nat, nat)> { Picks(buckets, MaxLength(buckets), 0) }

  /** The schedule is where the order's keys come from. */
  lemma ScheduleOfOrder(buckets: seq<seq<string>>, k: nat)
    requires k < |RoundRobin(buckets)|
    ensures |Schedule(buckets)| == |RoundRobin(buckets)|
    ensures TakenFrom(buckets, Schedule(buckets)[k], RoundRobin(buckets)[k])
  {
    PicksAreTheStage(buckets, MaxLength(buckets), 0);
  }

  /** MAIN. In every prefix, the numbers taken from two strata not yet exhausted differ by at most one,
      and the earlier, smaller, stratum is never behind. */
  lemma EveryPrefixIsFair(buckets: seq<seq<string>>, n: nat, a: nat, b: nat)
    requires n <= |Schedule(buckets)| && a < b < |buckets|
    ensures var taken := (x: nat) => Count(Schedule(buckets)[..n], x);
            && taken(a) <= |buckets[a]| && taken(b) <= |buckets[b]|
            && (taken(a) < |buckets[a]| ==> taken(b) <= taken(a))
            && (taken(b) < |buckets[b]| ==> taken(a) <= taken(b) + 1)
  {
    var i, m := PrefixIsAStage(buckets, MaxLength(buckets), 0, n);
    CountAtStage(buckets, i, m, a);
    CountAtStage(buckets, i, m, b);
  }

  /** MAIN. Each stratum's keys are taken in the stratum's own order, none skipped. */
  lemma StrataKeepTheirOrder(buckets: seq<seq<string>>, k: nat)
    requires k < |Schedule(buckets)|
    ensures var (b, j) := Schedule(buckets)[k];
            b < |buckets| && j == Count(Schedule(buckets)[..k], b)
  {
    PickInOrder(buckets, MaxLength(buckets), 0, k);
  }

  lemma PrefixTaken<T>(before: seq<T>, after: seq<T>, k: nat)
    requires before <= after && |after| <= |before| + 1 && k < |after|
    ensures after[..k] == if k < |before| then before[..k] else before
  {}

  lemma {:induction false} PickInOrder(buckets: seq<seq<string>>, i: nat, m: nat, k: nat)
    requires m <= |buckets| && k < |Picks(buckets, i, m)|
    ensures var picks := Picks(buckets, i, m);
            picks[k].0 < |buckets| && picks[k].1 == Count(picks[..k], picks[k].0)
    decreases i, m
  {
    var picks := Picks(buckets, i, m);
    if m > 0 {
      var before := Picks(buckets, i, m - 1);
      PrefixTaken(before, picks, k);
      if k < |before| {
        PickInOrder(buckets, i, m - 1, k);
      } else {
        CountAtStage(buckets, i, m - 1, m - 1);
      }
    } else {
      PickInOrder(buckets, i - 1, |buckets|, k);
    }
  }

  lemma {:induction false} FirstRound(buckets: seq<seq<string>>, m: nat)
    requires m <= |buckets| && forall b :: 0 <= b < |buckets| ==> buckets[b] != []
    ensures |Picks(buckets, 0, m)| == m && forall b :: 0 <= b < m ==> Picks(buckets, 0, m)[b] == (b, 0)
  {
    if m > 0 { FirstRound(buckets, m - 1); }
  }

  lemma {:induction false} PicksExtend(buckets: seq<seq<string>>, i: nat)
    requires i >= 1
    ensures Picks(buckets, 0, |buckets|) <= Picks(buckets, i, 0)
    decreases i
  {
    if i > 1 {
      PicksExtend(buckets, i - 1);
      RoundExtends(buckets, i - 1, |buckets|);
    }
  }

  lemma {:induction false} RoundExtends(buckets: seq<seq<string>>, i: nat, m: nat)
    requires m <= |buckets|
    ensures Picks(buckets, i, 0) <= Picks(buckets, i, m)
  {
    if m > 0 { RoundExtends(buckets, i, m - 1); }
  }

  lemma {:induction false} SortKeepsMembers(s: seq<Stratum>)
    ensures |SortStrata(s)| == |s| && forall x :: x in SortStrata(s) <==> x in s
  {
    if s != [] {
      var n := |s| - 1;
      SortKeepsMembers(s[..n]);
      InsertContents(SortStrata(s[..n]), s[n]);
      assert s == s[..n] + [s[n]];
      var sorted := SortStrata(s);
      assert |sorted| == |multiset(sorted)| == |multiset(SortStrata(s[..n])) + multiset{s[n]}|;
    }
  }

  /** MAIN. The strata are the distinct (scorer, verdict) pairs, strictly from the smallest up, ties by
      scorer and verdict. */
  lemma StrataSmallestFirst(rows: seq<LabelRow>)
    ensures var strata := SortStrata(Unsorted(rows));
            && Ordered(strata) && |strata| == |Unsorted(rows)|
            && (forall s :: s in strata <==> s.keys != [] && s == StratumOf(rows, (s.scorer, s.verdict)))
  {
    UnsortedAreDistinct(rows);
    SortOrders(Unsorted(rows));
    SortKeepsMembers(Unsorted(rows));
  }

  // ----- the strata, told from the rows -----

  /** The first difference decides, and a proper prefix comes first. */
  ghost predicate Alphabetical(a: string, b: string) {
    exists n: nat :: DiffersAt(a, b, n)
  }

  /** Equal up to n, where b goes on and a ends or has the lesser character. */
  ghost predicate DiffersAt(a: string, b: string, n: nat) {
    n <= |a| && n < |b| && a[..n] == b[..n] && (n == |a| || a[n] < b[n])
  }

  lemma {:induction false} DifferenceDecides(a: string, b: string, n: nat)
    requires DiffersAt(a, b, n)
    ensures StringBefore(a, b)
  {
    if n > 0 {
      assert a[..n][0] == b[..n][0];
      assert a[1..][..n - 1] == a[..n][1..] && b[1..][..n - 1] == b[..n][1..];
      DifferenceDecides(a[1..], b[1..], n - 1);
    }
  }

  lemma {:induction false} FirstDifference(a: string, b: string) returns (n: nat)
    requires StringBefore(a, b)
    ensures DiffersAt(a, b, n)
  {
    n := 0;
    if a != [] && a[0] == b[0] {
      var m := FirstDifference(a[1..], b[1..]);
      n := m + 1;
      assert a[..n] == [a[0]] + a[1..][..m] && b[..n] == [b[0]] + b[1..][..m];
    }
  }

  lemma StringBeforeIs(a: string, b: string)
    ensures StringBefore(a, b) <==> Alphabetical(a, b)
  {
    if StringBefore(a, b) {
      var n := FirstDifference(a, b);
    }
    if n: nat :| DiffersAt(a, b, n) {
      DifferenceDecides(a, b, n);
    }
  }

  /** Fewer keys first, then the scorer in alphabetical order, then the rows judged false. */
  ghost predicate Precedes(a: Stratum, b: Stratum) {
    || |a.keys| < |b.keys|
    || (|a.keys| == |b.keys|
        && (Alphabetical(a.scorer, b.scorer) || (a.scorer == b.scorer && a.verdict == false && b.verdict == true)))
  }

  ghost predicate OfKind(row: LabelRow, scorer: string, verdict: bool) {
    row.scorer == scorer && row.verdict == verdict
  }

  /** The keys are those of the rows with the scorer and the verdict, in order, and there are some. */
  ghost predicate Collects(s: Stratum, rows: seq<LabelRow>) {
    s.keys != [] && Lists(s.keys, rows, (row: LabelRow) => OfKind(row, s.scorer, s.verdict))
  }

  /** The keys of the rows with a property, in order. */
  ghost predicate Lists(keys: seq<string>, rows: seq<LabelRow>, p: LabelRow -> bool) {
    exists part :: Selects(rows, p, part) && keys == KeysOf(part)
  }

  lemma KeysOfSnoc(part: seq<LabelRow>, row: LabelRow)
    ensures KeysOf(part + [row]) == KeysOf(part) + [row.key]
  {}

  lemma ListsSnoc(keys: seq<string>, front: seq<LabelRow>, last: LabelRow, p: LabelRow -> bool)
    requires Lists(keys, front, p)
    ensures Lists(if p(last) then keys + [last.key] else keys, front + [last], p)
  {
    var part :| Selects(front, p, part) && keys == KeysOf(part);
    SelectsSnoc(front, last, p, part);
    KeysOfSnoc(part, last);
    assert Selects(front + [last], p, if p(last) then part + [last] else part);
  }

  lemma {:induction false} ValuesListed(rows: seq<LabelRow>, scorer: string, verdict: bool)
    ensures Lists(ValuesOf(Tagged(rows), (scorer, verdict)), rows, (row: LabelRow) => OfKind(row, scorer, verdict))
  {
    var p := (row: LabelRow) => OfKind(row, scorer, verdict);
    if rows == [] {
      SelectsNone(p);
      assert KeysOf([]) == [];
    } else {
      var front, last := rows[..|rows| - 1], rows[|rows| - 1];
      assert rows == front + [last];
      ValuesListed(front, scorer, verdict);
      ListsSnoc(ValuesOf(Tagged(front), (scorer, verdict)), front, last, p);
      TaggedSnoc(front, last, scorer, verdict);
    }
  }

  lemma TaggedSnoc(front: seq<LabelRow>, last: LabelRow, scorer: string, verdict: bool)
    ensures ValuesOf(Tagged(front + [last]), (scorer, verdict))
         == var keys := ValuesOf(Tagged(front), (scorer, verdict));
            if OfKind(last, scorer, verdict) then keys + [last.key] else keys
  {
    assert Tagged(front + [last]) == Tagged(front) + [((last.scorer, last.verdict), last.key)];
    Snoc(Tagged(front), (last.scorer, last.verdict), last.key);
  }

  lemma KindHasStratum(rows: seq<LabelRow>, row: LabelRow)
    requires row in rows
    ensures exists s :: s in SortStrata(Unsorted(rows)) && OfKind(row, s.scorer, s.verdict)
  {
    var kind := (row.scorer, row.verdict);
    var i :| 0 <= i < |rows| && rows[i] == row;
    assert Tagged(rows)[i].0 == kind;
    KeysOccur(Tagged(rows), kind);
    KeysAreTheKeys(Tagged(rows));
    StrataSmallestFirst(rows);
    var s := StratumOf(rows, kind);
    assert s in SortStrata(Unsorted(rows));
  }

  /** MAIN. There is a stratum for each scorer and verdict that occur together, with the keys of its rows in
      order, and the strata stand in the order of their sizes, ties by scorer and verdict. */
  lemma StrataAre(rows: seq<LabelRow>)
    ensures var strata := SortStrata(Unsorted(rows));
            && (forall s :: s in strata ==> Collects(s, rows))
            && (forall row :: row in rows ==> exists s :: s in strata && OfKind(row, s.scorer, s.verdict))
            && forall i, j :: 0 <= i < j < |strata| ==> Precedes(strata[i], strata[j])
  {
    var strata := SortStrata(Unsorted(rows));
    StrataSmallestFirst(rows);
    forall s | s in strata
      ensures Collects(s, rows)
    {
      ValuesListed(rows, s.scorer, s.verdict);
    }
    forall row | row in rows
      ensures exists s :: s in strata && OfKind(row, s.scorer, s.verdict)
    {
      KindHasStratum(rows, row);
    }
    forall i, j | 0 <= i < j < |strata|
      ensures Precedes(strata[i], strata[j])
    {
      StringBeforeIs(strata[i].scorer, strata[j].scorer);
    }
  }

  lemma BucketsAreFilled(strata: seq<Stratum>, draw: (nat, nat) -> nat, b: nat)
    requires b < |strata|
    ensures |Buckets(strata, draw)[b]| == |strata[b].keys|
    ensures forall key :: key in Buckets(strata, draw)[b] ==> key in strata[b].keys
  {
    ShufflePermutes(strata[b].keys, i => draw(b, i), 1);
    var bucket := Buckets(strata, draw)[b];
    forall key | key in bucket ensures key in strata[b].keys {
      assert key in multiset(bucket);
    }
  }

  lemma FirstPicks(buckets: seq<seq<string>>, b: nat)
    requires b < |buckets| && forall c :: 0 <= c < |buckets| ==> buckets[c] != []
    ensures |buckets| <= |RoundRobin(buckets)| && RoundRobin(buckets)[b] == buckets[b][0]
  {
    FirstRound(buckets, |buckets|);
    MaxLengthIs(buckets);
    PicksAreTheStage(buckets, MaxLength(buckets), 0);
    assert |buckets[0]| <= MaxLength(buckets);
    PicksExtend(buckets, MaxLength(buckets));
    assert Picks(buckets, MaxLength(buckets), 0)[b] == (b, 0);
  }

  /** MAIN. The first keys ordered are one of each stratum, smallest stratum first. */
  lemma EveryStratumTouchedFirst(rows: seq<LabelRow>, draw: (nat, nat) -> nat, b: nat)
    requires b < |SortStrata(Unsorted(rows))|
    ensures var strata := SortStrata(Unsorted(rows));
            |strata| <= |LabellingOrder(rows, draw)| && LabellingOrder(rows, draw)[b] in strata[b].keys
  {
    var strata := SortStrata(Unsorted(rows));
    var buckets := Buckets(strata, draw);
    StrataSmallestFirst(rows);
    forall c | 0 <= c < |strata|
      ensures buckets[c] != []
    {
      assert strata[c] in strata;
      BucketsAreFilled(strata, draw, c);
    }
    BucketsAreFilled(strata, draw, b);
    FirstPicks(buckets, b);
    assert buckets[b][0] in buckets[b];
  }

  // ----- the order of the input does not matter -----

  type Rank = (nat, string, bool)

  function RankOf(s: Stratum): Rank { (|s.keys|, s.scorer, s.verdict) }

  function Ranks(s: seq<Stratum>): seq<Rank> {
    seq(|s|, i requires 0 <= i < |s| => RankOf(s[i]))
  }

  predicate RankBefore(a: Rank, b: Rank) {
    a.0 < b.0 || (a.0 == b.0 && (StringBefore(a.1, b.1) || (a.1 == b.1 && !a.2 && b.2)))
  }

  ghost predicate Ascending(s: seq<Rank>, lt: (Rank, Rank) -> bool) {
    forall i, j :: 0 <= i < j < |s| ==> lt(s[i], s[j])
  }

  lemma {:induction false} AscendingUnique(s: seq<Rank>, t: seq<Rank>, lt: (Rank, Rank) -> bool)
    requires forall a, b :: !(lt(a, b) && lt(b, a))
    requires Ascending(s, lt) && Ascending(t, lt) && forall r :: r in s <==> r in t
    ensures s == t
    decreases |s|
  {
    assert s != [] ==> s[0] in t;
    assert t != [] ==> t[0] in s;
    if s != [] {
      var n, m := |s| - 1, |t| - 1;
      SameLast(s, t, lt);
      forall r
        ensures r in s[..n] <==> r in t[..m]
      {
        FrontsAgree(s, t, lt, r);
      }
      AscendingUnique(s[..n], t[..m], lt);
      assert s == s[..n] + [s[n]] && t == t[..m] + [t[m]];
    }
  }

  lemma SameLast(s: seq<Rank>, t: seq<Rank>, lt: (Rank, Rank) -> bool)
    requires forall a, b :: !(lt(a, b) && lt(b, a))
    requires s != [] && t != [] && Ascending(s, lt) && Ascending(t, lt)
    requires s[|s| - 1] in t && t[|t| - 1] in s
    ensures s[|s| - 1] == t[|t| - 1]
  {
    var j :| 0 <= j < |t| && t[j] == s[|s| - 1];
    var i :| 0 <= i < |s| && s[i] == t[|t| - 1];
  }

  lemma LastApart(s: seq<Rank>, lt: (Rank, Rank) -> bool, r: Rank)
    requires forall a, b :: !(lt(a, b) && lt(b, a))
    requires s != [] && Ascending(s, lt)
    ensures r in s[..|s| - 1] <==> r in s && r != s[|s| - 1]
  {
    assert s == s[..|s| - 1] + [s[|s| - 1]];
  }

  lemma FrontsAgree(s: seq<Rank>, t: seq<Rank>, lt: (Rank, Rank) -> bool, r: Rank)
    requires forall a, b :: !(lt(a, b) && lt(b, a))
    requires s != [] && t != [] && Ascending(s, lt) && Ascending(t, lt) && s[|s| - 1] == t[|t| - 1]
    requires r in s <==> r in t
    ensures r in s[..|s| - 1] <==> r in t[..|t| - 1]
  {
    LastApart(s, lt, r);
    LastApart(t, lt, r);
  }

  lemma StrictRanks(a: Rank, b: Rank)
    ensures !(RankBefore(a, b) && RankBefore(b, a))
  {
    StringOrder(a.1, b.1);
  }

  lemma {:induction false} ValuesAreCounted(items: seq<((string, bool), string)>, kind: (string, bool), key: string)
    ensures multiset(ValuesOf(items, kind))[key] == multiset(items)[(kind, key)]
  {
    if items != [] {
      var front, last := items[..|items| - 1], items[|items| - 1];
      assert items == front + [last];
      ValuesAreCounted(front, kind, key);
      Snoc(front, last.0, last.1);
      OneMoreOf(front, last, (kind, key));
      OneMoreOf(ValuesOf(front, kind), last.1, key);
    }
  }

  lemma OneMoreOf<T>(s: seq<T>, x: T, y: T)
    ensures multiset(s + [x])[y] == multiset(s)[y] + if x == y then 1 else 0
  {}

  lemma {:induction false} TaggedIsCounted(rows: seq<LabelRow>, kind: (string, bool), key: string)
    ensures multiset(Tagged(rows))[(kind, key)] == multiset(rows)[LabelRow(key, kind.0, kind.1)]
  {
    if rows != [] {
      var n := |rows| - 1;
      TaggedIsCounted(rows[..n], kind, key);
      assert rows == rows[..n] + [rows[n]];
      assert Tagged(rows) == Tagged(rows[..n]) + [((rows[n].scorer, rows[n].verdict), rows[n].key)];
    }
  }

  lemma StrataOfPermuted(rows: seq<LabelRow>, rows': seq<LabelRow>, kind: (string, bool))
    requires multiset(rows) == multiset(rows')
    ensures multiset(StratumOf(rows, kind).keys) == multiset(StratumOf(rows', kind).keys)
    ensures |StratumOf(rows, kind).keys| == |StratumOf(rows', kind).keys|
  {
    forall key
      ensures multiset(StratumOf(rows, kind).keys)[key] == multiset(StratumOf(rows', kind).keys)[key]
    {
      ValuesAreCounted(Tagged(rows), kind, key);
      ValuesAreCounted(Tagged(rows'), kind, key);
      TaggedIsCounted(rows, kind, key);
      TaggedIsCounted(rows', kind, key);
    }
    SameSize(StratumOf(rows, kind).keys, StratumOf(rows', kind).keys);
  }

  lemma RanksAscend(rows: seq<LabelRow>)
    ensures Ascending(Ranks(SortStrata(Unsorted(rows))), RankBefore)
  {
    var s := SortStrata(Unsorted(rows));
    StrataSmallestFirst(rows);
    forall i, j | 0 <= i < j < |s|
      ensures RankBefore(Ranks(s)[i], Ranks(s)[j])
    {
      assert Before(s[i], s[j]);
    }
  }

  lemma RanksAre(rows: seq<LabelRow>, r: Rank)
    ensures r in Ranks(SortStrata(Unsorted(rows))) <==>
            r.0 > 0 && |StratumOf(rows, (r.1, r.2)).keys| == r.0
  {
    var s := SortStrata(Unsorted(rows));
    var stratum := StratumOf(rows, (r.1, r.2));
    StrataSmallestFirst(rows);
    if r in Ranks(s) {
      var i :| 0 <= i < |s| && Ranks(s)[i] == r;
      assert s[i] in s;
    }
    if r.0 > 0 && |stratum.keys| == r.0 {
      assert stratum in s;
      var i :| 0 <= i < |s| && s[i] == stratum;
      assert Ranks(s)[i] == r;
    }
  }

  lemma SameRanks(rows: seq<LabelRow>, rows': seq<LabelRow>)
    requires multiset(rows) == multiset(rows')
    ensures Ranks(SortStrata(Unsorted(rows))) == Ranks(SortStrata(Unsorted(rows')))
  {
    var s, t := Ranks(SortStrata(Unsorted(rows))), Ranks(SortStrata(Unsorted(rows')));
    forall r
      ensures r in s <==> r in t
    {
      RanksAre(rows, r);
      RanksAre(rows', r);
      StrataOfPermuted(rows, rows', (r.1, r.2));
    }
    forall a, b
      ensures !(RankBefore(a, b) && RankBefore(b, a))
    {
      StrictRanks(a, b);
    }
    RanksAscend(rows);
    RanksAscend(rows');
    AscendingUnique(s, t, RankBefore);
  }

  /** MAIN. The strata, their order and their contents do not depend on the order of the input. */
  lemma InputOrderIrrelevant(rows: seq<LabelRow>, rows': seq<LabelRow>, i: nat)
    requires multiset(rows) == multiset(rows')
    ensures var s, t := SortStrata(Unsorted(rows)), SortStrata(Unsorted(rows'));
            |s| == |t| && (i < |s| ==> SameLabel(s[i], t[i]) && multiset(s[i].keys) == multiset(t[i].keys))
  {
    var s, t := SortStrata(Unsorted(rows)), SortStrata(Unsorted(rows'));
    SameRanks(rows, rows');
    assert |s| == |Ranks(s)| == |Ranks(t)| == |t|;
    if i < |s| {
      StrataSmallestFirst(rows);
      StrataSmallestFirst(rows');
      assert Ranks(s)[i] == Ranks(t)[i];
      assert s[i] in s && t[i] in t;
      StrataOfPermuted(rows, rows', (s[i].scorer, s[i].verdict));
    }
  }
}
