/** Counting the true votes of a list, and the places of a list where something holds. */
module Counting {

  /** `sum(1 for v in votes if v)`. */
  function CountTrue(v: seq<bool>): nat {
    if v == [] then 0 else CountTrue(v[..|v| - 1]) + if v[|v| - 1] then 1 else 0
  }

  /** The places whose element has a property. */
  ghost function Places<T>(s: seq<T>, p: T -> bool): set<nat> { set i: nat | i < |s| && p(s[i]) }

  lemma PlacesSnoc<T>(s: seq<T>, last: T, p: T -> bool)
    ensures |Places(s + [last], p)| == |Places(s, p)| + if p(last) then 1 else 0
  {
    assert (s + [last])[|s|] == last;
    assert Places(s + [last], p) == Places(s, p) + if p(last) then {|s|} else {};
  }

  /** The pairs of places, the earlier first, whose elements are related. */
  ghost function PairsWith<T>(s: seq<T>, r: (T, T) -> bool): set<(nat, nat)> {
    set i: nat, j: nat | i < j < |s| && r(s[i], s[j]) :: (i, j)
  }

  ghost function PairedWith(places: set<nat>, n: nat): set<(nat, nat)> { set i | i in places :: (i, n) }

  lemma {:induction false} AsManyPairs(places: set<nat>, n: nat)
    ensures |PairedWith(places, n)| == |places|
    decreases |places|
  {
    if i :| i in places {
      AsManyPairs(places - {i}, n);
      assert PairedWith(places, n) == PairedWith(places - {i}, n) + {(i, n)};
    }
  }

  /** One more element makes a pair with each earlier one it is related to. */
  lemma PairsSnoc<T>(s: seq<T>, last: T, r: (T, T) -> bool, p: T -> bool)
    requires forall i :: 0 <= i < |s| ==> p(s[i]) == r(s[i], last)
    ensures |PairsWith(s + [last], r)| == |PairsWith(s, r)| + |Places(s, p)|
  {
    AsManyPairs(Places(s, p), |s|);
    SplitPairs(s, last, r, p);
  }

  lemma SplitPairs<T>(s: seq<T>, last: T, r: (T, T) -> bool, p: T -> bool)
    requires forall i :: 0 <= i < |s| ==> p(s[i]) == r(s[i], last)
    ensures PairsWith(s + [last], r) == PairsWith(s, r) + PairedWith(Places(s, p), |s|)
    ensures PairsWith(s, r) !! PairedWith(Places(s, p), |s|)
  {
    var t := s + [last];
    assert t[|s|] == last && forall i :: 0 <= i < |s| ==> t[i] == s[i];
  }

  function Inverted(v: seq<bool>): seq<bool> {
    seq(|v|, i requires 0 <= i < |v| => !v[i])
  }

  lemma {:induction false} CountTrueBound(v: seq<bool>)
    ensures CountTrue(v) <= |v|
    ensures CountTrue(v) == 0 <==> forall i :: 0 <= i < |v| ==> !v[i]
    ensures CountTrue(v) == |v| <==> forall i :: 0 <= i < |v| ==> v[i]
  {
    if v != [] {
      var n := |v| - 1;
      CountTrueBound(v[..n]);
      assert forall i :: 0 <= i < |v| ==> v[i] == if i == n then v[n] else v[..n][i];
    }
  }

  lemma {:induction false} CountTrueConcat(a: seq<bool>, b: seq<bool>)
    ensures CountTrue(a + b) == CountTrue(a) + CountTrue(b)
  {
    if b == [] {
      assert a + b == a;
    } else {
      assert (a + b)[..|a + b| - 1] == a + b[..|b| - 1];
      CountTrueConcat(a, b[..|b| - 1]);
    }
  }

  lemma {:induction false} CountTrueIsMultiplicity(v: seq<bool>)
    ensures CountTrue(v) == multiset(v)[true]
  {
    if v != [] {
      CountTrueIsMultiplicity(v[..|v| - 1]);
      assert v == v[..|v| - 1] + [v[|v| - 1]];
    }
  }

  lemma {:induction false} CountInverted(v: seq<bool>)
    ensures CountTrue(Inverted(v)) == |v| - CountTrue(v)
  {
    if v != [] {
      assert Inverted(v)[..|v| - 1] == Inverted(v[..|v| - 1]);
      CountInverted(v[..|v| - 1]);
    }
  }
}
