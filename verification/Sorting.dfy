/** Sorting reals: what `sorted` and `list.sort` give. */
module Sorting {

  ghost predicate Ascending(s: seq<real>) {
    forall i, j :: 0 <= i < j < |s| ==> s[i] <= s[j]
  }

  function Insert(s: seq<real>, x: real): seq<real> {
    if s == [] then [x]
    else if s[|s| - 1] <= x then s + [x]
    else Insert(s[..|s| - 1], x) + [s[|s| - 1]]
  }

  function Sorted(xs: seq<real>): seq<real> {
    if xs == [] then [] else Insert(Sorted(xs[..|xs| - 1]), xs[|xs| - 1])
  }

  lemma {:induction false} InsertContents(s: seq<real>, x: real)
    ensures multiset(Insert(s, x)) == multiset(s) + multiset{x}
    ensures forall y :: y in Insert(s, x) <==> y in s || y == x
  {
    if s != [] && s[|s| - 1] > x {
      InsertContents(s[..|s| - 1], x);
    }
    assert s != [] ==> s == s[..|s| - 1] + [s[|s| - 1]];
  }

  lemma {:induction false} InsertSorts(s: seq<real>, x: real)
    requires Ascending(s)
    ensures Ascending(Insert(s, x))
  {
    if s != [] && s[|s| - 1] > x {
      var n := |s| - 1;
      InsertSorts(s[..n], x);
      InsertContents(s[..n], x);
      AscendingSnoc(Insert(s[..n], x), s[n]);
    }
  }

  lemma AscendingSnoc(s: seq<real>, top: real)
    requires Ascending(s) && forall y :: y in s ==> y <= top
    ensures Ascending(s + [top])
  {
    assert forall i :: 0 <= i < |s| ==> s[i] in s;
  }

  /** `Sorted` rearranges its input in ascending order. */
  lemma {:induction false} SortedSorts(xs: seq<real>)
    ensures Ascending(Sorted(xs)) && multiset(Sorted(xs)) == multiset(xs) && |Sorted(xs)| == |xs|
  {
    if xs != [] {
      var n := |xs| - 1;
      SortedSorts(xs[..n]);
      InsertSorts(Sorted(xs[..n]), xs[n]);
      InsertContents(Sorted(xs[..n]), xs[n]);
      assert xs == xs[..n] + [xs[n]];
      assert |Sorted(xs)| == |multiset(Sorted(xs))| == |multiset(xs)| == |xs|;
    }
  }

  lemma LastIsTop(s: seq<real>, t: seq<real>)
    requires Ascending(s) && Ascending(t) && multiset(s) == multiset(t) && s != []
    ensures |s| == |t| && s[|s| - 1] == t[|t| - 1]
  {
    assert |s| == |multiset(s)| == |multiset(t)| == |t|;
    var n := |s| - 1;
    assert s[n] in multiset(t) && t[n] in multiset(s);
    var i :| 0 <= i < |t| && t[i] == s[n];
    var j :| 0 <= j < |s| && s[j] == t[n];
  }

  lemma WithoutLast(s: seq<real>)
    requires Ascending(s) && s != []
    ensures Ascending(s[..|s| - 1]) && multiset(s[..|s| - 1]) == multiset(s) - multiset{s[|s| - 1]}
    ensures s == s[..|s| - 1] + [s[|s| - 1]]
  {
    assert s == s[..|s| - 1] + [s[|s| - 1]];
  }

  /** Only one ascending sequence has given contents. */
  lemma {:induction false} AscendingUnique(s: seq<real>, t: seq<real>)
    requires Ascending(s) && Ascending(t) && multiset(s) == multiset(t)
    ensures s == t
    decreases |s|
  {
    assert |s| == |multiset(s)| && |t| == |multiset(t)|;
    if s != [] {
      LastIsTop(s, t);
      WithoutLast(s);
      WithoutLast(t);
      AscendingUnique(s[..|s| - 1], t[..|t| - 1]);
    }
  }
}
