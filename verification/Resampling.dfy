/** The values of a bootstrap: one for each sample that has one, and what order they stand in once sorted. */
module Resampling {
  import opened Counting
  import opened Options
  import opened Sorting

  /** The samples with the given value. */
  ghost function With(ks: seq<Option<real>>, v: real): set<nat> { Places(ks, (k: Option<real>) => k == Some(v)) }

  ghost function DefinedIn(ks: seq<Option<real>>): set<nat> { Places(ks, (k: Option<real>) => k.Some?) }

  ghost function Values(ks: seq<Option<real>>): seq<real> {
    if ks == [] then []
    else
      var last := ks[|ks| - 1];
      Values(ks[..|ks| - 1]) + if last.Some? then [last.value] else []
  }

  lemma {:induction false} ValuesAreCounted(ks: seq<Option<real>>, v: real)
    ensures multiset(Values(ks))[v] == |With(ks, v)|
    ensures |Values(ks)| == |DefinedIn(ks)|
  {
    if ks == [] {
      assert With(ks, v) == DefinedIn(ks) == {};
    } else {
      var front, last := ks[..|ks| - 1], ks[|ks| - 1];
      assert ks == front + [last];
      ValuesAreCounted(front, v);
      PlacesSnoc(front, last, (k: Option<real>) => k == Some(v));
      PlacesSnoc(front, last, (k: Option<real>) => k.Some?);
    }
  }

  /** The values of `ks`, each as often as it occurs there, in ascending order. */
  ghost predicate Distribution(s: seq<real>, ks: seq<Option<real>>) {
    Ascending(s) && forall v: real :: multiset(s)[v] == |With(ks, v)|
  }

  lemma SameDistribution(s: seq<real>, ks: seq<Option<real>>)
    requires Distribution(s, ks)
    ensures multiset(s) == multiset(Values(ks)) && s == Sorted(Values(ks))
  {
    forall v: real
      ensures multiset(s)[v] == multiset(Values(ks))[v]
    {
      ValuesAreCounted(ks, v);
    }
    SortedSorts(Values(ks));
    AscendingUnique(s, Sorted(Values(ks)));
  }
}
