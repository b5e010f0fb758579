/** Filtering a list: the elements with a property, in the order they stand in. */
module Selection {

  ghost predicate Climbs(at: seq<nat>) { forall i, j :: 0 <= i < j < |at| ==> at[i] < at[j] }

  /** `part` is what `s` holds at the places `at`, which are the places of the elements with the property. */
  ghost predicate TakenAt<T>(s: seq<T>, p: T -> bool, part: seq<T>, at: seq<nat>) {
    && Climbs(at) && |at| == |part|
    && (forall i :: 0 <= i < |at| ==> at[i] < |s| && part[i] == s[at[i]])
    && forall q: nat :: q < |s| ==> (q in at <==> p(s[q]))
  }

  /** `part` is the elements of `s` with the property, in order. */
  ghost predicate Selects<T>(s: seq<T>, p: T -> bool, part: seq<T>) { exists at :: TakenAt(s, p, part, at) }

  lemma SelectsNone<T>(p: T -> bool)
    ensures Selects([], p, [])
  {
    var s: seq<T> := [];
    assert TakenAt(s, p, s, []);
  }

  lemma SelectsAlike<T>(s: seq<T>, p: T -> bool, p': T -> bool, part: seq<T>)
    requires Selects(s, p, part) && forall q :: 0 <= q < |s| ==> p(s[q]) == p'(s[q])
    ensures Selects(s, p', part)
  {
    var at :| TakenAt(s, p, part, at);
    assert TakenAt(s, p', part, at);
  }

  lemma SelectsSnoc<T>(s: seq<T>, last: T, p: T -> bool, part: seq<T>)
    requires Selects(s, p, part)
    ensures Selects(s + [last], p, if p(last) then part + [last] else part)
  {
    var at :| TakenAt(s, p, part, at);
    if p(last) {
      TakenOneMore(s, last, p, part, at);
    } else {
      assert TakenAt(s + [last], p, part, at);
    }
  }

  lemma TakenOneMore<T>(s: seq<T>, last: T, p: T -> bool, part: seq<T>, at: seq<nat>)
    requires TakenAt(s, p, part, at) && p(last)
    ensures TakenAt(s + [last], p, part + [last], at + [|s|])
  {
    forall q: nat | q < |s| + 1
      ensures q in at + [|s|] <==> p((s + [last])[q])
    {
      assert q in at + [|s|] <==> q in at || q == |s|;
    }
  }
}
