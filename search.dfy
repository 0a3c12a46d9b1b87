/** Searching a sequence, front to back, for the first element with a property. */
module Search {
  import opened Wrappers

  /** The first element `keep` accepts; every element before it is rejected. */
  function FirstWhere<T(==)>(xs: seq<T>, keep: T -> bool): (r: Option<T>)
    ensures r.Some? ==> exists i :: 0 <= i < |xs| && xs[i] == r.value && keep(xs[i])
                                   && forall j :: 0 <= j < i ==> !keep(xs[j])
    ensures r.None? ==> forall j :: 0 <= j < |xs| ==> !keep(xs[j])
  {
    if |xs| == 0 then None
    else if keep(xs[0]) then Some(xs[0])
    else FirstWhere(xs[1..], keep)
  }

  /** Searching two sequences in a row: the first one's answer, or else the second one's. */
  lemma {:induction false} FirstWhereAppend<T>(a: seq<T>, b: seq<T>, keep: T -> bool)
    ensures FirstWhere(a + b, keep) == if FirstWhere(a, keep).Some? then FirstWhere(a, keep) else FirstWhere(b, keep)
  {
    if |a| > 0 {
      assert (a + b)[1..] == a[1..] + b;
      FirstWhereAppend(a[1..], b, keep);
    } else {
      assert a + b == b;
    }
  }
}
