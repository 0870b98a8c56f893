/** Java references that may be null, and the search loop the valve uses twice. */
module Nullable {

  /** A Java reference: `None` stands for `null`. */
  datatype Option<+T> = None | Some(value: T)

  /** `s != null && !s.isEmpty()`, the test the valve applies to every optional string. */
  predicate Present(s: Option<string>) {
    s.Some? && s.value != []
  }

  /**
   * The index of the first element of `xs` that satisfies `p`, or `None` when
   * there is none: a `for` loop that `break`s on its first hit.
   */
  function FirstIndex<T>(xs: seq<T>, p: T -> bool): (r: Option<nat>)
    ensures r.Some? ==> r.value < |xs| && p(xs[r.value])
    ensures r.Some? ==> forall j :: 0 <= j < r.value ==> !p(xs[j])
    ensures r.None? <==> forall j :: 0 <= j < |xs| ==> !p(xs[j])
  {
    if xs == [] then None
    else if p(xs[0]) then Some(0)
    else
      match FirstIndex(xs[1..], p)
      case None => None
      case Some(i) => Some(i + 1)
  }
}
