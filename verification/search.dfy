/** First-match search over a sequence, the common core of `Array.prototype.find`
    and `Array.prototype.findIndex`. */
module Search {
  import opened Wrappers

  /** Index of the first element of `xs` satisfying `p`, or None where
      `findIndex` would answer -1 (and `find` would answer `undefined`). */
  function FirstIndex<T>(xs: seq<T>, p: T -> bool): (r: Option<nat>)
    ensures r.Some? ==> r.value < |xs| && p(xs[r.value])
    ensures r.Some? ==> forall j :: 0 <= j < r.value ==> !p(xs[j])
    ensures r.None? <==> forall j :: 0 <= j < |xs| ==> !p(xs[j])
  {
    if xs == [] then None
    else if p(xs[0]) then Some(0)
    else
      match FirstIndex(xs[1..], p)
      case None => None
      case Some(k) =>
        assert forall j :: 1 <= j < k + 1 ==> xs[j] == xs[1..][j - 1];
        Some(k + 1)
  }
}
