/** Shared vocabulary: optional values and the first-match search the page uses twice. */
module Seqs {
  datatype Option<T> = None | Some(value: T)

  /**
   * Index of the first element satisfying `p`: `Array.prototype.find`, and
   * the loop that breaks on the first match.
   */
  function FindFirst<T>(xs: seq<T>, p: T -> bool): (r: Option<nat>)
    ensures r.Some? ==> r.value < |xs| && p(xs[r.value])
    ensures r.Some? ==> forall j | 0 <= j < r.value :: !p(xs[j])
    ensures r.None? ==> forall j | 0 <= j < |xs| :: !p(xs[j])
  {
    if xs == [] then None
    else if p(xs[0]) then Some(0)
    else match FindFirst(xs[1..], p)
      case None => None
      case Some(k) => Some(k + 1)
  }
}
