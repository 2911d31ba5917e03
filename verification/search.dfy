/** Linear search from the front. Both `repository.findOne` (over the rows
    of a table) and `Array.prototype.find` (over the validation errors)
    return the first element that matches; the model asks for its position. */
module Search {
  import opened Wrappers

  /** The position of the first element that matches, if any. */
  function FirstMatch<T>(xs: seq<T>, matches: T -> bool): (r: Option<nat>)
    ensures r.None? <==> forall i :: 0 <= i < |xs| ==> !matches(xs[i])
    ensures r.Some? ==>
      && r.value < |xs|
      && matches(xs[r.value])
      && forall j :: 0 <= j < r.value ==> !matches(xs[j])
  {
    if xs == [] then None
    else if matches(xs[0]) then Some(0)
    else
      match FirstMatch(xs[1..], matches)
      case None => None
      case Some(i) => Some(i + 1)
  }
}
