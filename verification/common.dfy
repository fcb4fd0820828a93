/** Failure-carrying wrappers and a search helper shared by every module of the model. */
module Common {

  /** A value that may be absent: Python's `None` versus a present value. */
  datatype Option<+T> = None | Some(value: T)

  /** The outcome of an operation that may raise instead of returning. */
  datatype Result<+T, +E> = Ok(value: T) | Err(error: E)

  /** The index of the first `true`, as a `for ... break` loop finds it. */
  function FirstTrue(b: seq<bool>): (r: Option<nat>)
    ensures r.None? <==> forall i :: 0 <= i < |b| ==> !b[i]
    ensures r.Some? ==> r.value < |b| && b[r.value] && forall j :: 0 <= j < r.value ==> !b[j]
  {
    if b == [] then None
    else if b[0] then Some(0)
    else
      var r := FirstTrue(b[1..]);
      if r.None? then None else Some(r.value + 1)
  }
}
