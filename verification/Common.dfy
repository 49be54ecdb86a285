/** Small vocabulary shared by the modules of the model. */
module Common {

  datatype Option<+T> = None | Some(value: T)

  /** The outcome of an operation that either succeeds or returns one of its package's errors. */
  datatype Result<+T, +E> = Ok(value: T) | Err(error: E)

  /** `xs` without the element at `k`. */
  function Without<T>(xs: seq<T>, k: nat): (r: seq<T>)
    requires k < |xs|
    ensures |r| == |xs| - 1
    ensures forall i :: 0 <= i < |r| ==> r[i] == xs[if i < k then i else i + 1]
  {
    xs[..k] + xs[k + 1..]
  }
}
