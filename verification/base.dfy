/** Small shared wrapper types. */
module Base {

  /** An optional value: the absence of a value is `None`. */
  datatype Option<+T> = None | Some(value: T)

  /** A computation that either produced a value or a list of errors, in the
      order in which they were collected. */
  datatype Result<+T, +E> = Success(value: T) | Failure(errors: seq<E>)

  /** Every collected error if there is any, otherwise the value. */
  function Collect<T, E>(errs: seq<E>, value: T): (r: Result<T, E>)
    ensures r.Failure? <==> errs != []
    ensures r.Failure? ==> r.errors == errs
    ensures r.Success? ==> r.value == value
  {
    if |errs| > 0 then Failure(errs) else Success(value)
  }
}
