/** Failure-carrying results shared by the builder, the reader and the call guards. */
module Results {

  datatype Option<+T> = None | Some(value: T) {
    predicate IsFailure() { None? }

    function PropagateFailure<U>(): Option<U>
      requires None?
    {
      None
    }

    function Extract(): T
      requires Some?
    {
      value
    }
  }

  /** The value of an operation that either returns normally or throws `error`. */
  datatype Result<+T, +E> = Ok(value: T) | Err(error: E)
}
