/** Optional values and error results shared by the harness model. */
module Common {

  /** A value that may be absent: JavaScript's `undefined` for an unset property. */
  datatype Option<+T> = None | Some(value: T)

  /** The outcome of an operation that can throw. */
  datatype Result<+T, +E> = Success(value: T) | Failure(error: E)
}
