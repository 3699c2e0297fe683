/** Option and Result: a Java `null` and a thrown exception, as values. */
module Wrappers {

  /** A value that may be missing (a Java reference that may be `null`). */
  datatype Option<+T> = None | Some(value: T)

  /** The outcome of an operation that either returns a value or throws. */
  datatype Result<+R, +E> = Success(value: R) | Failure(error: E)
}
