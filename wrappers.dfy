/** Option and Result, the two failure-carrying datatypes used throughout the model. */
module Wrappers {
  /** A value that may be absent (a nil pointer in the source). */
  datatype Option<T> = None | Some(value: T)

  /** A value or an error (the source's `(value, error)` return pairs). */
  datatype Result<T, E> = Success(value: T) | Failure(error: E)
}
