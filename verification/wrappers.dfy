/** Failure-carrying datatypes used for the producer's error returns. */
module Wrappers {

  /** A value that may be absent, as a Go pointer field that may be nil. */
  datatype Option<+T> = None | Some(value: T)

  /** Either a successful value or an error, as a Go `(value, error)` return. */
  datatype Result<+R, +E> = Success(value: R) | Failure(error: E)
}
