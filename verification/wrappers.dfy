/** Option and Result: the shapes of Go's "pointer or nil" and "value or error" returns. */
module Wrappers {

  /** A value that may be absent, as a Go pointer or interface that may be nil. */
  datatype Option<+T> = None | Some(value: T)

  /** A successful value or an error, as Go's `(value, error)` return pairs. */
  datatype Result<+T, +E> = Success(value: T) | Failure(error: E)
}
