/** Option and Result: the shapes Go's `(value, error)` pairs and nil pointers take here. */
module Wrappers {

  /** A value that may be absent (a nil slice or pointer in the Go code). */
  datatype Option<+T> = None | Some(value: T)

  /** A value or the error a Go function returns in its place. */
  datatype Result<+R, +E> = Success(value: R) | Failure(error: E)
}
