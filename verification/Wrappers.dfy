/** Failure-carrying datatypes shared by the models of both services. */
module Wrappers {

  /** A value that may be absent: a Go nil error or pointer, a Python None. */
  datatype Option<+T> = None | Some(value: T)

  /** A Go `(value, error)` pair of which exactly one half is meaningful. */
  datatype Result<+T, +E> = Success(value: T) | Failure(error: E)
}
