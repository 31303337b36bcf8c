/** Success/failure carriers used in place of Go's `(value, error)` pairs. */
module Wrappers {

  /** An optional value; `None` plays the role of Go's `nil` error. */
  datatype Option<+T> = None | Some(value: T)

  /** A value or the error that prevented it. */
  datatype Result<+T, +E> = Success(value: T) | Failure(error: E)
}
