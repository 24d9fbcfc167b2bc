/** Go's `(*T, error)` returns, as values: a nil pointer is `None`, a non-nil error is `Failure`. */
module Wrappers {

  datatype Option<+T> = None | Some(value: T)

  datatype Result<+R, +E> = Success(value: R) | Failure(error: E)
}
