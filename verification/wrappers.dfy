/** Failure-carrying datatypes shared by every module of the model. */
module Wrappers {

  /** An optional value: a Go nil value or "not present" becomes None. */
  datatype Option<+T> = None | Some(value: T)

  /** A value or an error: Go's `(T, error)` return pairs become Result. */
  datatype Result<+T, +E> = Success(value: T) | Failure(error: E)
}
