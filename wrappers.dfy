/** Option, Result and Outcome: the model's stand-ins for Go's nil results and `error` values. */
module Wrappers {

  /** A pointer that may be nil. */
  datatype Option<+T> = None | Some(value: T)

  /** A value together with Go's `error`, as `(T, error)` returns are used. */
  datatype Result<+T, +E> = Success(value: T) | Failure(error: E)

  /** A bare Go `error`: `Pass` is nil. */
  datatype Outcome<+E> = Pass | Fail(error: E)
}
