/** Option and Result for the Go idioms `(value, ok)` and `(value, err)`. */
module Wrappers {

  datatype Option<+T> = None | Some(value: T)

  datatype Result<+R, +E> = Success(value: R) | Failure(error: E)
}
