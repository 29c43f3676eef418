/** Optional values and error-or-value results, shared by every module. */
module Wrappers {

  /** Python's `None` / Go's nil, or a present value. */
  datatype Option<+T> = None | Some(value: T)

  /** A Go `(value, error)` pair: either the value with a nil error, or an error. */
  datatype Result<+T, +E> = Ok(value: T) | Err(error: E)
}
