/** Optional values and results with an error, as used across the model. */
module Wrappers {

  /** A value that may be absent: a missing number (pandas' NaN), a token that did not parse. */
  datatype Option<+T> = None | Some(value: T)

  /** The outcome of an operation that can fail with an error of type E. */
  datatype Result<+R, +E> = Success(value: R) | Failure(error: E)
}
