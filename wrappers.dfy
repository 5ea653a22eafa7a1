/** Optional values and results with an error, used throughout the model. */
module Wrappers {

  /** A value that may be absent: a JSON `null`, or pandas' NaN. */
  datatype Option<+T> = None | Some(value: T)

  /** The outcome of an operation that may raise. */
  datatype Result<+R, +E> = Success(value: R) | Failure(error: E)
}
