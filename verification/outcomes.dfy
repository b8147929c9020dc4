/** Optional values and results with an error, shared by every module of the model. */
module Outcomes {

  /** A value that may be missing (Python's `None`). */
  datatype Option<+T> = None | Some(value: T)

  /** The outcome of an operation that may raise an error instead of returning. */
  datatype Result<+R, +E> = Success(value: R) | Failure(error: E)
}
