/** Optional values and results with an error channel, shared by every module. */
module Wrappers {

  /** A value that may be missing (Python's `None`). */
  datatype Option<+T> = None | Some(value: T)

  /** Either a value or the exception the source would raise. */
  datatype Result<+T, +E> = Success(value: T) | Failure(error: E)
}
