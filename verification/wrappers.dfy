/** Optional values and fallible results, used where the application sees `None`
    or catches an exception. */
module Wrappers {

  /** A value that may be missing (Python's `None`). */
  datatype Option<+T> = None | Some(value: T)

  /** The outcome of an operation that may raise: the value, or the exception's message. */
  datatype Result<+R, +E> = Success(value: R) | Failure(error: E)
}
