/** Optional values and success-or-error results, used wherever the server has a
    `None` or an exception. */
module Wrappers {

  /** A value that may be absent (`None` in the server). */
  datatype Option<+T> = None | Some(value: T)

  /** The outcome of a call that either returns a value or raises with a message. */
  datatype Result<+T, +E> = Success(value: T) | Failure(error: E)
}
