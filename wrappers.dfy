/** Failure-compatible wrappers: an optional value, and a result that is
    either a value or an error. */
module Wrappers {

  /** A value that may be absent (Swift's `Optional`). */
  datatype Option<+T> = None | Some(value: T)

  /** Either a value or the reason there is none. */
  datatype Result<+R, +E> = Success(value: R) | Failure(error: E)
}
