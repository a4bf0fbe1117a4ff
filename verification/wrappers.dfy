/** Option and Result, standing for Java's null and for an exception that escapes a call. */
module Wrappers {

  /** A value that may be missing; `None` models a Java `null` (or `-1` from `indexOf`). */
  datatype Option<+T> = None | Some(value: T)

  /** Either the value a call returns or the exception it throws. */
  datatype Result<+R, +E> = Success(value: R) | Failure(error: E)
}
