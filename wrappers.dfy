/** Failure-carrying return values, standing in for .NET's `out` parameters
    and exceptions. */
module Wrappers {

  /** A value that may be absent (the outcome of a parse that can fail). */
  datatype Option<+T> = None | Some(value: T)

  /** Either a constructed value or the exception that construction throws. */
  datatype Result<+R, +E> = Success(value: R) | Failure(error: E)
}
