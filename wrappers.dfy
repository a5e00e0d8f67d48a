/** Option and Result, the two failure-carrying datatypes the model uses. */
module Wrappers {

  /** A value that may be absent: `None` plays the part of Python's `None`. */
  datatype Option<+T> = None | Some(value: T)

  /** Either a value or the error the source raises instead of returning one. */
  datatype Result<+R, +E> = Success(value: R) | Failure(error: E)
}
