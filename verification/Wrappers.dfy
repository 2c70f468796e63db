/** Bytes, and success, failure and optional values shared by every module. */
module Wrappers {

  type u8 = n: nat | n < 256

  datatype Option<+T> = None | Some(value: T)

  datatype Result<+T, +E> = Success(value: T) | Failure(error: E)

  /** A result without a value. */
  datatype Outcome<+E> = Pass | Fail(error: E)
}
