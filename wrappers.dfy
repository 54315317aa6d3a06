/** Failure-compatible wrappers shared by every module of the model. */
module Wrappers {

  /** A value that may be absent: Java's `null` return. */
  datatype Option<+T> = None | Some(value: T)

  /** A value or the exception the Java code throws instead. */
  datatype Result<+T, +E> = Ok(value: T) | Err(error: E)
}
