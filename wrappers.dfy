/** Failure-carrying values shared by every module of the model. */
module Wrappers {

  /** A value that may be absent (Rust's `Option`). */
  datatype Option<+T> = None | Some(value: T)

  /** A value or an error (Rust's `Result`). */
  datatype Result<+T, +E> = Success(value: T) | Failure(error: E)

  /** The unit value `()` of Rust. */
  datatype Unit = Unit
}
