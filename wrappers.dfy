/** Datatypes standing in for Rust's `Option` and `Result`. */
module Wrappers {

  /** `Option<T>`: a value that may be absent. */
  datatype Option<+T> = None | Some(value: T)

  /** `Result<R, E>`: a success value or an error value. */
  datatype Result<+R, +E> = Success(value: R) | Failure(error: E)

  /** `Result<(), E>`: success without a value, or an error value. */
  datatype Outcome<+E> = Pass | Fail(error: E)
}
