/** Result types standing for Rust's `Result<T, E>` and `Result<(), E>`. */
module Wrappers {

  datatype Option<+T> = None | Some(value: T)

  datatype Result<+T, +E> = Ok(value: T) | Err(error: E)

  /** `Result<(), E>`: either the check passed or it failed with an error. */
  datatype Outcome<+E> = Pass | Fail(error: E)
}
