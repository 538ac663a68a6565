/** Option, Result and Outcome values standing for Rust's `Option`, `Result`
    and the `Result<(), E>` of operations that return nothing on success. */
module Wrappers {

  datatype Option<+T> = None | Some(value: T)

  datatype Result<+T, +E> = Ok(value: T) | Err(error: E)

  /** The outcome of an operation that yields nothing but may fail. */
  datatype Outcome<+E> = Pass | Fail(error: E)
}
