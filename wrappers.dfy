/** Option and Result, the two Rust standard types the model needs. */
module Wrappers {

  datatype Option<+T> = None | Some(value: T)

  /** Rust's `Result<R, E>`; `Result<(), E>` is the unit-valued form. */
  datatype Result<+R, +E> = Ok(value: R) | Err(error: E)
}
