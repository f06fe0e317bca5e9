/** Failure-carrying datatypes shared by every module of the model. */
module Wrappers {

  /** An optional value: `None` stands for Rust's `None`, a missing map entry or a failed read. */
  datatype Option<+T> = None | Some(value: T)

  /** The model's rendering of Rust's `Result<T, E>`. */
  datatype Result<+T, +E> = Ok(value: T) | Err(error: E)
}
