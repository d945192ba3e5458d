/** Shared result types of the model.
  * `Outcome` is how the model represents a Rust panic (`assert!`, `unwrap` on `None`,
  * `expect`): a panicking call yields `Panic(message)` instead of a value.
  * `Result` is Rust's own `Result`, for functions that return one. */
module Wrappers {
  datatype Option<T> = None | Some(value: T)

  datatype Outcome<T> = Done(value: T) | Panic(message: string)

  datatype Result<T, E> = Ok(value: T) | Err(error: E)
}
