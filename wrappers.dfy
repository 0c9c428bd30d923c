/** Rust's `Option<T>` and `Result<T, E>`, as the model's functions and methods return them. */
module Wrappers {

  datatype Option<+T> = None | Some(value: T)

  datatype Result<+T, +E> = Ok(value: T) | Err(error: E)
}
