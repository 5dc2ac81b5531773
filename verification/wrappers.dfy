/** Failure-carrying values shared by the whole model: the driver's
    `Result<T, E>` returns and Rust's `Option<T>`. */
module Wrappers {

  datatype Option<+T> = None | Some(value: T)

  datatype Result<+T, +E> = Ok(value: T) | Err(error: E)
}
