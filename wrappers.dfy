/** Option and Result, standing in for Rust's `Option<T>` and for the
    `Result<T, SimpleError>` / `Box<dyn Error>` returns of the codec. */
module Wrappers {

  datatype Option<+T> = None | Some(value: T)

  /** An error carries the message the source attaches to it. */
  datatype Result<+T> = Ok(value: T) | Err(message: string)
}
