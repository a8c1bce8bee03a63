/** Option and Result, the two shapes Rust's standard library uses for the
    fallible calls of the pipeline. */
module Wrappers {

  datatype Option<+T> = None | Some(value: T)

  /** `std::result::Result<T, E>`. */
  datatype Result<+T, +E> = Ok(value: T) | Err(error: E)
}
