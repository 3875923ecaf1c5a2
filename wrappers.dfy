/** Option and Result, the two failure-carrying shapes the model uses throughout. */
module Wrappers {

  datatype Option<+T> = None | Some(value: T)

  /** A Rust `Result<T, E>`: `Success` is `Ok(..)`, `Failure` is `Err(..)`. */
  datatype Result<+T, +E> = Success(value: T) | Failure(error: E)
}
