/** Option and Result, standing for Rust's `Option<T>` and `Result<T, E>`. */
module Wrappers {

  datatype Option<+T> = None | Some(value: T)

  datatype Result<+T, +E> = Ok(value: T) | Err(error: E)

  /** The outcome of `Mutex::lock`: the guard, or a poisoned lock. */
  datatype LockResult = Acquired | Poisoned
}
