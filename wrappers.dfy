/** Optional values and error-carrying results, the two wrapper types the
    Rust code uses (`Option<T>` and `anyhow::Result<T>`). */
module Wrappers {

  datatype Option<+T> = None | Some(value: T)

  /** `Ok(value)` or `Err(error)`; the error type is left generic here. */
  datatype Result<+T, +E> = Ok(value: T) | Err(error: E)
}
