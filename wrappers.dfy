/** Optional values and error returns shared by the other modules. */
module Wrappers {
  /** A value that may be absent (Go's `nil` / `ok == false`). */
  datatype Option<T> = None | Some(value: T)

  /** A value or an error (Go's `(value, error)` pair). */
  datatype Result<T> = Ok(value: T) | Err(msg: string)
}
