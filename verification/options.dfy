/** Optional values: the Go code's `nil` backend and `err != nil` results. */
module Options {

  datatype Option<+T> = None | Some(value: T)

  /** A value or an error, for calls that return `(T, error)` in Go. */
  datatype Result<+T, +E> = Ok(value: T) | Err(error: E)
}
