/** The two result shapes the rest of the project shares. */
module Wrappers {

  /** A value that may be absent: Go's zero pointer, or the `ok` half of a map read. */
  datatype Option<+T> = None | Some(value: T)

  /** Go's `(T, error)` pair. */
  datatype Result<+T, +E> = Ok(value: T) | Err(why: E)
}
