/** Failure-carrying datatypes shared by the other modules. */
module Wrappers {

  /** A value that may be absent: Python's `None`, or SQL `NULL` in a result row. */
  datatype Option<+T> = None | Some(value: T)

  /** Either a computed value or the reason it could not be computed. */
  datatype Result<+T, +E> = Ok(value: T) | Err(error: E)
}
