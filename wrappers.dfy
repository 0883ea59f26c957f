/** Failure-carrying wrappers used by the rest of the model. */
module Wrappers {

  /** A value that may be missing (Python's `None`, pandas' NaN). */
  datatype Option<+T> = None | Some(value: T)

  /** Either a computed value or the exception the source raises instead. */
  datatype Result<+T, +E> = Ok(value: T) | Err(error: E)
}
