/** Option and Result: Python's `None` and raised exceptions as values. */
module Wrappers {

  /** A value that may be absent (`Optional[...]` in the source). */
  datatype Option<+T> = None | Some(value: T)

  /** The outcome of an operation that may raise. */
  datatype Result<+R, +E> = Ok(value: R) | Err(error: E)
}
