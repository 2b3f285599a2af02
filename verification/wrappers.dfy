/** Option and Result, the two failure-carrying shapes the model uses for the
    source's `None` returns and raised exceptions. */
module Wrappers {

  /** A value that may be missing (the source's `None`). */
  datatype Option<+T> = None | Some(value: T)

  /** Either a value or the error that the source would have raised. */
  datatype Result<+T, +E> = Ok(value: T) | Err(error: E)
}
