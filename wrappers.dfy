/** Option and Result values used across the model in place of Python's
    `None` and raised exceptions. */
module Wrappers {

  datatype Option<+T> = None | Some(value: T)

  /** `Ok` for a normal return, `Err` for an exception that propagates. */
  datatype Result<+T, +E> = Ok(value: T) | Err(error: E)
}
