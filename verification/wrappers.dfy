/** Option and Result: the shapes in which the handlers' early returns are modelled. */
module Wrappers {

  datatype Option<+T> = None | Some(value: T)

  datatype Result<+T, +E> = Ok(value: T) | Err(error: E)

  /** A result with no success value: `save()` and the handlers that only answer "success". */
  datatype Outcome<+E> = Pass | Fail(error: E)
}
