/** Failure-carrying values used throughout the model: Python's `None`
    becomes `None`, a raised exception becomes `Err`. */
module Outcomes {

  datatype Option<+T> = None | Some(value: T)

  datatype Result<+T, +E> = Ok(value: T) | Err(error: E)
}
