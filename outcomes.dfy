/** Option and Result, as used throughout the model for Python's
    missing values and for the exceptions and `stop(...)` exits of the
    two scripts. */
module Outcomes {

  datatype Option<+T> = None | Some(value: T)

  datatype Result<+T, +E> = Ok(value: T) | Err(error: E)
}
