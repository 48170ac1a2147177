/** Failure-carrying values shared by the model: an optional value, a value
    or an error, and a pass/fail status for operations that return nothing. */
module Outcomes {

  datatype Option<+T> = None | Some(value: T)

  datatype Result<+T, +E> = Ok(value: T) | Err(error: E)

  datatype Outcome<+E> = Pass | Fail(error: E)
}
