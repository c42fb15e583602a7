/** Failure-carrying values used where the Python code raises an exception
    or returns None. */
module Outcomes {

  datatype Option<+T> = None | Some(value: T)

  /** Ok carries the value the Python code returns; Err the exception it raises. */
  datatype Result<+T, +E> = Ok(value: T) | Err(error: E)
}
