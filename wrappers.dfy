/** Failure-carrying results, used where the Python code raises an exception. */
module Wrappers {

  datatype Option<+T> = None | Some(value: T)

  /** The Python exception a `Result` carries: the one `Problem.get_layout` raises. */
  datatype Error = NotImplementedError

  datatype Result<+T> = Ok(value: T) | Err(error: Error)
}
