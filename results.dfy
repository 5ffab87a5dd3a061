/** Failure-compatible wrappers shared by the modules of the model. */
module Results {

  datatype Option<+T> = None | Some(value: T)

  /** The result of an operation that either succeeds with a value or raises an error. */
  datatype Result<+T, +E> = Ok(value: T) | Err(error: E)
}
