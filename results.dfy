/** Small failure-carrying wrappers shared by the model's modules. */
module Results {

  /** A value that may be absent: JavaScript's `null` result of a lookup or a match. */
  datatype Option<+T> = None | Some(value: T)

  /** The outcome of one storage request: a value, or the error the backend reported. */
  datatype Result<+T, +E> = Ok(value: T) | Err(error: E)
}
