/** The optional value and the outcome-or-error wrappers shared by every module of the model. */
module Common {

  /** A value that may be absent: a row that a query did not find. */
  datatype Option<+T> = None | Some(value: T)

  /** The outcome of an operation that either yields a value or throws an error. */
  datatype Result<+T, +E> = Ok(value: T) | Err(error: E)
}
