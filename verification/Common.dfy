/** Datatypes shared by the models. */
module Common {

  /** A value that may be absent. */
  datatype Option<+T> = None | Some(value: T)

  /** The outcome of an operation that throws in the original: a value or the reason for the throw. */
  datatype Result<+T, +E> = Ok(value: T) | Err(error: E)
}
