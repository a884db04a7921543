/** Small failure-carrying datatypes shared by the model. */
module Common {

  /** A value that may be absent (a Go `nil` pointer or a `NaN` ratio). */
  datatype Option<T> = None | Some(value: T)

  /** Either a value or an error message (a Go `panic` at start-up). */
  datatype Result<T, E> = Ok(value: T) | Err(error: E)
}
