/** Datatypes shared by every component of the model. */
module Base {
  datatype Option<+T> = None | Some(value: T)

  /** Result of an operation that the compiler may abort with a panic or the emitted code with a trap. */
  datatype Checked<+T> = Ok(value: T) | Aborted
}
