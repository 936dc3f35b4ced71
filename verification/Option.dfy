/** The result of an operation that the C code reports with a non-zero return or a NULL pointer. */
module Option {
  datatype Option<+T> = None | Some(value: T)
}
