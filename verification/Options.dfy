/** The result of an operation that may produce nothing. */
module Options {
  datatype Option<+T> = None | Some(value: T)
}
