/** The optional value used throughout the model in place of Python's None. */
module Options {
  datatype Option<+T> = None | Some(value: T)
}
