/** The optional value used throughout the project in place of a null pointer or a sentinel. */
module Options {
  datatype Option<+T> = None | Some(value: T)
}
