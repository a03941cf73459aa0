/** A value that may be missing, as a null result or a false return is in the source. */
module Options {
  datatype Option<+T> = None | Some(value: T)
}
