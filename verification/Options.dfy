/** A value that may be missing: a dictionary key, a result after an error. */
module Options {
  datatype Option<+T> = None | Some(value: T)
}
