/** A value that may be missing: a NULL pointer, an error return. */
module Options {
  datatype Option<+T> = None | Some(value: T)
}
