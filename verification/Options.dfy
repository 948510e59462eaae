/** A value that may be missing: the source's optionals, and its failing assertions. */
module Options {
  datatype Option<+T> = None | Some(value: T)
}
