/** A value that may be absent, where the source uses null or undefined. */
module Options {
  datatype Option<+T> = None | Some(value: T)
}
