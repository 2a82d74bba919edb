/** A value there may not be. */
module Options {
  datatype Option<+T> = None | Some(value: T)
}
