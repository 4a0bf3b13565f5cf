module Options {
  /** A value or its absence, such as a NULL pointer or a call that does not return. */
  datatype Option<+T> = None | Some(value: T)
}
