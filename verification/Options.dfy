/** A value that may be absent: a null pointer, or an error. */
module Options {
  datatype Option<T> = None | Some(value: T)
}
