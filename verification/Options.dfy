/** A value or nothing, as a Python variable that may be None. */
module Options {
  datatype Option<T> = None | Some(value: T)
}
