/** The pointer that may be null and the lookup that may fail. */
module Options {
  datatype Option<T> = None | Some(value: T)
}
