/** A value that may be missing: an answer that never came, a key not present. */
module Options {
  datatype Option<T> = None | Some(value: T)
}
