/** A value that may be missing: a null reference, or a parse that failed. */
module Options {
  datatype Option<T> = None | Some(value: T)
}
