/** A value that may be missing: a nil pointer, a cache miss or a failed decode. */
module Options {
  datatype Option<+T> = None | Some(value: T)
}
