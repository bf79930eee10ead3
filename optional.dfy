/** A value that may be missing: JavaScript's `undefined` next to a real value. */
module Optional {
  datatype Option<+T> = None | Some(value: T)
}
