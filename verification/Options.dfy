/** A value that may be missing: Go's nil pointers and Python's None. */
module Options {
  datatype Option<+T> = None | Some(value: T)
}
