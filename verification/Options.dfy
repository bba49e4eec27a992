/** A value that may be absent: Go's nil slice, a failed call, a missing map entry. */
module Options {
  datatype Option<+T> = None | Some(value: T)
}
