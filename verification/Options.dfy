/** A value that may be absent: the source's nil and ErrNotFound. */
module Options {
  datatype Option<+T> = None | Some(value: T)
}
