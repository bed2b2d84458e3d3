/** A value that may be absent: what a failing pop or allocation returns. */
module Options {
  datatype Option<T> = None | Some(value: T)
}
