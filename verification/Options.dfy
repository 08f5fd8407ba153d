/** A value that may be absent: the source's `undefined`, `null` and refused results. */
module Options {
  datatype Option<+T> = None | Some(value: T)
}
