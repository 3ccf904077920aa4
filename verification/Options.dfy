/** An optional value: what a mapping's `get` returns. */
module Options {
  datatype Option<+T> = None | Some(value: T)
}
