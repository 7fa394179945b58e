/** The optional value used for JavaScript's `null` / `undefined` and for lookups that may miss. */
module Options {
  datatype Option<+T> = None | Some(value: T)
}
