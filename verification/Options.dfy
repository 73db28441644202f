/** Go's "value, ok" results and nilable pointers. */
module Options {
  datatype Option<+T> = None | Some(value: T)
}
