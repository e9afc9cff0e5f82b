/** Values that may be missing: absent map entries and thrown errors. */
module Options {
  datatype Option<+T> = None | Some(value: T)
}
