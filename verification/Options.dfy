/** The conventional optional value, for null pointers and failed searches. */
module Options {
  datatype Option<+T> = None | Some(value: T)
}
