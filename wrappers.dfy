/** The optional value used wherever the source stores `null` in a slot. */
module Wrappers {
  datatype Option<+T> = None | Some(value: T)
}
