/** A value that may be absent: the model's stand-in for a DOM lookup that returns null. */
module Wrappers {
  datatype Option<+T> = None | Some(value: T)
}
