/** An optional value: the model of a value that may be nil. */
module Wrappers {
  datatype Option<+T> = None | Some(value: T)
}
