/** An optional value: the Swift `Optional`s and the C++ "not found" results of the model. */
module Wrappers {
  datatype Option<+T> = None | Some(value: T)
}
