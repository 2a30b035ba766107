/** The optional value every parser and lookup in this project returns. */
module Wrappers {
  datatype Option<+T> = None | Some(value: T)
}
