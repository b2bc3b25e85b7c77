/** The optional-value datatype used for components a tile may or may not carry. */
module Wrappers {
  datatype Option<+T> = None | Some(value: T)
}
