/** The optional value used wherever the server tests a possibly-undefined value for truthiness. */
module Wrappers {
  datatype Option<+T> = None | Some(value: T)
}
