/** The optional value used for the session's nullable variables. */
module Wrappers {
  datatype Option<+T> = None | Some(value: T)
}
