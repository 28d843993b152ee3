/** The optional value used for empty squares, a missing king and an empty undo stack. */
module Wrappers {
  datatype Option<+T> = None | Some(value: T)
}
