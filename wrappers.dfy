/** The optional value used where the source returns None or a missing entry. */
module Wrappers {
  datatype Option<+T> = None | Some(value: T)
}
