/** The nullable values of the database and of Go pointers. */
module Wrappers {
  datatype Option<+T> = None | Some(value: T)
}
