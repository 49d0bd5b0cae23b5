/** The optional value returned by a DOM lookup that may find nothing. */
module Wrappers {

  datatype Option<+T> = None | Some(value: T)
}
