/** The optional value returned by a key-value store lookup. */
module Wrappers {

  datatype Option<+T> = None | Some(value: T)
}
