/** The optional value used for JavaScript slots that may hold null. */
module Wrappers {

  datatype Option<T> = None | Some(value: T)
}
