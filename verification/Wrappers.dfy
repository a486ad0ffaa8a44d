/** The result of an operation that may find nothing. */
module Wrappers {
  datatype Option<T> = None | Some(value: T)
}
