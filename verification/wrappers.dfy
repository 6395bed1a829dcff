/** The optional value used for missing data and for failed reads. */
module Wrappers {
  datatype Option<T> = None | Some(value: T)
}
