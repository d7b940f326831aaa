/** A value that may be missing, for the exceptions and empty results of the programs. */
module Wrappers {

  datatype Option<T> = None | Some(value: T)
}
