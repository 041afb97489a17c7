/** The optional value used for the library calls that either produce a result or fail. */
module Wrappers {

  datatype Option<+T> = None | Some(value: T)
}
