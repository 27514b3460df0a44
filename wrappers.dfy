/** Small helper datatypes shared by the other modules. */
module Wrappers {

  /** A value that may be missing: a pandas NA cell, or a NaN score. */
  datatype Option<+T> = None | Some(value: T)
}
