/** The Option datatype shared by the modules of this model. */
module Wrappers {

  /** A value that may be absent: Python's `None` or a pandas null. */
  datatype Option<+T> = None | Some(value: T)
}
