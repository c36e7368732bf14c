/** The optional value used for the Python code's `None` results. */
module Wrappers {

  datatype Option<+T> = None | Some(value: T)
}
