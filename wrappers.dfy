/** The optional value used where the Python code passes `None`. */
module Wrappers {
  datatype Option<+T> = None | Some(value: T)
}
