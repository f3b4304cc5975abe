/** The optional value used wherever the Python code may return `None`. */
module Wrappers {

  datatype Option<+T> = None | Some(value: T)
}
