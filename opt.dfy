/** The optional value used wherever the C++ code holds an address that may be null. */
module Opt {
  datatype Option<+T> = None | Some(value: T)
}
