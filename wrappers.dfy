/** The optional value used for absent test-vector fields and for tick faults. */
module Wrappers {

  datatype Option<+T> = None | Some(value: T)
}
