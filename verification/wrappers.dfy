/** Option standing for a nil-able pointer of the Go code. */
module Wrappers {

  /** None stands for a nil pointer, Some(v) for a pointer to v. */
  datatype Option<+T> = None | Some(value: T)
}
