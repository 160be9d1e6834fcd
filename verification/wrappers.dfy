/** The optional-value datatype used for Go's `(value, ok)` pairs and nil pointers. */
module Wrappers {

  datatype Option<+T> = None | Some(value: T)
}
