/** The optional-value datatype used for WordPress results that may not be an array. */
module Wrappers {

  datatype Option<+T> = None | Some(value: T)
}
