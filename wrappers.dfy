/** The optional-value type used for nullable request fields and failed validation. */
module Wrappers {

  datatype Option<+T> = None | Some(value: T)
}
