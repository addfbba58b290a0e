/** The optional-value datatype used for regular-expression results. */
module Wrappers {

  datatype Option<+T> = None | Some(value: T)
}
