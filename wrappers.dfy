/** The optional-value datatype used for the page's `undefined`-able fields. */
module Wrappers {

  datatype Option<+T> = None | Some(value: T)
}
