/** The optional value the models use for JavaScript's `null` and missing elements. */
module Wrappers {

  datatype Option<+T> = None | Some(value: T)
}
