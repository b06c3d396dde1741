/** The optional value used for JavaScript's null results and PHP's null ids. */
module Wrappers {

  datatype Option<+T> = None | Some(value: T)
}
