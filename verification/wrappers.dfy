/** The optional-value datatype used for "no match" and for a failed numeric parse. */
module Wrappers {

  datatype Option<+T> = None | Some(value: T)

}
