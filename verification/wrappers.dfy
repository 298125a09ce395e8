/** The optional-value datatype used for the custom sound source and for parse results. */
module Wrappers {

  datatype Option<+T> = None | Some(value: T)

}
