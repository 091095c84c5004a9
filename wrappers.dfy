/** The optional value used for the JavaScript results that may be NaN or absent. */
module Wrappers {

  datatype Option<+T> = None | Some(value: T)
}
