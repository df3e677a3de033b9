/** The optional-value datatype used for the envelope's `pagination` key. */
module Wrappers {

  datatype Option<+T> = None | Some(value: T)

}
