/** The optional value used for "no delimiter found" and similar outcomes. */
module Wrappers {

  datatype Option<+T> = None | Some(value: T)
}
