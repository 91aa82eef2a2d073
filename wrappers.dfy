/** The optional value used for absent state and for messages that may or may not be sent. */
module Wrappers {

  datatype Option<+T> = None | Some(value: T)
}
