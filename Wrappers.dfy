/** The conventional optional value, used for "has this stream emitted yet". */
module Wrappers {

  datatype Option<+T> = None | Some(value: T)
}
