/** The optional value used wherever the kiosk screens keep `T | null` state. */
module Wrappers {

  datatype Option<+T> = None | Some(value: T)
}
