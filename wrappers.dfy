/** The conventional optional value, used for request fields that may be absent
    and for the result of parsing a date/time. */
module Wrappers {

  datatype Option<+T> = None | Some(value: T)
}
