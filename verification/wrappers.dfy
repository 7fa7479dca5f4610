/** The conventional optional value, used for JavaScript values that may be
    `undefined` and for parsers that may fail. */
module Wrappers {

  datatype Option<+T> = None | Some(value: T)
}
