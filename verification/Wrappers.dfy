/** The usual optional value, used for lookups that may miss and for operations that may fail. */
module Wrappers {

  datatype Option<+T> = None | Some(value: T)
}
