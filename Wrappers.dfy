/** The Option type used for Go's nil-able values and for fallible lookups. */
module Wrappers {

  datatype Option<+T> = None | Some(value: T)
}
