/** The Option type used for a lookup that may come back empty (a NULL pointer in C). */
module Wrappers {
  datatype Option<+T> = None | Some(value: T)
}
