/** Option, for a value that may be absent (a dict lookup that misses, a
    README that does not exist, a local variable that was never bound). */
module Wrappers {
  datatype Option<+T> = None | Some(value: T)
}
