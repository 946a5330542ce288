/** The JavaScript `null`-or-value shape used by the cache slots. */
module Wrappers {
  datatype Option<+T> = None | Some(value: T)
}
