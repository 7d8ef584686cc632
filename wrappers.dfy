/** The optional result a binder hands back: a bound command on success, nothing on failure. */
module Wrappers {
  datatype Option<+T> = None | Some(value: T)
}
