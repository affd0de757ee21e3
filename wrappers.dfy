/** A value that may be absent, used where Cardinal passes a nullable pointer
    or reports a lookup that finds nothing. */
module Wrappers {
  datatype Option<+T> = None | Some(value: T)
}
