/** A value that may be absent: a Java reference that may be null, or an
    optional argument. */
module Wrappers {

  datatype Option<+T> = None | Some(value: T)
}
