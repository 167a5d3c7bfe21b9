/** The optional value returned by a handler that may return without
    notifying the host. */
module Wrappers {

  datatype Option<+T> = None | Some(value: T)
}
