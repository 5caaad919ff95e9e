/** The optional value used for Python's None: a missing argument, a peer response that was not ok. */
module Wrappers {

  datatype Option<+T> = None | Some(value: T)
}
