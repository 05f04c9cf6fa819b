/** The optional value used where the Python code tests for `None` or probes
    an attribute with `hasattr`. */
module Wrappers {

  datatype Option<+T> = None | Some(value: T)
}
