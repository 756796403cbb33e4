/** The optional value used for numpy's error returns. */
module Wrappers {

  datatype Option<T> = None | Some(value: T)
}
