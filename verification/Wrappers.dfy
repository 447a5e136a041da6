/** What may be there or not. */
module Wrappers {

  datatype Option<T> = None | Some(value: T)
}
