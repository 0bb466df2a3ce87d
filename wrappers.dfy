/** The optional value used wherever the source returns null or a TryParse fails. */
module Wrappers {

  datatype Option<T> = None | Some(value: T)
}
