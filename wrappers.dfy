/** The optional value used for omitted arguments and absent results. */
module Wrappers {
  datatype Option<T> = None | Some(value: T)
}
