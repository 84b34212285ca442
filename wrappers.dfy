/** The optional value used by decoders and file lookups. */
module Wrappers {

  datatype Option<+T> = None | Some(value: T)
}
