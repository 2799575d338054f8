/** The optional value used for JavaScript's `null`/`undefined`, missing
    request fields, empty storage slots and decoders that can fail. */
module Wrappers {

  datatype Option<+T> = None | Some(value: T)
}
