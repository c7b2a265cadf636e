/** The optional value used for nullable fields (`string | null`) and for
    controls that may be disabled. */
module Wrappers {

  datatype Option<+T> = None | Some(value: T)
}
