/** The conventional optional value: an environment variable that is unset or
    empty is None. */
module Wrappers {

  datatype Option<+T> = None | Some(value: T)
}
