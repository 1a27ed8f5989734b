/** The optional value roll.py expresses with `None`. */
module Wrappers {

  datatype Option<T> = None | Some(value: T)
}
