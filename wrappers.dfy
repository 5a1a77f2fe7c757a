/** The optional value used for React state that may hold `null`. */
module Wrappers {
  datatype Option<+T> = None | Some(value: T)
}
