/** An optional value, standing for a React state slot that may hold `null`. */
module Wrappers {

  datatype Option<+T> = None | Some(value: T)
}
