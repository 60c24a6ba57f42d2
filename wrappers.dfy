/** The optional value that both `string(forKey:)` and the failable
    `init(rawValue:)` hand back: a value, or nothing. */
module Wrappers {

  datatype Option<+T> = None | Some(value: T)
}
