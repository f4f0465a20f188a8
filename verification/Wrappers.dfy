/** Small things every component uses. */
module Wrappers {

  datatype Option<+T> = None | Some(value: T)

  /** The elements of a sequence. */
  ghost function Elements<T>(s: seq<T>): set<T> {
    set x | x in s
  }
}
