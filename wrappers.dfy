/** The optional value returned by lookups and by `pop_back`, as Rust's `Option`. */
module Wrappers {
  datatype Option<+T> = None | Some(value: T)
}
