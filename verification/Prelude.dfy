/** What several modules share. */
module Prelude {

  datatype Option<T> = None | Some(value: T)

  function SetOf(s: seq<string>): set<string> {
    set x | x in s
  }
}
