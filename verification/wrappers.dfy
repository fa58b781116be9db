module Wrappers {
  datatype Option<+T> = None | Some(value: T)

  /** The lines of a file that may be missing: none when it does not exist. */
  function LinesOf(file: Option<seq<string>>): (lines: seq<string>)
    ensures file.Some? ==> lines == file.value
    ensures file.None? ==> lines == []
  {
    if file.None? then [] else file.value
  }
}
