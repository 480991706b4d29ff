/** Small types and functions that several components share. */
module Options {

  datatype Option<T> = None | Some(value: T)

  function Elements<T>(s: seq<T>): set<T> {
    set x | x in s
  }
}
