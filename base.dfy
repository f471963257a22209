/** Small shared vocabulary. */
module Base {

  datatype Option<T> = None | Some(value: T)

  /** The last element of a non-empty sequence. */
  function Last<T>(s: seq<T>): T
    requires s != []
  {
    s[|s| - 1]
  }
}
