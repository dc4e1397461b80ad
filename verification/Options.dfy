/** Values that may be missing. */
module Options {
  datatype Option<+T> = None | Some(value: T)

  /** The value as a list of at most one. */
  function Known<T>(v: Option<T>): seq<T> {
    if v.Some? then [v.value] else []
  }
}
