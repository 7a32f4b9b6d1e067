/** The optional value returned where the source returns `None`, no match, or nothing queued. */
module Options {
  datatype Option<T> = None | Some(value: T)

  /** The value as a list of at most one element. */
  function ToSeq<T>(o: Option<T>): (r: seq<T>)
    ensures |r| == (if o.Some? then 1 else 0)
    ensures o.Some? ==> r[0] == o.value
  {
    if o.Some? then [o.value] else []
  }
}
