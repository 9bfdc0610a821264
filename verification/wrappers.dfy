/** Optional values: a Unity object reference that may be unassigned (null). */
module Wrappers {

  datatype Option<+T> = None | Some(value: T)

  /** The set holding the value of `o`, or the empty set for None. */
  function Elements<T>(o: Option<T>): (r: set<T>)
    ensures o.None? ==> r == {}
    ensures o.Some? ==> r == {o.value}
  {
    match o
    case None => {}
    case Some(v) => {v}
  }
}
