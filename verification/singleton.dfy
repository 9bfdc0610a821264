/**
 * The static `Instance` field of a singleton MonoBehaviour together with
 * the objects that have been handed to `Destroy`.
 */
module Singleton {
  import opened Wrappers

  /** Identity of a scene object (a MonoBehaviour and its GameObject). */
  type ObjectId = nat

  datatype Registry = Registry(instance: Option<ObjectId>, destroyed: set<ObjectId>)

  /** The objects named in `ids`. */
  function Members(ids: seq<ObjectId>): set<ObjectId>
  {
    set x | x in ids
  }
}
