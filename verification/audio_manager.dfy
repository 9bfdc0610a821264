/**
 * The background-music singleton: the first manager to wake up is kept
 * and every later one destroys itself.
 */
module AudioManager {
  import opened Wrappers
  import opened Singleton

  /** `Awake`: registers `self` if no instance exists, otherwise destroys
      `self`. There is no test that `self` is not already the instance. */
  function Awake(reg: Registry, self: ObjectId): (r: Registry)
    ensures reg.instance.None? ==> r.instance == Some(self) && r.destroyed == reg.destroyed
    ensures reg.instance.Some? ==> r.instance == reg.instance && r.destroyed == reg.destroyed + {self}
  {
    if reg.instance.None? then Registry(Some(self), reg.destroyed)
    else Registry(reg.instance, reg.destroyed + {self})
  }

  /** Every manager awakes once, in the order given. */
  function AwakeAll(reg: Registry, ids: seq<ObjectId>): Registry
    decreases |ids|
  {
    if ids == [] then reg else AwakeAll(Awake(reg, ids[0]), ids[1..])
  }

  // ----- Properties -----

  /** Once an instance is registered it is never replaced or cleared, and
      every later manager that wakes is destroyed. */
  lemma {:induction false} FirstStays(reg: Registry, ids: seq<ObjectId>)
    requires reg.instance.Some?
    ensures AwakeAll(reg, ids).instance == reg.instance
    ensures AwakeAll(reg, ids).destroyed == reg.destroyed + Members(ids)
    decreases |ids|
  {
    if ids != [] {
      FirstStays(Awake(reg, ids[0]), ids[1..]);
      assert ids == [ids[0]] + ids[1..];
    }
  }

  /** With no instance, the first manager to wake becomes it for good. */
  lemma FirstWins(reg: Registry, ids: seq<ObjectId>)
    requires reg.instance.None? && |ids| > 0
    ensures AwakeAll(reg, ids).instance == Some(ids[0])
    ensures AwakeAll(reg, ids).destroyed == reg.destroyed + Members(ids[1..])
  {
    FirstStays(Awake(reg, ids[0]), ids[1..]);
  }

  /** A second `Awake` by the registered manager destroys that manager
      while leaving it registered. */
  lemma RepeatedAwakeDestroysInstance(reg: Registry, self: ObjectId)
    requires reg.instance == Some(self)
    ensures Awake(reg, self).instance == Some(self)
    ensures self in Awake(reg, self).destroyed
  {
  }
}
