/**
 * The persistent mode manager: a two-valued mode chosen on the home page,
 * and a singleton registration in which the newest manager wins.
 */
module GameModeManager {
  import opened Wrappers
  import opened Singleton

  datatype GameMode = VRMode | MobileMode

  /** The registry of `GameModeManager.Instance` and the `CurrentMode`
      field of every manager object that exists. */
  datatype World = World(registry: Registry, modes: map<ObjectId, GameMode>)

  /** The registered instance always has a mode. */
  predicate WellFormed(w: World) {
    w.registry.instance.Some? ==> w.registry.instance.value in w.modes
  }

  /** A new manager object: `CurrentMode` starts as MobileMode. */
  function Create(w: World, id: ObjectId): (r: World)
    requires id !in w.modes
    ensures id in r.modes && r.modes[id] == MobileMode
    ensures forall o :: o in w.modes ==> o in r.modes && r.modes[o] == w.modes[o]
    ensures r.modes.Keys == w.modes.Keys + {id}
    ensures r.registry == w.registry
  {
    w.(modes := w.modes[id := MobileMode])
  }

  /** `Awake`: destroys a different registered manager, then registers
      `self`. */
  function Awake(w: World, self: ObjectId): (r: World)
    requires self in w.modes
    ensures r.registry.instance == Some(self)
    ensures w.registry.instance == Some(self) ==> r.registry.destroyed == w.registry.destroyed
    ensures w.registry.instance.Some? && w.registry.instance.value != self ==>
      r.registry.destroyed == w.registry.destroyed + {w.registry.instance.value}
    ensures w.registry.instance.None? ==> r.registry.destroyed == w.registry.destroyed
    ensures r.modes == w.modes
    ensures WellFormed(r)
  {
    var reg := w.registry;
    var destroyed :=
      if reg.instance.Some? && reg.instance.value != self then reg.destroyed + {reg.instance.value}
      else reg.destroyed;
    w.(registry := Registry(Some(self), destroyed))
  }

  /** UI button: switch `self` to VR mode. */
  function SetToVRMode(w: World, self: ObjectId): (r: World)
    requires self in w.modes
    ensures self in r.modes && r.modes[self] == VRMode
    ensures forall o :: o in w.modes && o != self ==> o in r.modes && r.modes[o] == w.modes[o]
    ensures r.modes.Keys == w.modes.Keys
    ensures r.registry == w.registry
  {
    w.(modes := w.modes[self := VRMode])
  }

  /** UI button: switch `self` to mobile mode. */
  function SetToMobileMode(w: World, self: ObjectId): (r: World)
    requires self in w.modes
    ensures self in r.modes && r.modes[self] == MobileMode
    ensures forall o :: o in w.modes && o != self ==> o in r.modes && r.modes[o] == w.modes[o]
    ensures r.modes.Keys == w.modes.Keys
    ensures r.registry == w.registry
  {
    w.(modes := w.modes[self := MobileMode])
  }

  /** `GameModeManager.Instance.CurrentMode`, or None when no instance is
      registered. */
  function InstanceMode(w: World): (r: Option<GameMode>)
    ensures r.Some? <==> w.registry.instance.Some? && w.registry.instance.value in w.modes
    ensures r.Some? ==> r.value == w.modes[w.registry.instance.value]
  {
    match w.registry.instance
    case None => None
    case Some(id) => if id in w.modes then Some(w.modes[id]) else None
  }

  /** Every manager awakes once, in the order given. */
  function AwakeAll(w: World, ids: seq<ObjectId>): World
    requires forall i :: 0 <= i < |ids| ==> ids[i] in w.modes
    decreases |ids|
  {
    if ids == [] then w else AwakeAll(Awake(w, ids[0]), ids[1..])
  }

  // ----- Properties -----

  lemma SettersIdempotent(w: World, self: ObjectId)
    requires self in w.modes
    ensures SetToVRMode(SetToVRMode(w, self), self) == SetToVRMode(w, self)
    ensures SetToMobileMode(SetToMobileMode(w, self), self) == SetToMobileMode(w, self)
  {
  }

  /** A newly created manager that wakes up is the instance, and the scene
      sees MobileMode until a setter is pressed. */
  lemma CreatedManagerIsMobile(w: World, id: ObjectId)
    requires id !in w.modes
    ensures InstanceMode(Awake(Create(w, id), id)) == Some(MobileMode)
  {
  }

  /** A setter pressed on the registered instance is what the scene sees. */
  lemma SetterReachesInstance(w: World, self: ObjectId)
    requires self in w.modes && w.registry.instance == Some(self)
    ensures InstanceMode(SetToVRMode(w, self)) == Some(VRMode)
    ensures InstanceMode(SetToMobileMode(w, self)) == Some(MobileMode)
  {
  }

  /** When distinct managers wake one after another, the last one is the
      instance, and the previously registered one and every earlier
      newcomer have been destroyed. */
  lemma {:induction false} NewestWins(w: World, ids: seq<ObjectId>)
    requires |ids| > 0
    requires forall i :: 0 <= i < |ids| ==> ids[i] in w.modes
    requires forall i, j :: 0 <= i < j < |ids| ==> ids[i] != ids[j]
    requires w.registry.instance.Some? ==> w.registry.instance.value !in ids
    ensures AwakeAll(w, ids).registry.instance == Some(ids[|ids| - 1])
    ensures AwakeAll(w, ids).registry.destroyed ==
      w.registry.destroyed + Elements(w.registry.instance) + Members(ids[..|ids| - 1])
    decreases |ids|
  {
    var w1 := Awake(w, ids[0]);
    if |ids| > 1 {
      var rest := ids[1..];
      assert w1.registry.instance.value !in rest;
      NewestWins(w1, rest);
      assert ids[..|ids| - 1] == [ids[0]] + rest[..|rest| - 1];
    }
  }
}
