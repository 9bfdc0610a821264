/**
 * Scene start-up: the mode of the registered GameModeManager decides which
 * of seven optional components are enabled (scripts) or active (UI
 * objects). An unassigned component is skipped.
 */
module SwapModeManager {
  import opened Wrappers
  import opened Singleton
  import opened GameModeManager

  datatype Component =
    | VrController | VrReticlePointer | Reverse
    | MobileController | MobileReticlePointer | BackToMenu | FixedJoystick

  /** The three components used only in VR mode. */
  predicate ForVr(c: Component) {
    c.VrController? || c.VrReticlePointer? || c.Reverse?
  }

  /** The assigned components and their enabled/active flags; an
      unassigned (null) component has no key. */
  type Scene = map<Component, bool>

  /** The guarded `if (x != null) x.enabled = on` of the scene start-up. */
  function SetIfAssigned(scene: Scene, c: Component, on: bool): (r: Scene)
    ensures r.Keys == scene.Keys
    ensures c in scene ==> r[c] == on
    ensures forall d :: d in scene && d != c ==> r[d] == scene[d]
  {
    if c in scene then scene[c := on] else scene
  }

  /** The seven guarded assignments of `Awake`, in source order: the VR
      components get `vr`, the mobile components get `!vr`. */
  function Assignments(vr: bool): seq<(Component, bool)>
  {
    [(VrController, vr), (VrReticlePointer, vr), (Reverse, vr),
     (MobileController, !vr), (MobileReticlePointer, !vr), (BackToMenu, !vr), (FixedJoystick, !vr)]
  }

  /** No component is assigned twice. */
  predicate Distinct(assigns: seq<(Component, bool)>) {
    forall i, j :: 0 <= i < j < |assigns| ==> assigns[i].0 != assigns[j].0
  }

  /** Runs the guarded assignments one after another. */
  function ApplyAll(scene: Scene, assigns: seq<(Component, bool)>): (r: Scene)
    ensures r.Keys == scene.Keys
    ensures forall c :: c in scene && (forall i :: 0 <= i < |assigns| ==> assigns[i].0 != c) ==>
      r[c] == scene[c]
    decreases |assigns|
  {
    if assigns == [] then scene
    else ApplyAll(SetIfAssigned(scene, assigns[0].0, assigns[0].1), assigns[1..])
  }

  /** An assigned component named once in the list ends with its value. */
  lemma {:induction false} ApplyAllSets(scene: Scene, assigns: seq<(Component, bool)>, i: nat)
    requires Distinct(assigns) && i < |assigns| && assigns[i].0 in scene
    ensures ApplyAll(scene, assigns)[assigns[i].0] == assigns[i].1
    decreases |assigns|
  {
    var next := SetIfAssigned(scene, assigns[0].0, assigns[0].1);
    var rest := assigns[1..];
    if i == 0 {
      assert forall k :: 0 <= k < |rest| ==> rest[k].0 != assigns[0].0 by {
        forall k | 0 <= k < |rest|
          ensures rest[k].0 != assigns[0].0
        {
          assert rest[k] == assigns[k + 1];
        }
      }
    } else {
      assert rest[i - 1] == assigns[i];
      ApplyAllSets(next, rest, i - 1);
    }
  }

  /** Position of each component in `Assignments`. */
  function Position(c: Component): (i: nat)
    ensures i < 7 && Assignments(true)[i].0 == c
  {
    match c
    case VrController => 0
    case VrReticlePointer => 1
    case Reverse => 2
    case MobileController => 3
    case MobileReticlePointer => 4
    case BackToMenu => 5
    case FixedJoystick => 6
  }

  lemma ApplyAssignments(scene: Scene, vr: bool)
    ensures forall c :: c in scene ==> ApplyAll(scene, Assignments(vr))[c] == (ForVr(c) == vr)
  {
    forall c | c in scene
      ensures ApplyAll(scene, Assignments(vr))[c] == (ForVr(c) == vr)
    {
      ApplyAllSets(scene, Assignments(vr), Position(c));
    }
  }

  /** `Awake`, given `GameModeManager.Instance.CurrentMode` (None when no
      manager is registered). */
  function Awake(mode: Option<GameMode>, scene: Scene): (r: Scene)
    ensures r.Keys == scene.Keys
    ensures mode.None? ==> r == scene
    ensures mode == Some(VRMode) ==> forall c :: c in r ==> r[c] == ForVr(c)
    ensures mode == Some(MobileMode) ==> forall c :: c in r ==> r[c] == !ForVr(c)
  {
    match mode
    case None => scene
    case Some(m) =>
      ApplyAssignments(scene, m == VRMode);
      ApplyAll(scene, Assignments(m == VRMode))
  }

  // ----- Properties -----

  /** Mobile mode sets every assigned component to the opposite of what VR
      mode sets it to. */
  lemma MobileMirrorsVr(scene: Scene)
    ensures forall c :: c in scene ==>
      Awake(Some(MobileMode), scene)[c] == !Awake(Some(VRMode), scene)[c]
  {
  }

  /** In either mode every assigned VR-side flag is the negation of every
      assigned mobile-side flag. */
  lemma SidesExclusive(mode: GameMode, scene: Scene)
    ensures
      var r := Awake(Some(mode), scene);
      forall c, d :: c in r && d in r && ForVr(c) && !ForVr(d) ==> r[c] == !r[d]
  {
  }

  /** Leaving a component unassigned changes no other component's flag. */
  lemma UnassignedSkipped(mode: Option<GameMode>, scene: Scene, c: Component)
    ensures Awake(mode, scene - {c}) == Awake(mode, scene) - {c}
  {
  }

  /** The flags depend only on the mode and on which components are
      assigned, not on their previous values. */
  lemma DependsOnlyOnMode(mode: GameMode, scene: Scene, other: Scene)
    requires scene.Keys == other.Keys
    ensures Awake(Some(mode), scene) == Awake(Some(mode), other)
  {
  }

  lemma AwakeIdempotent(mode: Option<GameMode>, scene: Scene)
    ensures Awake(mode, Awake(mode, scene)) == Awake(mode, scene)
  {
  }

  /** End to end: after the VR button was pressed on the registered
      manager, a scene switches its VR components on and the mobile ones
      off. */
  lemma SceneFollowsManager(w: World, self: ObjectId, scene: Scene)
    requires self in w.modes && w.registry.instance == Some(self)
    ensures forall c :: c in scene ==>
      Awake(InstanceMode(SetToVRMode(w, self)), scene)[c] == ForVr(c)
  {
  }

  /** With no manager registered the scene keeps its flags. */
  lemma NoManagerNoChange(w: World, scene: Scene)
    requires w.registry.instance.None?
    ensures Awake(InstanceMode(w), scene) == scene
  {
  }
}
