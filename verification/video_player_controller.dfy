/**
 * A gaze-and-click video tile: clicking toggles play/pause, leaving the tile
 * or reaching the end rewinds to the first frame and pauses, and the
 * preparation handler does the same once and then unsubscribes.
 */
module VideoPlayerController {
  import opened Wrappers
  import opened VideoPlayback

  /** `player` and `image` are the serialized VideoPlayer and RawImage
      references (None when unassigned); `image` holds the RawImage's
      `enabled` flag. `preparedSubscribed` records whether the
      prepare-completed handler is still attached. */
  datatype State = State(player: Option<Player>, image: Option<bool>, preparedSubscribed: bool)

  /** The outcome of a handler that may dereference a null image: the
      state reached, completed or at the point of the exception. */
  datatype Handled = Done(state: State) | NullReference(state: State)

  datatype Event = PointerEnter | PointerClick | PointerExit | PrepareCompleted | LoopPointReached

  /** `image.enabled = true` behind a null test. */
  function EnableImage(image: Option<bool>): (r: Option<bool>)
    ensures r.Some? <==> image.Some?
    ensures r.Some? ==> r.value
  {
    if image.Some? then Some(true) else None
  }

  /** `Start`: with a player assigned, preparation is requested and the
      prepare-completed handler attached. */
  function Start(s: State): (r: State)
    ensures s.player.Some? ==> r.preparedSubscribed
    ensures s.player.None? ==> r == s
    ensures r.player == s.player && r.image == s.image
  {
    if s.player.Some? then s.(preparedSubscribed := true) else s
  }

  /** The prepare-completed handler: first frame, paused, image enabled,
      handler detached. */
  function OnVideoPrepared(s: State): (r: State)
    requires s.player.Some?
    ensures r.player == Some(Rewound)
    ensures r.image == EnableImage(s.image)
    ensures !r.preparedSubscribed
  {
    State(Some(Pause(Rewind(s.player.value))), EnableImage(s.image), false)
  }

  /** The loop-point-reached handler as written: it enables the image
      without testing the reference for null. */
  function OnVideoFinishedAsWritten(s: State): (r: Handled)
    requires s.player.Some?
    ensures r.state.player == Some(Rewound)
    ensures r.NullReference? <==> s.image.None?
    ensures r.Done? ==> r.state.image == Some(true)
  {
    var rewound := s.(player := Some(Pause(Rewind(s.player.value))));
    if rewound.image.None? then NullReference(rewound)
    else Done(rewound.(image := Some(true)))
  }

  /** The loop-point-reached handler with the null test the other handlers
      have: first frame, paused, image enabled when assigned. */
  function OnVideoFinished(s: State): (r: State)
    requires s.player.Some?
    ensures r.player == Some(Rewound)
    ensures r.image == EnableImage(s.image)
    ensures r.preparedSubscribed == s.preparedSubscribed
  {
    s.(player := Some(Pause(Rewind(s.player.value))), image := EnableImage(s.image))
  }

  /** Enables the image and toggles between playing and paused, keeping
      the frame. */
  function ShowAndPlayVideo(s: State): (r: State)
    ensures r.image == EnableImage(s.image)
    ensures r.player.Some? <==> s.player.Some?
    ensures r.player.Some? ==>
      r.player.value.playing == !s.player.value.playing && r.player.value.frame == s.player.value.frame
    ensures r.preparedSubscribed == s.preparedSubscribed
  {
    var player :=
      match s.player
      case None => None
      case Some(p) => Some(if p.playing then Pause(p) else Play(p));
    s.(image := EnableImage(s.image), player := player)
  }

  /** Pauses and rewinds the player and enables the image; despite the
      name nothing is hidden. */
  function StopAndHide(s: State): (r: State)
    ensures r.player.Some? <==> s.player.Some?
    ensures r.player.Some? ==> r.player.value == Rewound
    ensures r.image == EnableImage(s.image)
    ensures r.preparedSubscribed == s.preparedSubscribed
  {
    s.(player := if s.player.Some? then Some(Rewind(Pause(s.player.value))) else None,
       image := EnableImage(s.image))
  }

  /** Only logs. */
  function OnPointerEnter(s: State): (r: State)
    ensures r == s
  {
    s
  }

  /** A click toggles play/pause and enables the image. */
  function OnPointerClick(s: State): (r: State)
    ensures r.player.Some? <==> s.player.Some?
    ensures r.player.Some? ==>
      r.player.value.playing == !s.player.value.playing && r.player.value.frame == s.player.value.frame
    ensures r.image == EnableImage(s.image)
    ensures r.preparedSubscribed == s.preparedSubscribed
  {
    ShowAndPlayVideo(s)
  }

  /** Leaving the tile rewinds, pauses and enables the image. */
  function OnPointerExit(s: State): (r: State)
    ensures r.player.Some? <==> s.player.Some?
    ensures r.player.Some? ==> r.player.value == Rewound
    ensures r.image == EnableImage(s.image)
    ensures r.preparedSubscribed == s.preparedSubscribed
  {
    StopAndHide(s)
  }

  /** The player delivers prepare-completed to the handler only while it is
      attached; with no player there is nothing to deliver. */
  function DeliverPrepared(s: State): (r: State)
    ensures s.player.Some? && s.preparedSubscribed ==>
      r.player == Some(Rewound) && r.image == EnableImage(s.image) && !r.preparedSubscribed
    ensures !(s.player.Some? && s.preparedSubscribed) ==> r == s
  {
    if s.player.Some? && s.preparedSubscribed then OnVideoPrepared(s) else s
  }

  /** The player delivers loop-point-reached whenever it exists (the
      handler is attached at start and never detached). */
  function DeliverFinished(s: State): State
  {
    if s.player.Some? then OnVideoFinished(s) else s
  }

  function Step(s: State, e: Event): State
  {
    match e
    case PointerEnter => OnPointerEnter(s)
    case PointerClick => OnPointerClick(s)
    case PointerExit => OnPointerExit(s)
    case PrepareCompleted => DeliverPrepared(s)
    case LoopPointReached => DeliverFinished(s)
  }

  function Run(s: State, es: seq<Event>): State
    decreases |es|
  {
    if es == [] then s else Run(Step(s, es[0]), es[1..])
  }

  // ----- Properties -----

  /** Two clicks give back the player exactly as it was. */
  lemma ClickTwiceRestoresPlayer(s: State)
    ensures OnPointerClick(OnPointerClick(s)).player == s.player
  {
  }

  /** The state after `n` clicks. */
  function ClickTimes(s: State, n: nat): State
    decreases n
  {
    if n == 0 then s else OnPointerClick(ClickTimes(s, n - 1))
  }

  /** Leaving the tile forgets how often it was clicked: exiting after any
      number of clicks gives the same state as exiting at once. */
  lemma {:induction false} ExitForgetsClicks(s: State, n: nat)
    ensures OnPointerExit(ClickTimes(s, n)) == OnPointerExit(s)
    decreases n
  {
    if n > 0 {
      ExitForgetsClicks(s, n - 1);
    }
  }

  /** Once started with a player, the first prepare-completed delivery
      rewinds and pauses it, and a second delivery changes nothing. */
  lemma StartThenPrepared(s: State)
    requires s.player.Some?
    ensures DeliverPrepared(Start(s)).player == Some(Rewound)
    ensures !DeliverPrepared(Start(s)).preparedSubscribed
    ensures DeliverPrepared(DeliverPrepared(Start(s))) == DeliverPrepared(Start(s))
  {
  }

  /** The preparation handler takes effect at most once. */
  lemma PreparedAtMostOnce(s: State)
    ensures DeliverPrepared(DeliverPrepared(s)) == DeliverPrepared(s)
  {
  }

  /** Every handler either leaves the image flag alone or enables it. */
  lemma StepNeverDisablesImage(s: State, e: Event)
    ensures Step(s, e).image.Some? <==> s.image.Some?
    ensures Step(s, e).image == s.image || Step(s, e).image == Some(true)
  {
  }

  /** No sequence of events disables the image: a disabled image after the
      run was already disabled before it, and an enabled one stays enabled. */
  lemma {:induction false} ImageNeverDisabled(s: State, es: seq<Event>)
    ensures Run(s, es).image.Some? <==> s.image.Some?
    ensures Run(s, es).image == Some(false) ==> s.image == Some(false)
    ensures s.image == Some(true) ==> Run(s, es).image == Some(true)
    decreases |es|
  {
    if es != [] {
      StepNeverDisablesImage(s, es[0]);
      ImageNeverDisabled(Step(s, es[0]), es[1..]);
    }
  }

  /** Finding: with no RawImage assigned the handler as written throws,
      after it has already rewound and paused the player. */
  lemma FinishedWithoutImageThrows()
    ensures OnVideoFinishedAsWritten(State(Some(Player(true, 120)), None, false))
      == NullReference(State(Some(Rewound), None, false))
  {
  }

  /** With an image assigned the handler as written and the guarded one
      agree; without one only the guarded one completes. */
  lemma FinishedGuardAgrees(s: State)
    requires s.player.Some?
    ensures s.image.Some? ==> OnVideoFinishedAsWritten(s) == Done(OnVideoFinished(s))
    ensures s.image.None? ==> OnVideoFinishedAsWritten(s).state == OnVideoFinished(s)
  {
  }
}
