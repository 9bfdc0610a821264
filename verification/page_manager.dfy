/**
 * The rule-page navigator: a row of page GameObjects of which the current
 * one is shown, previous/next/home/skip buttons, and a video that can be
 * played over the current page and ended by skipping or by reaching its end.
 */
module PageManager {
  import opened VideoPlayback

  /** `active[i]` is page i's active flag; the `...Shown` fields are the
      active flags of the buttons' GameObjects. */
  datatype State = State(
    active: seq<bool>,
    index: int,
    previousShown: bool,
    nextShown: bool,
    homeShown: bool,
    skipShown: bool,
    video: Player)

  /** The buttons a user can press, plus the video reaching its end. */
  datatype Action = Next | Previous | PlayVideo | Skip | Finished

  predicate InBounds(s: State) {
    0 <= s.index < |s.active|
  }

  /** Page i is active exactly when it is the current page. */
  predicate OnlyCurrentActive(s: State) {
    forall i :: 0 <= i < |s.active| ==> s.active[i] == (i == s.index)
  }

  /** Previous is shown off the first page, next off the last page. */
  predicate ButtonsFollowIndex(s: State) {
    && s.previousShown == (s.index != 0)
    && s.nextShown == (s.index != |s.active| - 1)
  }

  /** Number of active pages. */
  function CountActive(a: seq<bool>): nat
  {
    if a == [] then 0 else (if a[0] then 1 else 0) + CountActive(a[1..])
  }

  /** Activates the current page and deactivates every other one; nothing
      but the page flags changes. */
  function UpdatePages(s: State): (r: State)
    ensures |r.active| == |s.active|
    ensures OnlyCurrentActive(r)
    ensures r == s.(active := r.active)
  {
    s.(active := seq(|s.active|, i => i == s.index))
  }

  /** Sets the previous/next buttons from the index; nothing else changes. */
  function UpdateButtons(s: State): (r: State)
    ensures ButtonsFollowIndex(r)
    ensures r == s.(previousShown := r.previousShown, nextShown := r.nextShown)
  {
    s.(previousShown := s.index != 0, nextShown := s.index != |s.active| - 1)
  }

  /** Scene start: `currentPageIndex` is still its initial 0. */
  function Start(s: State): (r: State)
    requires s.index == 0
    ensures r.index == 0 && |r.active| == |s.active|
    ensures OnlyCurrentActive(r) && ButtonsFollowIndex(r)
    ensures !r.skipShown
    ensures r.homeShown == s.homeShown && r.video == s.video
  {
    UpdateButtons(UpdatePages(s)).(skipShown := false)
  }

  /** Moves to the following page unless already on the last one. */
  function ShowNextPage(s: State): (r: State)
    ensures |r.active| == |s.active|
    ensures s.index >= |s.active| - 1 ==> r == s
    ensures s.index < |s.active| - 1 ==>
      && r.index == s.index + 1
      && OnlyCurrentActive(r) && ButtonsFollowIndex(r)
      && r.homeShown == s.homeShown && r.skipShown == s.skipShown
      && r.video == s.video
  {
    if s.index < |s.active| - 1 then
      UpdateButtons(UpdatePages(s.(index := s.index + 1)))
    else
      s
  }

  /** Moves to the preceding page unless already on the first one. */
  function ShowPreviousPage(s: State): (r: State)
    ensures |r.active| == |s.active|
    ensures s.index <= 0 ==> r == s
    ensures s.index > 0 ==>
      && r.index == s.index - 1
      && OnlyCurrentActive(r) && ButtonsFollowIndex(r)
      && r.homeShown == s.homeShown && r.skipShown == s.skipShown
      && r.video == s.video
  {
    if s.index > 0 then
      UpdateButtons(UpdatePages(s.(index := s.index - 1)))
    else
      s
  }

  /** Sets the frame to 0, then pauses: whatever the player was doing,
      it ends paused on the first frame. */
  function ResetVideo(v: Player): (r: Player)
    ensures r == Rewound
  {
    Pause(Rewind(v))
  }

  /** Hides the current page, previous and home, shows skip and plays the
      video from its first frame. The next button is left as it was. */
  function PlayVideo(s: State): (r: State)
    requires InBounds(s)
    ensures r.index == s.index && |r.active| == |s.active|
    ensures !r.active[s.index]
    ensures forall i :: 0 <= i < |s.active| && i != s.index ==> r.active[i] == s.active[i]
    ensures !r.previousShown && !r.homeShown && r.skipShown
    ensures r.nextShown == s.nextShown
    ensures r.video.playing && r.video.frame == 0
  {
    var reset := s.(video := ResetVideo(s.video));
    reset.(active := reset.active[s.index := false],
           previousShown := false,
           homeShown := false,
           skipShown := true,
           video := Play(reset.video))
  }

  /** What ending the video leaves behind: the current page shown again,
      home shown, skip hidden, previous/next set from the index, the video
      paused on its first frame, and no other page touched. */
  predicate EndedVideo(s: State, r: State)
    requires InBounds(s)
  {
    && r.index == s.index && |r.active| == |s.active|
    && r.active[s.index]
    && (forall i :: 0 <= i < |s.active| && i != s.index ==> r.active[i] == s.active[i])
    && r.homeShown && !r.skipShown && ButtonsFollowIndex(r)
    && r.video == Rewound
  }

  /** Common tail of skipping and of the video finishing. */
  function EndVideo(s: State): (r: State)
    requires InBounds(s)
    ensures EndedVideo(s, r)
  {
    var reset := s.(video := ResetVideo(s.video));
    var shown := reset.(active := reset.active[s.index := true], homeShown := true);
    UpdateButtons(shown).(skipShown := false)
  }

  /** Handler of the player's loop-point-reached event. */
  function OnVideoFinished(s: State): (r: State)
    requires InBounds(s)
    ensures EndedVideo(s, r)
  {
    EndVideo(s)
  }

  /** Handler of the skip button. */
  function SkipVideo(s: State): (r: State)
    requires InBounds(s)
    ensures EndedVideo(s, r)
  {
    EndVideo(s)
  }

  function Step(s: State, a: Action): (r: State)
    requires InBounds(s)
    ensures InBounds(r) && |r.active| == |s.active|
  {
    match a
    case Next => ShowNextPage(s)
    case Previous => ShowPreviousPage(s)
    case PlayVideo => PlayVideo(s)
    case Skip => SkipVideo(s)
    case Finished => OnVideoFinished(s)
  }

  /** Any sequence of actions keeps the index on an existing page and
      never changes the number of pages. */
  function Run(s: State, acts: seq<Action>): (r: State)
    requires InBounds(s)
    ensures InBounds(r) && |r.active| == |s.active|
    decreases |acts|
  {
    if acts == [] then s else Run(Step(s, acts[0]), acts[1..])
  }

  /** The display invariant. While the skip button is hidden the current
      page is the only active one and the buttons follow the index; while
      it is shown the video is playing, home is hidden and at most the
      current page is active. */
  predicate Consistent(s: State) {
    && InBounds(s)
    && (forall i :: 0 <= i < |s.active| && i != s.index ==> !s.active[i])
    && (s.skipShown ==> s.video.playing && !s.homeShown)
    && (!s.skipShown ==> s.active[s.index] && ButtonsFollowIndex(s))
  }

  // ----- Properties -----

  lemma {:induction false} CountOnlyAt(a: seq<bool>, k: int)
    requires forall i :: 0 <= i < |a| ==> a[i] == (i == k)
    ensures 0 <= k < |a| ==> CountActive(a) == 1
    ensures !(0 <= k < |a|) ==> CountActive(a) == 0
    decreases |a|
  {
    if a != [] {
      CountOnlyAt(a[1..], k - 1);
    }
  }

  /** After UpdatePages exactly one page is active when the index is on a
      page, and none otherwise. */
  lemma UpdatePagesActivatesOne(s: State)
    ensures InBounds(s) ==> CountActive(UpdatePages(s).active) == 1
    ensures !InBounds(s) ==> CountActive(UpdatePages(s).active) == 0
  {
    var r := UpdatePages(s);
    CountOnlyAt(r.active, s.index);
  }

  /** Each navigation button is shown exactly when pressing it would
      change the page. */
  lemma ButtonsMatchNavigation(s: State)
    requires InBounds(s)
    ensures UpdateButtons(s).previousShown <==> ShowPreviousPage(s).index != s.index
    ensures UpdateButtons(s).nextShown <==> ShowNextPage(s).index != s.index
  {
  }

  /** Next then previous returns to the same page, and to the very same
      state when the display was consistent with the index. */
  lemma NextThenPrevious(s: State)
    requires 0 <= s.index < |s.active| - 1
    ensures ShowPreviousPage(ShowNextPage(s)).index == s.index
    ensures OnlyCurrentActive(s) && ButtonsFollowIndex(s) ==>
      ShowPreviousPage(ShowNextPage(s)) == s
  {
  }

  /** Previous then next returns to the same page, symmetrically. */
  lemma PreviousThenNext(s: State)
    requires 0 < s.index < |s.active|
    ensures ShowNextPage(ShowPreviousPage(s)).index == s.index
    ensures OnlyCurrentActive(s) && ButtonsFollowIndex(s) ==>
      ShowNextPage(ShowPreviousPage(s)) == s
  {
  }

  /** Skipping and finishing reach the same state. */
  lemma SkipAndFinishAgree(s: State)
    requires InBounds(s)
    ensures SkipVideo(s) == OnVideoFinished(s)
    ensures EndedVideo(s, SkipVideo(s))
  {
  }

  /** Ending the video a second time changes nothing. */
  lemma EndVideoIdempotent(s: State)
    requires InBounds(s)
    ensures EndVideo(EndVideo(s)) == EndVideo(s)
  {
  }

  /** Playing and then ending the video from a settled page gives back the
      page as it was, with home shown and the video rewound. */
  lemma PlayThenEndRestores(s: State)
    requires Consistent(s) && !s.skipShown
    ensures EndVideo(PlayVideo(s)) == s.(homeShown := true, video := Rewound)
  {
  }

  /** The next button stays visible during playback, and pressing it
      activates a page and shows previous while the video keeps playing
      with skip shown and home hidden. */
  lemma NavigationDuringPlayback(s: State)
    requires Consistent(s) && !s.skipShown && s.index < |s.active| - 1
    ensures PlayVideo(s).nextShown
    ensures
      var q := ShowNextPage(PlayVideo(s));
      q.active[q.index] && q.previousShown && q.skipShown && !q.homeShown && q.video.playing
  {
  }

  lemma StartIsConsistent(s: State)
    requires s.index == 0 && |s.active| >= 1
    ensures Consistent(Start(s))
  {
  }

  lemma StepPreservesConsistent(s: State, a: Action)
    requires Consistent(s)
    ensures Consistent(Step(s, a))
  {
  }

  /** Every state reachable from a consistent one is consistent. */
  lemma {:induction false} RunPreservesConsistent(s: State, acts: seq<Action>)
    requires Consistent(s)
    ensures Consistent(Run(s, acts))
    decreases |acts|
  {
    if acts != [] {
      StepPreservesConsistent(s, acts[0]);
      RunPreservesConsistent(Step(s, acts[0]), acts[1..]);
    }
  }

  /** From scene start, whatever the user does, exactly one page is active
      whenever no video is being played over the pages. */
  lemma OnePageOutsidePlayback(s: State, acts: seq<Action>)
    requires s.index == 0 && |s.active| >= 1
    ensures
      var r := Run(Start(s), acts);
      !r.skipShown ==> OnlyCurrentActive(r) && CountActive(r.active) == 1
  {
    StartIsConsistent(s);
    RunPreservesConsistent(Start(s), acts);
    var r := Run(Start(s), acts);
    if !r.skipShown {
      CountOnlyAt(r.active, r.index);
    }
  }
}
