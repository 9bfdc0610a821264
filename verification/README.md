# VR-Museum UI state machines in Dafny

This project models the small state machines of the VR-Museum Unity app that decide which pieces of UI are visible. The engine is not part of the model. GameObjects, buttons, scripts and video players become boolean flags and an abstract player (playing or paused, plus a frame number). Each handler becomes a pure transition function.

- `PageManager` (`page_manager.dfy`) is the rule-page navigator. It has a page index, one active flag per page, and previous/next/home/skip buttons. A video can be played over the current page and ended by skipping or by reaching its end.
- `GameModeManager` (`game_mode_manager.dfy`) holds the two-valued `GameMode` chosen on the home page, the two setter buttons, and a singleton registration in which the newest manager wins.
- `SwapModeManager` (`swap_mode_manager.dfy`) switches on scene start-up. The registered manager's mode decides which of seven optional components are enabled or active. An unassigned component is skipped.
- `VideoPlayerController` (`video_player_controller.dfy`) is a gaze-and-click video tile: a click starts or pauses playback and leaving the tile stops it. It is driven by pointer enter, click and exit, plus the player's prepare-completed and loop-point-reached events.
- `AudioManager` (`audio_manager.dfy`) is a singleton registration in which the first manager wins.
- The shared pieces are `Wrappers` (Option), `VideoPlayback` (the abstract player) and `Singleton` (the `Instance` field plus the set of destroyed objects).

Two quirks of the page navigator are kept as written:
- `PlayVideo` leaves the next button as it was, so it stays visible on every page but the last.
- Pressing next during playback reactivates a page through `UpdatePages` and shows the previous button again, while the video keeps playing.

`PageManager.NavigationDuringPlayback` states both.

## Model

| member | source | states |
|---|---|---|
| `PageManager.UpdatePages` | Assets/Scripts/Rule/PageManager.cs:75-81 | page i is active iff i is the current index; index, buttons and video are untouched |
| `PageManager.UpdatePagesActivatesOne` | Assets/Scripts/Rule/PageManager.cs:75-81 | after UpdatePages exactly one page is active when the index is on a page, and none when it is not |
| `PageManager.UpdateButtons` | Assets/Scripts/Rule/PageManager.cs:87-91 | previous is shown off the first page and next off the last page; nothing else changes |
| `PageManager.ButtonsMatchNavigation` | Assets/Scripts/Rule/PageManager.cs:48-91 | each navigation button is shown exactly when pressing it would change the page |
| `PageManager.Start` | Assets/Scripts/Rule/PageManager.cs:29-36 | from the initial index 0, only the first page is active, the buttons follow the index, skip is hidden, and home and the video are untouched |
| `PageManager.ShowNextPage` | Assets/Scripts/Rule/PageManager.cs:48-56 | on the last page the whole state is unchanged; otherwise the index moves up by one, only that page is active, the buttons follow it, and home/skip/video are unchanged |
| `PageManager.ShowPreviousPage` | Assets/Scripts/Rule/PageManager.cs:61-69 | on the first page the whole state is unchanged; otherwise the index moves down by one, with the same page, button and "nothing else" guarantees |
| `PageManager.NextThenPrevious` | Assets/Scripts/Rule/PageManager.cs:48-69 | below the last page, next then previous restores the index, and restores the whole state when pages and buttons matched the index |
| `PageManager.PreviousThenNext` | Assets/Scripts/Rule/PageManager.cs:48-69 | above the first page, previous then next restores the index, and the whole state under the same condition |
| `PageManager.ResetVideo` | Assets/Scripts/Rule/PageManager.cs:96-100 | whatever the player was doing, it ends paused on frame 0 |
| `PageManager.PlayVideo` | Assets/Scripts/Rule/PageManager.cs:107-124 | deactivates the current page only, hides previous and home, shows skip, plays from frame 0, and leaves next and the index as they were |
| `PageManager.EndVideo` | Assets/Scripts/Rule/PageManager.cs:143-159 | reactivates the current page only, shows home, hides skip, sets previous/next from the index, and pauses the video on frame 0 |
| `PageManager.OnVideoFinished` | Assets/Scripts/Rule/PageManager.cs:131-134 | the video reaching its end reactivates the current page only, shows home, hides skip, sets previous/next from the index, and pauses the video on frame 0 |
| `PageManager.SkipVideo` | Assets/Scripts/Rule/PageManager.cs:166-169 | the skip button leaves the same outcome as the video reaching its end: current page active, home shown, skip hidden, buttons from the index, video paused on frame 0 |
| `PageManager.SkipAndFinishAgree` | Assets/Scripts/Rule/PageManager.cs:131-169 | the skip button and the video reaching its end produce the same state, which is the state described for EndVideo |
| `PageManager.EndVideoIdempotent` | Assets/Scripts/Rule/PageManager.cs:143-159 | ending the video twice gives the same state as ending it once |
| `PageManager.PlayThenEndRestores` | Assets/Scripts/Rule/PageManager.cs:107-159 | playing and then ending the video on a settled page gives back that page with home shown and the video rewound |
| `PageManager.NavigationDuringPlayback` | Assets/Scripts/Rule/PageManager.cs:48-124 | next stays visible during playback; pressing it activates a page and shows previous while skip stays shown, home stays hidden and the video keeps playing |
| `PageManager.Run` | Assets/Scripts/Rule/PageManager.cs:27-169 | from an index on a page, any sequence of next/previous/play/skip/finish keeps the index in [0, pages-1] and keeps the page count |
| `PageManager.StartIsConsistent` | Assets/Scripts/Rule/PageManager.cs:29-36 | with at least one page, start-up establishes the display invariant |
| `PageManager.StepPreservesConsistent` | Assets/Scripts/Rule/PageManager.cs:48-169 | every handler preserves the display invariant: outside playback only the current page is active and the buttons follow the index; during playback the video plays, home is hidden and no other page is active |
| `PageManager.RunPreservesConsistent` | Assets/Scripts/Rule/PageManager.cs:48-169 | every state reachable from a consistent one is consistent |
| `PageManager.OnePageOutsidePlayback` | Assets/Scripts/Rule/PageManager.cs:29-169 | from start-up, after any user actions, exactly one page is active whenever the skip button is hidden |
| `VideoPlayback.RewindPauseCommute` | Assets/Scripts/Rule/PageManager.cs:96-100 | rewinding then pausing and pausing then rewinding both end paused on frame 0, so ResetVideo and StopAndHide reach the same player state |
| `GameModeManager.Create` | Assets/Scripts/GameModeManager.cs:14 | a new manager starts in MobileMode; no other manager and not the registry is affected |
| `GameModeManager.Awake` | Assets/Scripts/GameModeManager.cs:16-27 | afterwards Instance is this manager; a different previous instance is destroyed; re-registration by the current instance, or registration into an empty slot, destroys nothing |
| `GameModeManager.SetToVRMode` | Assets/Scripts/GameModeManager.cs:30-33 | the manager's mode becomes VRMode whatever it was; other managers and Instance are unchanged |
| `GameModeManager.SetToMobileMode` | Assets/Scripts/GameModeManager.cs:35-38 | the manager's mode becomes MobileMode whatever it was; other managers and Instance are unchanged |
| `GameModeManager.InstanceMode` | Assets/Scripts/GameModeManager.cs:11-14 | the mode read through Instance is present iff a manager is registered, and is that manager's CurrentMode |
| `GameModeManager.SettersIdempotent` | Assets/Scripts/GameModeManager.cs:30-38 | pressing either setter twice is the same as pressing it once |
| `GameModeManager.CreatedManagerIsMobile` | Assets/Scripts/GameModeManager.cs:14-25 | a freshly created manager that wakes up is the instance, and scenes read MobileMode from it |
| `GameModeManager.SetterReachesInstance` | Assets/Scripts/GameModeManager.cs:30-38 | a setter pressed on the registered instance is the mode read through Instance |
| `GameModeManager.NewestWins` | Assets/Scripts/GameModeManager.cs:16-27 | when distinct managers wake in turn, the last is the instance, and the earlier instance and every earlier newcomer have been destroyed |
| `SwapModeManager.Awake` | Assets/Scripts/SwapModeManager.cs:24-57 | with no manager nothing changes; in VRMode the three VR components are on and the four mobile ones off, and the reverse in MobileMode; unassigned components stay unassigned |
| `SwapModeManager.MobileMirrorsVr` | Assets/Scripts/SwapModeManager.cs:30-51 | for each assigned component, the MobileMode flag is the negation of the VRMode flag |
| `SwapModeManager.SidesExclusive` | Assets/Scripts/SwapModeManager.cs:30-51 | in either mode, every assigned VR-side flag is the negation of every assigned mobile-side flag |
| `SwapModeManager.UnassignedSkipped` | Assets/Scripts/SwapModeManager.cs:32-50 | leaving a component unassigned removes only that component from the result and changes no other flag |
| `SwapModeManager.DependsOnlyOnMode` | Assets/Scripts/SwapModeManager.cs:28-51 | the resulting flags depend only on the mode and on which components are assigned, not on their prior values |
| `SwapModeManager.AwakeIdempotent` | Assets/Scripts/SwapModeManager.cs:24-57 | running start-up twice gives the same flags as running it once |
| `SwapModeManager.SceneFollowsManager` | Assets/Scripts/SwapModeManager.cs:28-40 | after the VR setter on the registered manager, a scene switches its VR components on and its mobile components off |
| `SwapModeManager.NoManagerNoChange` | Assets/Scripts/SwapModeManager.cs:28-56 | with no registered manager, no component flag changes |
| `VideoPlayerController.Start` | Assets/Scripts/VideoPlayerController.cs:12-31 | with a player assigned, the prepare-completed handler is attached; without one nothing changes |
| `VideoPlayerController.OnVideoPrepared` | Assets/Scripts/VideoPlayerController.cs:33-46 | ends paused on frame 0, enables an assigned image, and detaches itself |
| `VideoPlayerController.DeliverPrepared` | Assets/Scripts/VideoPlayerController.cs:28-45 | while the handler is attached to an assigned player, a delivery rewinds and pauses the player, enables an assigned image and detaches the handler; otherwise it changes nothing |
| `VideoPlayerController.PreparedAtMostOnce` | Assets/Scripts/VideoPlayerController.cs:33-46 | a second prepare-completed delivery changes nothing |
| `VideoPlayerController.OnVideoFinishedAsWritten` | Assets/Scripts/VideoPlayerController.cs:48-53 | as written: ends paused on frame 0, and throws a null reference exactly when no image is assigned |
| `VideoPlayerController.OnVideoFinished` | Assets/Scripts/VideoPlayerController.cs:48-53 | with the null test added: ends paused on frame 0, enables an assigned image, and leaves the prepare subscription alone |
| `VideoPlayerController.FinishedWithoutImageThrows` | Assets/Scripts/VideoPlayerController.cs:48-53 | a playing player reaching its end with no image assigned throws after rewinding and pausing |
| `VideoPlayerController.FinishedGuardAgrees` | Assets/Scripts/VideoPlayerController.cs:48-53 | with an image assigned the as-written and guarded handlers agree; without one they reach the same state, but only the guarded one completes |
| `VideoPlayerController.ShowAndPlayVideo` | Assets/Scripts/VideoPlayerController.cs:55-74 | an assigned player flips between playing and paused and keeps its frame; an assigned image is enabled |
| `VideoPlayerController.StopAndHide` | Assets/Scripts/VideoPlayerController.cs:76-88 | an assigned player ends paused on frame 0; an assigned image is enabled, not hidden |
| `VideoPlayerController.OnPointerClick` | Assets/Scripts/VideoPlayerController.cs:95-99 | an assigned player flips between playing and paused and keeps its frame; an assigned image is enabled; the prepare subscription is kept |
| `VideoPlayerController.OnPointerExit` | Assets/Scripts/VideoPlayerController.cs:101-105 | an assigned player ends paused on frame 0; an assigned image is enabled; the prepare subscription is kept |
| `VideoPlayerController.OnPointerEnter` | Assets/Scripts/VideoPlayerController.cs:90-93 | the state is returned unchanged |
| `VideoPlayerController.ClickTwiceRestoresPlayer` | Assets/Scripts/VideoPlayerController.cs:64-72 | two clicks give back the player's playing flag and frame exactly |
| `VideoPlayerController.ExitForgetsClicks` | Assets/Scripts/VideoPlayerController.cs:64-105 | exiting after any number of clicks gives the same state as exiting at once: leaving the tile forgets the play/pause history |
| `VideoPlayerController.StartThenPrepared` | Assets/Scripts/VideoPlayerController.cs:17-46 | after start-up with a player, the first prepare-completed delivery rewinds and pauses it and detaches the handler, and a second delivery changes nothing |
| `VideoPlayerController.StepNeverDisablesImage` | Assets/Scripts/VideoPlayerController.cs:33-105 | every handler keeps the image assigned or unassigned, and either leaves its flag alone or enables it |
| `VideoPlayerController.ImageNeverDisabled` | Assets/Scripts/VideoPlayerController.cs:33-105 | after any sequence of events an enabled image is still enabled, and a disabled one was disabled from the start |
| `AudioManager.Awake` | Assets/Scripts/AudioManager.cs:14-27 | with no instance, this manager is registered and nothing is destroyed; otherwise Instance is unchanged and this manager is destroyed |
| `AudioManager.FirstStays` | Assets/Scripts/AudioManager.cs:17-26 | once registered, Instance is never replaced or cleared, and every manager that wakes later is destroyed |
| `AudioManager.FirstWins` | Assets/Scripts/AudioManager.cs:17-26 | starting with no instance, the first manager to wake is registered for good and all later ones are destroyed |
| `AudioManager.RepeatedAwakeDestroysInstance` | Assets/Scripts/AudioManager.cs:17-26 | with no `Instance != this` test, a second wake-up of the registered manager destroys it while it stays registered |

## Left out

- Page references and component references are assumed to be distinct objects. Each page slot has its own flag, and each of the seven start-up components has its own map key. In the source, a GameObject listed twice in `pages`, or one Button assigned to two roles (say `reverse` and `BackToMenu`), takes the later write in source order. For example, pages [P, Q, P] at index 0 leave P hidden after `Start`. `PageManager.OnePageOutsidePlayback` and `SwapModeManager.SidesExclusive` do not cover such duplicates.
- Null button, page and video-player references in the page navigator are not modelled. The source dereferences them without a test, so they are assumed assigned.
- PageManager.PlayVideo and PageManager.EndVideo require the index to be on a page. The source indexes `pages[currentPageIndex]` unguarded and throws on an empty page list. With at least one page, `Run` shows that the index never leaves the list.
- The page navigator treats the video reaching its end as an action. The event subscription in `Start` is not modelled, and neither is the case of an unassigned player.
- Playback progress is not modelled: frames advancing while playing, `Prepare()`, `playOnAwake` and `waitForFirstFrame` are all engine behaviour.
- VideoPlayerController.DeliverFinished delivers the end event whenever a player is assigned, even in states before `Start` has attached the handler (line 24). This over-approximates the source, which delivers it only after `Start`. The model never reassigns the player reference.
- VideoPlayerController.DeliverFinished calls the guarded `OnVideoFinished`, not the handler as written at line 52. So `Run`, `StepNeverDisablesImage` and `ImageNeverDisabled` describe the corrected handler. Without an image the as-written handler throws, but it reaches the same state (`FinishedGuardAgrees`), and Unity logs an exception thrown from a callback and carries on.
- Unity's destroyed-object equality is not modelled: a destroyed object compares equal to null in Unity. Also, destruction happens at the end of the frame. The registry keeps the reference literally, and destroyed objects are only recorded.
- `DontDestroyOnLoad`, `Debug.Log` and script lifecycle ordering are engine behaviour.
- GameModeManager.Create uses the field initializer, MobileMode. `CurrentMode` is a public serialized field, so a value saved with the scene would override it; scene data is not modelled.
- `GameMode` values outside the two declared enum members are not modelled. C# allows such values, and the source's if/else-if chain would then change nothing.
- The VR and mobile controllers and reticle pointers appear only as an `enabled` flag. Their gaze, raycast, gyroscope and mesh code is engine and floating-point work.
- The old VR mode controller, the video preparation controller, the home video looper and the scene loader are not part of this model. They are coroutines, timers, SDK calls or one-line engine calls.
- The audio manager's `bgMusic` source is not modelled; `Awake` does not use it.

## Findings

| source | as written | input that shows it | evidently intended | confidence | as-written member | corrected member |
|---|---|---|---|---|---|---|
| Assets/Scripts/VideoPlayerController.cs:52 | the end-of-video handler sets `displayImage.enabled = true` without a null test, unlike the handlers at lines 39, 57 and 84 | a tile whose RawImage is unassigned and whose video reaches its loop point: the handler throws a null reference exception after rewinding and pausing | enable the image only when it is assigned, as the other handlers do | low; not executed | `VideoPlayerController.OnVideoFinishedAsWritten` (exhibited by `VideoPlayerController.FinishedWithoutImageThrows`) | `VideoPlayerController.OnVideoFinished` |
