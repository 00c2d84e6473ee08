# Sleep timer of KMedia, modelled in Dafny

This project models the sleep timer of the KMedia playback library and the tab of the sample
app that displays and drives it.

The controller (`DefaultSleepTimerController`) owns two things:
- a published `SleepTimerState`: the mode (OFF, DURATION or CURRENT_TRACK_END), the requested
  duration, the remaining time and the track the timer is anchored to;
- a single timer-job slot.

`start(d)` clamps `d` to at least 1000 ms and runs a countdown that ticks every
`min(1000, remaining)` ms. `startUntilCurrentTrackEnd()` anchors the timer to the current track
and polls every 400 ms. Both expire through `onTimerExpired`:
- It fades the volume out in 20 linear steps, 125 ms apart, when playback is audible.
- It pauses playback when it runs to the end. A cancelled expiry never pauses.
- It sets the original volume back after a fade, on the normal exit and on a cancelled one.
- It clears state and slot only if the expiring job still owns the slot.

The tab shows the remaining time as `MM:SS` or `HH:MM:SS`, a status sentence, and five duration
presets plus "End of current track". It highlights the row that matches the state.

Files and modules:
- `sleep_timer.dfy` (`SleepTimer`): the state, the playback snapshot, the commands, the
  constants, and the pure arithmetic of countdown, track-end poll and fade. The expiry is written
  as a timeline of controller calls and delays.
- `sleep_timer_expiry.dfy` (`SleepTimerExpiry`): what expiry issues on each exit.
- `sleep_timer_machine.dfy` (`SleepTimerMachine`): the controller as a state machine on values.
  Every launched coroutine is a `Job` with a phase and a cancelled flag; the slot is an optional job
  id; `setVolume`/`pause` calls are appended to a log. Each operation and each iteration of a timer
  loop is one transition, so interleavings are sequences of transitions. The invariant `Valid` says:
  OFF clears every field, the slot is empty exactly when OFF, the job in the slot matches the state,
  and no other job is live.
- `sleep_timer_machine_props.dfy` (`SleepTimerMachineProps`): the controller's promises, proved
  about the machine.
- `sleep_timer_controller.dfy` (`SleepTimerController`): the class `DefaultSleepTimerController`,
  whose methods update its fields in place. The tick loops and the fade loop are `while` loops.
  Each operation and each single loop iteration is proved against the machine transition of the
  same name. `RunDurationTimer` and `RunUntilCurrentTrackEnd` are proved against `RunDuration` and
  `RunUntilTrackEnd`, and `FadeAndPause` against `ExpiryCommands`.
- `sleep_timer_tab.dfy`, `sleep_timer_tab_props.dfy` (`SleepTimerTab`, `SleepTimerTabProps`): label,
  status text, presets, selection and clicks, with their properties.

Three behaviours of the code a reader might not expect:
- A track whose position is past its duration has 0 ms remaining, not an unknown remaining time
  (`coerceAtLeast(0L)` at shared/src/commonMain/kotlin/io/github/moonggae/kmedia/sleep/SleepTimerController.kt:188).
- The fade has 20 volume steps but only 19 delays, so it lasts 2375 ms, not 2500 ms
  (shared/src/commonMain/kotlin/io/github/moonggae/kmedia/sleep/SleepTimerController.kt:150-158). `SleepTimerExpiry.FadeTiming` proves this is still within the 2500 ms track-end
  margin.
- On a cancelled fade the original volume is set twice, once in `catch` and once in `finally`
  (shared/src/commonMain/kotlin/io/github/moonggae/kmedia/sleep/SleepTimerController.kt:163-171).

## Model

| member | source | states |
|---|---|---|
| SleepTimer.NormalizedDuration | shared/src/commonMain/kotlin/io/github/moonggae/kmedia/sleep/SleepTimerController.kt:57 | the requested duration is raised to at least 1000 ms and kept otherwise: the result is at least both and equals one of them |
| SleepTimer.DurationRemaining | shared/src/commonMain/kotlin/io/github/moonggae/kmedia/sleep/SleepTimerController.kt:97-98 | remaining countdown time is never negative, is 0 exactly when elapsed reaches the duration, and otherwise adds up with elapsed to the duration |
| SleepTimer.NextTickDelay | shared/src/commonMain/kotlin/io/github/moonggae/kmedia/sleep/SleepTimerController.kt:113 | the sleep before the next tick is at most 1000 ms and never longer than the remaining time, so the last tick falls on expiry |
| SleepTimer.RemainingTrackTime | shared/src/commonMain/kotlin/io/github/moonggae/kmedia/sleep/SleepTimerController.kt:180-189 | unknown exactly when duration is not positive or unset, or position is negative or unset; otherwise between 0 and the duration, position plus it is the duration inside the track, and 0 past the end |
| SleepTimer.Clamp01 | shared/src/commonMain/kotlin/io/github/moonggae/kmedia/sleep/SleepTimerController.kt:145 | the captured volume is clamped into [0, 1] and unchanged inside it |
| SleepTimerExpiry.ShouldFadeIff | shared/src/commonMain/kotlin/io/github/moonggae/kmedia/sleep/SleepTimerController.kt:144-146 | `ShouldFade`: expiry fades exactly when playback is not muted and the volume is above 0.01; clamping into [0, 1] never changes that decision |
| SleepTimerExpiry.CallsOfFade | shared/src/commonMain/kotlin/io/github/moonggae/kmedia/sleep/SleepTimerController.kt:150-159 | the controller calls of the fade timeline are exactly its volume commands |
| SleepTimerExpiry.SleepsOfFade | shared/src/commonMain/kotlin/io/github/moonggae/kmedia/sleep/SleepTimerController.kt:151-158 | n fade steps are separated by n - 1 delays of 125 ms |
| SleepTimerExpiry.FadeCommandsAt | shared/src/commonMain/kotlin/io/github/moonggae/kmedia/sleep/SleepTimerController.kt:151-154 | fade step i sets the i-th fade volume, and there is one command per step |
| SleepTimerExpiry.ExpiryCommandsForm | shared/src/commonMain/kotlin/io/github/moonggae/kmedia/sleep/SleepTimerController.kt:142-177 | `ExpiryCommands`: the calls of an expiry per exit: pause alone without fade; 20 fade volumes, pause, restore when it runs to the end; k + 1 fade volumes and two restores when cancelled after step k |
| SleepTimerExpiry.ExpiryDelays | shared/src/commonMain/kotlin/io/github/moonggae/kmedia/sleep/SleepTimerController.kt:148-171 | `ExpiryEffects`: an expiry waits only between fade steps (no delay without a fade, nineteen 125 ms delays to the end, k when cancelled after step k) and ends with a controller call |
| SleepTimerExpiry.FadeVolumeAt | shared/src/commonMain/kotlin/io/github/moonggae/kmedia/sleep/SleepTimerController.kt:150-153 | for an audible volume v there are 20 steps, step i sets v * (1 - (i + 1) / 20), which is in [0, v) and is 0 only at the last step |
| SleepTimerExpiry.FadeVolumeScales | shared/src/commonMain/kotlin/io/github/moonggae/kmedia/sleep/SleepTimerController.kt:152-153 | `FadeVolume`: from any volume v in [0, 1], step i sets v times the level it sets from full volume, which lies in [0, v] |
| SleepTimerExpiry.FadeStrictlyDecreasing | shared/src/commonMain/kotlin/io/github/moonggae/kmedia/sleep/SleepTimerController.kt:151-153 | fade volumes strictly decrease from step to step |
| SleepTimerExpiry.FadeDescends | shared/src/commonMain/kotlin/io/github/moonggae/kmedia/sleep/SleepTimerController.kt:150-159 | the 20 volume commands of a full fade from an audible volume are each below it, strictly decreasing, and end at 0 |
| SleepTimerExpiry.FullFade | shared/src/commonMain/kotlin/io/github/moonggae/kmedia/sleep/SleepTimerController.kt:144-171 | a completed fading expiry issues 20 strictly decreasing volumes below the original ending at 0, then one pause, then the original volume |
| SleepTimerExpiry.FadeTiming | shared/src/commonMain/kotlin/io/github/moonggae/kmedia/sleep/SleepTimerController.kt:150-158 | the fade has nineteen 125 ms delays, 2375 ms in all, within the 2500 ms track-end trigger margin |
| SleepTimerExpiry.NoFadeOnlyPauses | shared/src/commonMain/kotlin/io/github/moonggae/kmedia/sleep/SleepTimerController.kt:146-162 | when muted or at volume at most 0.01 expiry only pauses, on every exit |
| SleepTimerExpiry.CancelledFade | shared/src/commonMain/kotlin/io/github/moonggae/kmedia/sleep/SleepTimerController.kt:163-171 | a fade cancelled after step k issues the first k + 1 fade volumes, never pauses, and sets the original volume back |
| SleepTimerExpiry.ExpiryRestoresVolume | shared/src/commonMain/kotlin/io/github/moonggae/kmedia/sleep/SleepTimerController.kt:148-171 | on every exit of an expiry that faded, the last call sets the original volume; without fade only pauses are issued |
| SleepTimerExpiry.PausesOnce | shared/src/commonMain/kotlin/io/github/moonggae/kmedia/sleep/SleepTimerController.kt:148-171 | a completed expiry pauses playback exactly once |
| SleepTimerExpiry.HalfVolumeFade | shared/src/commonMain/kotlin/io/github/moonggae/kmedia/sleep/SleepTimerController.kt:144-171 | at volume 0.5 and not muted, some step sets a level strictly between 0 and 0.5, one pause is issued, and the last volume set is 0.5 |
| SleepTimerMachineProps.InitialValid | shared/src/commonMain/kotlin/io/github/moonggae/kmedia/sleep/SleepTimerController.kt:51-54 | a new controller is OFF with an empty slot and satisfies the invariant |
| SleepTimerMachineProps.ActiveIffSlotHeld | shared/src/commonMain/kotlin/io/github/moonggae/kmedia/sleep/SleepTimerController.kt:32-33 | the state is active exactly when a job owns the slot, and an inactive state has every field cleared |
| SleepTimerMachineProps.SingleFlight | shared/src/commonMain/kotlin/io/github/moonggae/kmedia/sleep/SleepTimerController.kt:56-86 | `Valid`: at most one launched timer job is live, and one is live exactly when the timer is active |
| SleepTimerMachineProps.CancelTimerJobEffect | shared/src/commonMain/kotlin/io/github/moonggae/kmedia/sleep/SleepTimerController.kt:195-198 | `SleepTimerMachine.CancelTimerJob`: the owner is cancelled and the slot emptied, so no job stays live; the state, the calls and every other job are unchanged |
| SleepTimerMachineProps.LaunchRestoresSingleFlight | shared/src/commonMain/kotlin/io/github/moonggae/kmedia/sleep/SleepTimerController.kt:58-67 | `SleepTimerMachine.Launch`: after cancelTimerJob and a state published for the task, launching restores the invariant with the new job as the only live one and leaves earlier jobs as they were |
| SleepTimerMachineProps.CancelResets | shared/src/commonMain/kotlin/io/github/moonggae/kmedia/sleep/SleepTimerController.kt:88-91 | `SleepTimerMachine.Cancel`: cancel from any valid state empties the slot, resets the state to its default, leaves no live job, cancels the previous owner, and issues nothing |
| SleepTimerMachineProps.CancelIdempotent | shared/src/commonMain/kotlin/io/github/moonggae/kmedia/sleep/SleepTimerController.kt:88-91 | cancelling twice is the same as cancelling once |
| SleepTimerMachineProps.CancelWhenIdle | shared/src/commonMain/kotlin/io/github/moonggae/kmedia/sleep/SleepTimerController.kt:88-91 | cancel on an idle controller changes nothing |
| SleepTimerMachineProps.CancelUndoesStart | shared/src/commonMain/kotlin/io/github/moonggae/kmedia/sleep/SleepTimerController.kt:88-91 | `SleepTimerMachine.Cancel`: cancel right after start(d) leaves the controller as cancel alone would, apart from one more launched job, already cancelled |
| SleepTimerMachineProps.StartEstablishes | shared/src/commonMain/kotlin/io/github/moonggae/kmedia/sleep/SleepTimerController.kt:56-67 | `SleepTimerMachine.Start`: start(d) publishes DURATION with duration and remaining both max(d, 1000) and no target, installs a fresh job, cancels the previous owner, leaves no older job live, keeps the invariant |
| SleepTimerMachineProps.RestartSupersedes | shared/src/commonMain/kotlin/io/github/moonggae/kmedia/sleep/SleepTimerController.kt:56-67 | `SleepTimerMachine.Start`: a second start supersedes the first: the state is what the second alone publishes, the first job is cancelled, the second is the only live one |
| SleepTimerMachineProps.StartUntilTrackEndWithoutTrack | shared/src/commonMain/kotlin/io/github/moonggae/kmedia/sleep/SleepTimerController.kt:70-74 | starting until track end with no current track is exactly cancel, and leaves the state OFF |
| SleepTimerMachineProps.StartUntilTrackEndEstablishes | shared/src/commonMain/kotlin/io/github/moonggae/kmedia/sleep/SleepTimerController.kt:70-85 | `SleepTimerMachine.StartUntilCurrentTrackEnd`: with a current track it publishes CURRENT_TRACK_END anchored to that track, no duration, the snapshot's remaining track time, a fresh job and no older job live |
| SleepTimerMachineProps.StartMatchesFirstPoll | shared/src/commonMain/kotlin/io/github/moonggae/kmedia/sleep/SleepTimerController.kt:70-86 | `SleepTimerMachine.StartUntilCurrentTrackEnd`: the published state is the one the new job's first poll of the same snapshot writes, and that poll expires exactly when the trigger condition holds |
| SleepTimerMachineProps.DurationTickEffect | shared/src/commonMain/kotlin/io/github/moonggae/kmedia/sleep/SleepTimerController.kt:96-113 | `SleepTimerMachine.DurationTick`: a cancelled job stops and writes nothing; a live job owns the slot, writes max(0, d - elapsed), expires exactly when that is 0, and otherwise sleeps min(1000, remaining) |
| SleepTimerMachineProps.DurationTickGuard | shared/src/commonMain/kotlin/io/github/moonggae/kmedia/sleep/SleepTimerController.kt:100-106 | outside DURATION mode a duration tick leaves the published state unchanged |
| SleepTimerMachineProps.CountdownNonIncreasing | shared/src/commonMain/kotlin/io/github/moonggae/kmedia/sleep/SleepTimerController.kt:96-113 | with non-decreasing clock readings the published remaining time never increases and stays within the duration |
| SleepTimerMachineProps.TrackEndPollEffect | shared/src/commonMain/kotlin/io/github/moonggae/kmedia/sleep/SleepTimerController.kt:118-138 | `SleepTimerMachine.TrackEndPoll`: a live poll writes the snapshot's remaining track time and expires exactly when the track changed, ended, or has at most 2500 ms left; otherwise it sleeps 400 ms |
| SleepTimerMachineProps.TrackEndPollGuard | shared/src/commonMain/kotlin/io/github/moonggae/kmedia/sleep/SleepTimerController.kt:125-131 | unless the state is CURRENT_TRACK_END for the job's own target, a poll leaves the state unchanged |
| SleepTimerMachineProps.TrackEndTriggerCases | shared/src/commonMain/kotlin/io/github/moonggae/kmedia/sleep/SleepTimerController.kt:121-133 | `TrackEndTriggered`: an unknown remaining time alone never fires; a changed track always fires |
| SleepTimerMachineProps.TrackEndTriggerByPosition | shared/src/commonMain/kotlin/io/github/moonggae/kmedia/sleep/SleepTimerController.kt:121-133 | `TrackEndTriggered`: for the anchored track, not ended, with known duration and position, the poll fires exactly when duration - position is at most 2500 ms |
| SleepTimerMachineProps.OnTimerExpiredEffect | shared/src/commonMain/kotlin/io/github/moonggae/kmedia/sleep/SleepTimerController.kt:142-177 | `SleepTimerMachine.OnTimerExpired`: expiry issues its calls; if the job still owns the slot (always, unless it was cancelled) slot and state are cleared, otherwise neither is touched |
| SleepTimerMachineProps.SupersededJobCannotWrite | shared/src/commonMain/kotlin/io/github/moonggae/kmedia/sleep/SleepTimerController.kt:96-177 | a job that is no longer live cannot change the state or the slot: a tick at any clock reading and a poll of any snapshot stop and leave both unchanged, and its own expiry leaves both alone |
| SleepTimerMachineProps.RunDurationExpiresIff | shared/src/commonMain/kotlin/io/github/moonggae/kmedia/sleep/SleepTimerController.kt:93-115 | `SleepTimerMachine.RunDuration`: an uninterrupted countdown expires, clearing state and slot and issuing the expiry calls, exactly when some clock reading reaches the duration |
| SleepTimerMachineProps.RunUntilTrackEndExpiresIff | shared/src/commonMain/kotlin/io/github/moonggae/kmedia/sleep/SleepTimerController.kt:117-140 | `SleepTimerMachine.RunUntilTrackEnd`: an uninterrupted track-end loop expires exactly when some poll sees the track changed, ended or within 2500 ms of its end |
| SleepTimerMachineProps.StartFifteenHundredScenario | shared/src/commonMain/kotlin/io/github/moonggae/kmedia/sleep/SleepTimerController.kt:56-115 | start(1500) ticked at 0, 1000 and 1500 ms ends OFF with the slot empty and exactly one pause issued |
| SleepTimerController.DefaultSleepTimerController.constructor | shared/src/commonMain/kotlin/io/github/moonggae/kmedia/sleep/SleepTimerController.kt:46-54 | a new controller is in the initial state of the machine |
| SleepTimerController.DefaultSleepTimerController.CancelTimerJob | shared/src/commonMain/kotlin/io/github/moonggae/kmedia/sleep/SleepTimerController.kt:195-198 | marks the owner cancelled and empties the slot |
| SleepTimerController.DefaultSleepTimerController.ClearState | shared/src/commonMain/kotlin/io/github/moonggae/kmedia/sleep/SleepTimerController.kt:191-193 | resets the published state to its default |
| SleepTimerController.DefaultSleepTimerController.Start | shared/src/commonMain/kotlin/io/github/moonggae/kmedia/sleep/SleepTimerController.kt:56-67 | updates the fields as the machine's Start and keeps the invariant |
| SleepTimerController.DefaultSleepTimerController.StartUntilCurrentTrackEnd | shared/src/commonMain/kotlin/io/github/moonggae/kmedia/sleep/SleepTimerController.kt:70-86 | updates the fields as the machine's StartUntilCurrentTrackEnd and keeps the invariant |
| SleepTimerController.DefaultSleepTimerController.Cancel | shared/src/commonMain/kotlin/io/github/moonggae/kmedia/sleep/SleepTimerController.kt:88-91 | updates the fields as the machine's Cancel and keeps the invariant |
| SleepTimerController.DefaultSleepTimerController.DurationTick | shared/src/commonMain/kotlin/io/github/moonggae/kmedia/sleep/SleepTimerController.kt:96-113 | one loop iteration of the countdown, as the machine's DurationTick, keeping the invariant |
| SleepTimerController.DefaultSleepTimerController.TrackEndPoll | shared/src/commonMain/kotlin/io/github/moonggae/kmedia/sleep/SleepTimerController.kt:118-138 | one loop iteration of the track-end poll, as the machine's TrackEndPoll, keeping the invariant |
| SleepTimerController.DefaultSleepTimerController.OnTimerExpired | shared/src/commonMain/kotlin/io/github/moonggae/kmedia/sleep/SleepTimerController.kt:142-177 | expiry as the machine's OnTimerExpired, keeping the invariant |
| SleepTimerController.DefaultSleepTimerController.FadeAndPause | shared/src/commonMain/kotlin/io/github/moonggae/kmedia/sleep/SleepTimerController.kt:148-171 | the fade loop, pause and restoration append exactly the expiry's calls for the given exit |
| SleepTimerController.DefaultSleepTimerController.RunDurationTimer | shared/src/commonMain/kotlin/io/github/moonggae/kmedia/sleep/SleepTimerController.kt:93-115 | the countdown loop over clock readings, as the machine's RunDuration |
| SleepTimerController.DefaultSleepTimerController.RunUntilCurrentTrackEnd | shared/src/commonMain/kotlin/io/github/moonggae/kmedia/sleep/SleepTimerController.kt:117-140 | the poll loop over snapshots, as the machine's RunUntilTrackEnd |
| SleepTimerTabProps.NatToStringDigits | kmedia-sample/src/commonMain/kotlin/io/github/moonggae/kmedia/sample/player/PlayerMenuSleepTimerTabView.kt:181 | the decimal text of a number is digits only, reads back to the number, has no leading zero, one digit below 10 and three or more from 100 |
| SleepTimerTabProps.ToTwoDigitsPads | kmedia-sample/src/commonMain/kotlin/io/github/moonggae/kmedia/sample/player/PlayerMenuSleepTimerTabView.kt:181 | `ToTwoDigits` (`PadStart` over `LongToString`): the field is padded with '0' to at least two characters, never truncated, and ends with the number's text |
| SleepTimerTabProps.LongToStringSign | kmedia-sample/src/commonMain/kotlin/io/github/moonggae/kmedia/sample/player/PlayerMenuSleepTimerTabView.kt:181 | `LongToString`: a minus sign exactly for negative numbers, followed by digits that read back to the magnitude |
| SleepTimerTabProps.TwoDigitField | kmedia-sample/src/commonMain/kotlin/io/github/moonggae/kmedia/sample/player/PlayerMenuSleepTimerTabView.kt:181 | a non-negative field reads back to its number, has no colon, is two digits below 100 and three or more from 100 |
| SleepTimerTabProps.SecondsDecomposition | kmedia-sample/src/commonMain/kotlin/io/github/moonggae/kmedia/sample/player/PlayerMenuSleepTimerTabView.kt:170-172 | minutes and seconds are below 60 and hours * 3600 + minutes * 60 + seconds is the total |
| SleepTimerTabProps.SubSecondLabel | kmedia-sample/src/commonMain/kotlin/io/github/moonggae/kmedia/sample/player/PlayerMenuSleepTimerTabView.kt:168-169 | every negative or sub-second input shows 00:00 |
| SleepTimerTabProps.ClockTextFields | kmedia-sample/src/commonMain/kotlin/io/github/moonggae/kmedia/sample/player/PlayerMenuSleepTimerTabView.kt:174-178 | the label splits into minutes and seconds below an hour, and into hours, minutes and seconds from an hour on |
| SleepTimerTabProps.ClockTextParse | kmedia-sample/src/commonMain/kotlin/io/github/moonggae/kmedia/sample/player/PlayerMenuSleepTimerTabView.kt:174-178 | reading the laid-out fields back gives hours * 3600 + minutes * 60 + seconds |
| SleepTimerTabProps.DurationLabelFields | kmedia-sample/src/commonMain/kotlin/io/github/moonggae/kmedia/sample/player/PlayerMenuSleepTimerTabView.kt:168-178 | the label is MM:SS (five characters) below an hour and HH:MM:SS from an hour on, with two-digit minutes and seconds and hours of two or more digits (three or more from 100 hours) |
| SleepTimerTabProps.DurationLabelRoundTrip | kmedia-sample/src/commonMain/kotlin/io/github/moonggae/kmedia/sample/player/PlayerMenuSleepTimerTabView.kt:168-178 | `DurationLabel`: reading a label back yields the clamped seconds it shows |
| SleepTimerTabProps.DurationLabelSameIffSameSecond | kmedia-sample/src/commonMain/kotlin/io/github/moonggae/kmedia/sample/player/PlayerMenuSleepTimerTabView.kt:168-179 | `DurationLabel`: two durations get the same label exactly when they have the same number of whole seconds, negatives counting as 0 |
| SleepTimerTabProps.StatusTextOffIffInactive | kmedia-sample/src/commonMain/kotlin/io/github/moonggae/kmedia/sample/player/PlayerMenuSleepTimerTabView.kt:151-152 | the status reads "Sleep timer is off." exactly when the timer is not active |
| SleepTimerTabProps.StatusTextShowsRemaining | kmedia-sample/src/commonMain/kotlin/io/github/moonggae/kmedia/sample/player/PlayerMenuSleepTimerTabView.kt:153-165 | `StatusText`: an active timer's status embeds a label that reads back to its remaining seconds, or uses the --:-- placeholder (DURATION) or the no-time sentence (CURRENT_TRACK_END) when it is unknown |
| SleepTimerTabProps.StatusTextModeMark | kmedia-sample/src/commonMain/kotlin/io/github/moonggae/kmedia/sample/player/PlayerMenuSleepTimerTabView.kt:153-165 | `StatusText`: an active status has 'i' at character 19 for DURATION and 'a' for CURRENT_TRACK_END |
| SleepTimerTabProps.StatusTextDistinguishesModes | kmedia-sample/src/commonMain/kotlin/io/github/moonggae/kmedia/sample/player/PlayerMenuSleepTimerTabView.kt:151-166 | `StatusText`: states in different modes never show the same text |
| SleepTimerTabProps.PresetDurations | kmedia-sample/src/commonMain/kotlin/io/github/moonggae/kmedia/sample/player/PlayerMenuSleepTimerTabView.kt:183-202 | `SleepTimerPresets`: every duration preset is at least 1000 ms and kept by start, no two presets share a duration, and only "End of current track" has none |
| SleepTimerTabProps.AtMostOneSelected | kmedia-sample/src/commonMain/kotlin/io/github/moonggae/kmedia/sample/player/PlayerMenuSleepTimerTabView.kt:51-56 | `IsSelected`: in any state at most one preset row is highlighted |
| SleepTimerTabProps.SelectionFollowsMode | kmedia-sample/src/commonMain/kotlin/io/github/moonggae/kmedia/sample/player/PlayerMenuSleepTimerTabView.kt:52-56 | `IsSelected`: no row is highlighted while OFF, only "End of current track" in CURRENT_TRACK_END, and never that row during a DURATION timer |
| SleepTimerTabProps.ClickSelectsPreset | kmedia-sample/src/commonMain/kotlin/io/github/moonggae/kmedia/sample/player/PlayerMenuSleepTimerTabView.kt:61-66 | `OnPresetClick`: a duration preset's click starts that duration and highlights that row alone; "End of current track" highlights its row when a track is current and otherwise leaves the timer OFF with no row highlighted |

## Left out

- Coroutines, `delay` and the `TimeSource.Monotonic` clock (shared/src/commonMain/kotlin/io/github/moonggae/kmedia/sleep/SleepTimerController.kt:93-140) are not modelled as such.
  Clock readings and playback snapshots are inputs to step transitions. Sleeps are returned as
  outcomes, or kept in the expiry timeline. One loop iteration is one atomic transition. A
  cancellation that lands between the `isActive` check and the state update on a multi-threaded
  dispatcher is not modelled.
- `StateFlow.update` atomicity and observers of the published state are not modelled: the state is
  a field or a value that the transitions rewrite.
- A cancellation during the fade is an exit parameter, `CancelledAfter(k)`. It can interrupt only
  one of the 19 delays. A caller models the cancelling `start` or `cancel` as its own transition
  before the expiry.
- `MediaPlaybackController.setVolume` is defined in a file that is not part of this model. The model
  assumes it does not suspend, so it is never a cancellation point. `pause` launches its work and
  returns without suspending (shared/src/androidMain/kotlin/io/github/moonggae/kmedia/controller/PlatformMediaPlaybackController.android.kt:69).
- `Launch` creates the job and puts it in the slot in one transition. In the code the slot is
  assigned only after `scope.launch` returns (shared/src/commonMain/kotlin/io/github/moonggae/kmedia/sleep/SleepTimerController.kt:65, shared/src/commonMain/kotlin/io/github/moonggae/kmedia/sleep/SleepTimerController.kt:83). Suppose the scope's dispatcher ran a
  new job at once, or on another thread. Its first tick or poll could then expire without a fade
  and reach the ownership check (shared/src/commonMain/kotlin/io/github/moonggae/kmedia/sleep/SleepTimerController.kt:173) before that assignment. The check would fail, leaving
  the timer active with a finished job in the slot. The dispatcher is defined in a file that is not
  part of this model. The single-flight invariant `Valid` and every lemma that keeps it assume the
  slot is assigned before the new job first runs, as with a dispatcher that queues it.
- Volumes are `real`, so the float rounding of the fade (shared/src/commonMain/kotlin/io/github/moonggae/kmedia/sleep/SleepTimerController.kt:152-153) and of `0.01f` is left out.
- `TIME_UNSET` is defined in a file that is not part of this model. It is a parameter, and every
  property holds for any value of it.
- `startUntilCurrentTrackEnd` reads `playbackState.value` twice (shared/src/commonMain/kotlin/io/github/moonggae/kmedia/sleep/SleepTimerController.kt:71, shared/src/commonMain/kotlin/io/github/moonggae/kmedia/sleep/SleepTimerController.kt:80). The model reads one
  snapshot.
- Of `PlayingStatus` only ENDED matters to the timer. The other statuses are one case, `NotEnded`.
- Kotlin `Long` is unbounded here. No core operation overflows for durations of at least 1000 ms
  and non-negative clock readings. `toTwoDigits` of a negative number is modelled through
  `Long.toString`, but the label never passes it one.
- `SleepTimerTab.OnPresetClick` takes the tab's `onSetSleepTimer` callback to be the controller's `start` and
  `onSetSleepTimerUntilCurrentTrackEnd` to be `startUntilCurrentTrackEnd`. The bottom sheet only passes
  the callbacks through (kmedia-sample/src/commonMain/kotlin/io/github/moonggae/kmedia/sample/player/PlayerMenuBottomSheet.kt:87-93). Where they are bound is not part of this model.
- The Compose layout of the tab (kmedia-sample/src/commonMain/kotlin/io/github/moonggae/kmedia/sample/player/PlayerMenuSleepTimerTabView.kt:27-149) is not modelled: colours, icons, the status card and
  the "Turn off timer" link. The link is shown when `isActive`; `SleepTimerMachineProps.ActiveIffSlotHeld`
  and `SleepTimerTabProps.StatusTextOffIffInactive` state what it depends on.
- The connection manager of the playback controller, cache status propagation, session callbacks,
  analytics listeners, media-item builders, dependency wiring and build files are not part of this
  model. They are asynchronous glue over platform libraries.
