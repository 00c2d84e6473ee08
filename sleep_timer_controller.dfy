/** `DefaultSleepTimerController` of SleepTimerController.kt as a class whose
    fields the operations update in place: the published state, the job slot,
    the launched timer coroutines, and the calls made on the playback
    controller. Each operation and each single loop iteration is proved against
    the transition of the same name in module SleepTimerMachine;
    `RunDurationTimer` and `RunUntilCurrentTrackEnd` are proved against
    `RunDuration` and `RunUntilTrackEnd`, and `FadeAndPause` against
    `ExpiryCommands`. */
module SleepTimerController {
  import opened SleepTimer
  import opened SleepTimerMachine
  import opened SleepTimerExpiry
  import opened SleepTimerMachineProps

  class DefaultSleepTimerController {
    /** `_state`, published to observers. */
    var state: SleepTimerState
    /** `timerJob` */
    var timerJob: Option<TaskId>
    /** Every coroutine launched by this controller, indexed by its id. */
    var jobs: seq<Job>
    /** `setVolume` and `pause` calls made on the media playback controller. */
    var commands: seq<Command>
    /** The `TIME_UNSET` sentinel of the playback state. */
    const timeUnset: int

    function Model(): Machine
      reads this
    {
      Machine(state, timerJob, jobs, commands)
    }

    ghost predicate Valid()
      reads this
    {
      SleepTimerMachine.Valid(Model())
    }

    constructor (timeUnset: int)
      ensures Valid() && Model() == Initial && this.timeUnset == timeUnset
    {
      state := DefaultState;
      timerJob := None;
      jobs := [];
      commands := [];
      this.timeUnset := timeUnset;
    }

    method CancelTimerJob()
      modifies this
      ensures Model() == SleepTimerMachine.CancelTimerJob(old(Model()))
    {
      match timerJob {
        case None =>
        case Some(j) =>
          if j < |jobs| {
            jobs := jobs[j := jobs[j].(cancelled := true)];
          }
      }
      timerJob := None;
    }

    method ClearState()
      modifies this
      ensures Model() == SleepTimerMachine.ClearState(old(Model()))
    {
      state := DefaultState;
    }

    method Start(durationMs: int)
      requires Valid()
      modifies this
      ensures Valid() && Model() == SleepTimerMachine.Start(old(Model()), durationMs)
    {
      var normalizedDurationMs := NormalizedDuration(durationMs);
      CancelTimerJob();
      state := SleepTimerState(Duration, Some(normalizedDurationMs), Some(normalizedDurationMs), None);
      timerJob := Some(|jobs|);
      jobs := jobs + [Job(DurationTask(normalizedDurationMs), Ticking, false)];
      StartEstablishes(old(Model()), durationMs);
    }

    method StartUntilCurrentTrackEnd(playback: PlaybackSnapshot)
      requires Valid()
      modifies this
      ensures Valid() && Model() == SleepTimerMachine.StartUntilCurrentTrackEnd(old(Model()), playback, timeUnset)
    {
      if playback.musicId.None? {
        Cancel();
        return;
      }
      var targetMusicId := playback.musicId.value;
      CancelTimerJob();
      state := SleepTimerState(CurrentTrackEnd, None, RemainingTrackTime(playback, timeUnset), Some(targetMusicId));
      timerJob := Some(|jobs|);
      jobs := jobs + [Job(TrackEndTask(targetMusicId), Ticking, false)];
      StartUntilTrackEndEstablishes(old(Model()), playback, timeUnset);
    }

    method Cancel()
      requires Valid()
      modifies this
      ensures Valid() && Model() == SleepTimerMachine.Cancel(old(Model()))
    {
      CancelTimerJob();
      ClearState();
      CancelResets(old(Model()));
    }

    /** One iteration of `runDurationTimer`'s loop; `elapsedMs` is the clock reading. */
    method DurationTick(j: TaskId, elapsedMs: int) returns (outcome: TickOutcome)
      requires Valid() && IsTicking(Model(), j) && jobs[j].task.DurationTask?
      modifies this
      ensures Valid()
      ensures Step(Model(), outcome) == SleepTimerMachine.DurationTick(old(Model()), j, elapsedMs)
    {
      DurationTickEffect(Model(), j, elapsedMs);
      if jobs[j].cancelled {
        jobs := jobs[j := jobs[j].(phase := Completed)];
        return Stopped;
      }
      var remainingMs := DurationRemaining(jobs[j].task.durationMs, elapsedMs);
      if state.mode == Duration {
        state := state.(remainingMs := Some(remainingMs));
      }
      if remainingMs == 0 {
        jobs := jobs[j := jobs[j].(phase := Expiring)];
        return Expire;
      }
      outcome := Continue(NextTickDelay(remainingMs));
    }

    /** One iteration of `runUntilCurrentTrackEnd`'s loop against the current snapshot. */
    method TrackEndPoll(j: TaskId, playback: PlaybackSnapshot) returns (outcome: TickOutcome)
      requires Valid() && IsTicking(Model(), j) && jobs[j].task.TrackEndTask?
      modifies this
      ensures Valid()
      ensures Step(Model(), outcome) == SleepTimerMachine.TrackEndPoll(old(Model()), j, playback, timeUnset)
    {
      TrackEndPollEffect(Model(), j, playback, timeUnset);
      if jobs[j].cancelled {
        jobs := jobs[j := jobs[j].(phase := Completed)];
        return Stopped;
      }
      var targetMusicId := jobs[j].task.targetMusicId;
      var hasTrackChanged := playback.musicId != Some(targetMusicId);
      var isTrackEnded := playback.status == Ended;
      var remainingMs := RemainingTrackTime(playback, timeUnset);
      if state.mode == CurrentTrackEnd && state.targetMusicId == Some(targetMusicId) {
        state := state.(remainingMs := remainingMs);
      }
      if hasTrackChanged || isTrackEnded || (remainingMs.Some? && remainingMs.value <= EndOfTrackTriggerMs) {
        jobs := jobs[j := jobs[j].(phase := Expiring)];
        return Expire;
      }
      outcome := Continue(EndOfTrackPollingMs);
    }

    /** `onTimerExpired` of job `j`: fade, pause and restore (FadeAndPause),
        then, in `finally`, the owner-only reset of slot and state. `exit` says
        whether a cancellation interrupts the fade, and after which step. */
    method OnTimerExpired(j: TaskId, playback: PlaybackSnapshot, exit: ExpiryExit)
      requires Valid() && j < |jobs| && jobs[j].phase == Expiring
      requires ExpiryExitPossible(Model(), j, playback, exit)
      modifies this
      ensures Valid() && Model() == SleepTimerMachine.OnTimerExpired(old(Model()), j, playback, exit)
    {
      OnTimerExpiredEffect(Model(), j, playback, exit);
      FadeAndPause(playback, exit);
      if timerJob == Some(j) {
        timerJob := None;
        ClearState();
      }
      jobs := jobs[j := jobs[j].(phase := Completed)];
    }

    /** The `try`/`catch`/`finally` body of `onTimerExpired` up to the ownership
        check: the fade loop, the pause, and the restoration of the original
        volume on the normal and on the cancelled exit. */
    method FadeAndPause(playback: PlaybackSnapshot, exit: ExpiryExit)
      requires ExitPossible(playback, exit)
      modifies this`commands
      ensures commands == old(commands) + ExpiryCommands(playback, exit)
    {
      ExpiryCommandsForm(playback, exit);
      var originalVolume := Clamp01(playback.volume);
      var shouldFade := !playback.isMuted && originalVolume > MinFadeVolume;
      if shouldFade {
        var fadeSteps := FadeSteps;
        var index := 0;
        var interrupted := false;
        while index < fadeSteps && !interrupted
          invariant 0 <= index <= fadeSteps
          invariant commands == old(commands) + FadeCommands(originalVolume, index)
          invariant interrupted <==> exit.CancelledAfter? && index == exit.step + 1
          invariant exit.CancelledAfter? && !interrupted ==> index <= exit.step
        {
          assert FadeCommands(originalVolume, index + 1)
              == FadeCommands(originalVolume, index) + [SetVolume(FadeVolume(originalVolume, index))];
          commands := commands + [SetVolume(FadeVolume(originalVolume, index))];
          if index < fadeSteps - 1 {
            // `delay(FADE_OUT_STEP_MS)`: where a cancellation is observed
            interrupted := exit == CancelledAfter(index);
          }
          index := index + 1;
        }
        if interrupted {
          // catch (CancellationException)
          commands := commands + [SetVolume(originalVolume)];
        } else {
          commands := commands + [Pause];
        }
        // finally
        commands := commands + [SetVolume(originalVolume)];
      } else {
        commands := commands + [Pause];
      }
    }

    /** `runDurationTimer` run without interruption over successive clock readings. */
    method RunDurationTimer(j: TaskId, elapsed: seq<int>, atExpiry: PlaybackSnapshot)
      requires Valid() && IsTicking(Model(), j) && jobs[j].task.DurationTask?
      modifies this
      ensures Valid() && Model() == RunDuration(old(Model()), j, elapsed, atExpiry)
    {
      var i := 0;
      while i < |elapsed|
        invariant 0 <= i <= |elapsed|
        invariant Valid() && IsTicking(Model(), j) && jobs[j].task.DurationTask?
        invariant RunDuration(Model(), j, elapsed[i..], atExpiry) == RunDuration(old(Model()), j, elapsed, atExpiry)
      {
        assert elapsed[i..][0] == elapsed[i] && elapsed[i..][1..] == elapsed[i + 1..];
        var outcome := DurationTick(j, elapsed[i]);
        if outcome == Expire {
          OnTimerExpired(j, atExpiry, RanToEnd);
          return;
        }
        if outcome == Stopped {
          return;
        }
        i := i + 1;
      }
    }

    /** `runUntilCurrentTrackEnd` run without interruption over successive polls. */
    method RunUntilCurrentTrackEnd(j: TaskId, polls: seq<PlaybackSnapshot>, atExpiry: PlaybackSnapshot)
      requires Valid() && IsTicking(Model(), j) && jobs[j].task.TrackEndTask?
      modifies this
      ensures Valid() && Model() == RunUntilTrackEnd(old(Model()), j, polls, atExpiry, timeUnset)
    {
      var i := 0;
      while i < |polls|
        invariant 0 <= i <= |polls|
        invariant Valid() && IsTicking(Model(), j) && jobs[j].task.TrackEndTask?
        invariant RunUntilTrackEnd(Model(), j, polls[i..], atExpiry, timeUnset)
                  == RunUntilTrackEnd(old(Model()), j, polls, atExpiry, timeUnset)
      {
        assert polls[i..][0] == polls[i] && polls[i..][1..] == polls[i + 1..];
        var outcome := TrackEndPoll(j, polls[i]);
        if outcome == Expire {
          OnTimerExpired(j, atExpiry, RanToEnd);
          return;
        }
        if outcome == Stopped {
          return;
        }
        i := i + 1;
      }
    }
  }
}
