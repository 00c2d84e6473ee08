/** What the controller of SleepTimerController.kt promises, proved about the
    state machine of module SleepTimerMachine. */
module SleepTimerMachineProps {
  import opened SleepTimer
  import opened SleepTimerExpiry
  import opened SleepTimerMachine

  lemma InitialValid()
    ensures Valid(Initial) && Initial.state == DefaultState && Initial.timerJob.None?
  {
  }

  /** In a valid machine the state is active exactly when a job owns the slot. */
  lemma ActiveIffSlotHeld(m: Machine)
    requires Valid(m)
    ensures m.state.IsActive() <==> m.timerJob.Some?
    ensures !m.state.IsActive() ==> m.state == DefaultState
  {
  }

  /** Single flight: at most one launched timer coroutine is live, and one is
      live exactly when the timer is active. */
  lemma SingleFlight(m: Machine)
    requires Valid(m)
    ensures forall i, j :: 0 <= i < |m.jobs| && 0 <= j < |m.jobs| && m.jobs[i].Live() && m.jobs[j].Live() ==> i == j
    ensures m.state.IsActive() <==> exists j :: 0 <= j < |m.jobs| && m.jobs[j].Live()
  {
    if m.state.IsActive() {
      assert m.jobs[m.timerJob.value].Live();
    }
  }

  /** `cancelTimerJob()`: the owner is cancelled and the slot emptied, so no job
      is live any more; the state, the calls and every other job are unchanged. */
  lemma CancelTimerJobEffect(m: Machine)
    requires Valid(m)
    ensures var r := CancelTimerJob(m);
      r.timerJob.None? && r.state == m.state && r.commands == m.commands && |r.jobs| == |m.jobs|
      && (forall j :: 0 <= j < |r.jobs| ==> !r.jobs[j].Live())
      && (forall j :: 0 <= j < |m.jobs| && m.timerJob != Some(j) ==> r.jobs[j] == m.jobs[j])
      && (m.timerJob.Some? ==> r.jobs[m.timerJob.value] == m.jobs[m.timerJob.value].(cancelled := true))
  {
    var r := CancelTimerJob(m);
    forall j | 0 <= j < |r.jobs|
      ensures !r.jobs[j].Live()
    {
      if m.jobs[j].Live() {
        assert m.timerJob == Some(j);
      }
    }
  }

  /** `timerJob = scope.launch { … }` after `cancelTimerJob()` and a state
      published for the task: the invariant is re-established, the new job is the
      only live one, and every earlier job is left as it was. */
  lemma LaunchRestoresSingleFlight(m: Machine, task: Task)
    requires m.timerJob.None? && forall j :: 0 <= j < |m.jobs| ==> !m.jobs[j].Live()
    requires StateWellFormed(m.state) && m.state.mode != Off && Matches(task, m.state)
    ensures var r := Launch(m, task);
      Valid(r) && r.timerJob == Some(|m.jobs|) && r.state == m.state && r.commands == m.commands
      && |r.jobs| == |m.jobs| + 1 && r.jobs[..|m.jobs|] == m.jobs
      && (forall j :: 0 <= j < |r.jobs| && r.jobs[j].Live() ==> j == |m.jobs|)
  {
  }

  /** `cancel()` from any valid state: slot empty, state at its default, no live
      job left, nothing issued to playback. */
  lemma CancelResets(m: Machine)
    requires Valid(m)
    ensures var r := Cancel(m);
      Valid(r) && r.state == DefaultState && r.timerJob.None?
      && |r.jobs| == |m.jobs| && r.commands == m.commands
      && (forall j :: 0 <= j < |r.jobs| ==> !r.jobs[j].Live())
      && (m.timerJob.Some? ==> r.jobs[m.timerJob.value].cancelled)
  {
    var r := Cancel(m);
    forall j | 0 <= j < |r.jobs|
      ensures !r.jobs[j].Live()
    {
      if m.jobs[j].Live() {
        assert m.timerJob == Some(j);
      }
    }
  }

  /** Cancelling twice is cancelling once. */
  lemma CancelIdempotent(m: Machine)
    ensures Cancel(Cancel(m)) == Cancel(m)
  {
  }

  /** `cancel()` on an idle controller changes nothing. */
  lemma CancelWhenIdle(m: Machine)
    requires Valid(m) && !m.state.IsActive()
    ensures Cancel(m) == m
  {
  }

  /** `start(d)`: DURATION with `durationMs == remainingMs == max(d, 1000)` and no
      target; a fresh job in the slot; the previous owner cancelled and no older
      job live; nothing issued to playback. */
  lemma StartEstablishes(m: Machine, durationMs: int)
    requires Valid(m)
    ensures var r := Start(m, durationMs);
      var d := Max(durationMs, MinDurationMs);
      Valid(r)
      && r.state == SleepTimerState(Duration, Some(d), Some(d), None)
      && r.timerJob == Some(|m.jobs|) && |r.jobs| == |m.jobs| + 1
      && r.jobs[|m.jobs|] == Job(DurationTask(d), Ticking, false)
      && (m.timerJob.Some? ==> r.jobs[m.timerJob.value].cancelled)
      && (forall j :: 0 <= j < |m.jobs| ==> !r.jobs[j].Live())
      && r.commands == m.commands
  {
    var r := Start(m, durationMs);
    forall j | 0 <= j < |m.jobs|
      ensures !r.jobs[j].Live()
    {
      if m.jobs[j].Live() {
        assert m.timerJob == Some(j);
      }
    }
  }

  /** `cancel()` right after `start(d)` leaves the controller as `cancel()`
      alone would, apart from one more launched job, already cancelled. */
  lemma CancelUndoesStart(m: Machine, durationMs: int)
    ensures Cancel(Start(m, durationMs))
      == Cancel(m).(jobs := Cancel(m).jobs + [Job(DurationTask(NormalizedDuration(durationMs)), Ticking, true)])
  {
  }

  /** A second `start` supersedes the first: the published state is what the
      second alone would publish, the first start's job is cancelled, and the
      second's is the only live one. */
  lemma RestartSupersedes(m: Machine, d1: int, d2: int)
    requires Valid(m)
    ensures var r := Start(Start(m, d1), d2);
      Valid(r) && r.state == Start(m, d2).state
      && |r.jobs| == |m.jobs| + 2 && r.jobs[|m.jobs|].cancelled
      && r.timerJob == Some(|m.jobs| + 1)
      && (forall j :: 0 <= j < |r.jobs| && r.jobs[j].Live() ==> j == |m.jobs| + 1)
  {
    StartEstablishes(m, d1);
    StartEstablishes(Start(m, d1), d2);
    StartEstablishes(m, d2);
  }

  /** `startUntilCurrentTrackEnd()` with no current track is `cancel()`. */
  lemma StartUntilTrackEndWithoutTrack(m: Machine, s: PlaybackSnapshot, timeUnset: int)
    requires Valid(m) && s.musicId.None?
    ensures StartUntilCurrentTrackEnd(m, s, timeUnset) == Cancel(m)
    ensures StartUntilCurrentTrackEnd(m, s, timeUnset).state == DefaultState
  {
    CancelResets(m);
  }

  /** `startUntilCurrentTrackEnd()` with a current track: CURRENT_TRACK_END
      anchored to that track, no duration, the remaining time of the snapshot;
      a fresh job in the slot and no older job live. */
  lemma StartUntilTrackEndEstablishes(m: Machine, s: PlaybackSnapshot, timeUnset: int)
    requires Valid(m) && s.musicId.Some?
    ensures var r := StartUntilCurrentTrackEnd(m, s, timeUnset);
      Valid(r)
      && r.state == SleepTimerState(CurrentTrackEnd, None, RemainingTrackTime(s, timeUnset), s.musicId)
      && r.timerJob == Some(|m.jobs|) && |r.jobs| == |m.jobs| + 1
      && r.jobs[|m.jobs|] == Job(TrackEndTask(s.musicId.value), Ticking, false)
      && (forall j :: 0 <= j < |m.jobs| ==> !r.jobs[j].Live())
      && r.commands == m.commands
  {
    var r := StartUntilCurrentTrackEnd(m, s, timeUnset);
    forall j | 0 <= j < |m.jobs|
      ensures !r.jobs[j].Live()
    {
      if m.jobs[j].Live() {
        assert m.timerJob == Some(j);
      }
    }
  }

  /** The state `startUntilCurrentTrackEnd()` publishes is the one its job's
      first poll of the same snapshot writes, and that poll expires exactly when
      the track-end condition already holds. */
  lemma StartMatchesFirstPoll(m: Machine, s: PlaybackSnapshot, timeUnset: int)
    requires Valid(m) && s.musicId.Some?
    ensures var r := StartUntilCurrentTrackEnd(m, s, timeUnset);
      IsTicking(r, |m.jobs|) && r.jobs[|m.jobs|].task.TrackEndTask?
      && (var step := TrackEndPoll(r, |m.jobs|, s, timeUnset);
          step.machine.state == r.state
          && (step.outcome == Expire <==> TrackEndTriggered(s.musicId.value, s, timeUnset)))
  {
    StartUntilTrackEndEstablishes(m, s, timeUnset);
  }

  /** A duration tick. A cancelled job stops without touching anything but its
      own phase. A live job owns the slot, so its write is never discarded:
      `remainingMs` becomes `max(0, d - elapsed)`, and the job expires exactly
      when that is 0, otherwise it sleeps `min(1000, remaining)`. */
  lemma DurationTickEffect(m: Machine, j: TaskId, elapsedMs: int)
    requires Valid(m) && IsTicking(m, j) && m.jobs[j].task.DurationTask?
    ensures var step := DurationTick(m, j, elapsedMs);
      var r := step.machine;
      var remaining := DurationRemaining(m.jobs[j].task.durationMs, elapsedMs);
      Valid(r) && r.timerJob == m.timerJob && r.commands == m.commands && |r.jobs| == |m.jobs|
      && (m.jobs[j].cancelled ==> step.outcome == Stopped && r.state == m.state)
      && (!m.jobs[j].cancelled ==>
            m.timerJob == Some(j)
            && r.state == m.state.(remainingMs := Some(remaining))
            && (step.outcome == Expire <==> remaining == 0)
            && (remaining > 0 ==> step.outcome == Continue(Min(DurationTickMs, remaining))))
  {
    if !m.jobs[j].cancelled {
      assert m.jobs[j].Live();
    }
  }

  /** The stale-write guard of the duration loop: outside DURATION mode a tick
      leaves the published state as it is. */
  lemma DurationTickGuard(m: Machine, j: TaskId, elapsedMs: int)
    requires IsTicking(m, j) && m.jobs[j].task.DurationTask? && m.state.mode != Duration
    ensures DurationTick(m, j, elapsedMs).machine.state == m.state
  {
  }

  /** With non-decreasing clock readings, the published remaining time of a
      duration countdown never increases, and it starts from the full duration. */
  lemma CountdownNonIncreasing(m: Machine, j: TaskId, e1: int, e2: int)
    requires Valid(m) && IsTicking(m, j) && m.jobs[j].task.DurationTask? && !m.jobs[j].cancelled
    requires 0 <= e1 <= e2
    requires DurationTick(m, j, e1).outcome.Continue?
    ensures var m1 := DurationTick(m, j, e1).machine;
      var m2 := DurationTick(m1, j, e2).machine;
      m1.state.remainingMs.Some? && m2.state.remainingMs.Some?
      && m2.state.remainingMs.value <= m1.state.remainingMs.value <= m.jobs[j].task.durationMs
  {
    DurationTickEffect(m, j, e1);
    var m1 := DurationTick(m, j, e1).machine;
    assert m1.jobs[j] == m.jobs[j];
    DurationTickEffect(m1, j, e2);
  }

  /** A track-end poll of a live job: `remainingMs` becomes the snapshot's
      remaining track time, and the job expires exactly when the track changed,
      ended, or has at most 2500 ms left; otherwise it sleeps 400 ms. */
  lemma TrackEndPollEffect(m: Machine, j: TaskId, s: PlaybackSnapshot, timeUnset: int)
    requires Valid(m) && IsTicking(m, j) && m.jobs[j].task.TrackEndTask?
    ensures var step := TrackEndPoll(m, j, s, timeUnset);
      var r := step.machine;
      var target := m.jobs[j].task.targetMusicId;
      Valid(r) && r.timerJob == m.timerJob && r.commands == m.commands && |r.jobs| == |m.jobs|
      && (m.jobs[j].cancelled ==> step.outcome == Stopped && r.state == m.state)
      && (!m.jobs[j].cancelled ==>
            m.timerJob == Some(j)
            && r.state == m.state.(remainingMs := RemainingTrackTime(s, timeUnset))
            && (step.outcome == Expire <==>
                  (s.musicId != Some(target) || s.status == Ended
                   || (RemainingTrackTime(s, timeUnset).Some?
                       && RemainingTrackTime(s, timeUnset).value <= EndOfTrackTriggerMs)))
            && (step.outcome != Expire ==> step.outcome == Continue(EndOfTrackPollingMs)))
  {
    if !m.jobs[j].cancelled {
      assert m.jobs[j].Live();
    }
  }

  /** The stale-write guard of the track-end loop: unless the state is
      CURRENT_TRACK_END for this job's target, a poll leaves it as it is. */
  lemma TrackEndPollGuard(m: Machine, j: TaskId, s: PlaybackSnapshot, timeUnset: int)
    requires IsTicking(m, j) && m.jobs[j].task.TrackEndTask?
    requires m.state.mode != CurrentTrackEnd || m.state.targetMusicId != Some(m.jobs[j].task.targetMusicId)
    ensures TrackEndPoll(m, j, s, timeUnset).machine.state == m.state
  {
  }

  /** An unknown remaining time alone never fires the track-end timer; a
      changed track fires it whatever the remaining time. */
  lemma TrackEndTriggerCases(target: string, s: PlaybackSnapshot, timeUnset: int)
    ensures s.musicId == Some(target) && s.status != Ended && RemainingTrackTime(s, timeUnset).None?
            ==> !TrackEndTriggered(target, s, timeUnset)
    ensures s.musicId != Some(target) ==> TrackEndTriggered(target, s, timeUnset)
  {
  }

  /** For the anchored track, not ended, with a known duration and position,
      the poll fires exactly when at most 2500 ms of the track are left (or the
      position is already past its end). */
  lemma TrackEndTriggerByPosition(target: string, s: PlaybackSnapshot, timeUnset: int)
    requires s.musicId == Some(target) && s.status != Ended
    requires s.duration > 0 && s.duration != timeUnset && s.position >= 0 && s.position != timeUnset
    ensures TrackEndTriggered(target, s, timeUnset) <==> s.duration - s.position <= EndOfTrackTriggerMs
  {
  }

  /** Expiry of job `j`: the expiry's calls are issued; if `j` still owns the
      slot (it always does unless it was cancelled) the slot is emptied and the
      state cleared, otherwise neither is touched. */
  lemma OnTimerExpiredEffect(m: Machine, j: TaskId, s: PlaybackSnapshot, exit: ExpiryExit)
    requires Valid(m) && j < |m.jobs| && m.jobs[j].phase == Expiring
    requires ExpiryExitPossible(m, j, s, exit)
    ensures var r := OnTimerExpired(m, j, s, exit);
      Valid(r) && r.commands == m.commands + ExpiryCommands(s, exit)
      && !r.jobs[j].Live() && |r.jobs| == |m.jobs|
      && (!m.jobs[j].cancelled ==> m.timerJob == Some(j))
      && (m.timerJob == Some(j) ==> r.state == DefaultState && r.timerJob.None?)
      && (m.timerJob != Some(j) ==> r.state == m.state && r.timerJob == m.timerJob)
  {
    var r := OnTimerExpired(m, j, s, exit);
    if !m.jobs[j].cancelled {
      assert m.jobs[j].Live();
    }
  }

  /** A job superseded by `start` or `startUntilCurrentTrackEnd` can no longer
      change the published state or the slot: its next tick or poll stops,
      whatever the clock reading or snapshot, and an expiry it is already in
      leaves both alone. */
  lemma SupersededJobCannotWrite(m: Machine, k: TaskId, elapsedMs: int, s: PlaybackSnapshot, timeUnset: int,
                                 exit: ExpiryExit)
    requires Valid(m) && k < |m.jobs| && !m.jobs[k].Live()
    ensures IsTicking(m, k) && m.jobs[k].task.DurationTask? ==>
      var step := DurationTick(m, k, elapsedMs);
      step.machine.state == m.state && step.machine.timerJob == m.timerJob && step.outcome == Stopped
    ensures IsTicking(m, k) && m.jobs[k].task.TrackEndTask? ==>
      var step := TrackEndPoll(m, k, s, timeUnset);
      step.machine.state == m.state && step.machine.timerJob == m.timerJob && step.outcome == Stopped
    ensures m.jobs[k].phase == Expiring && ExpiryExitPossible(m, k, s, exit) ==>
      OnTimerExpired(m, k, s, exit).state == m.state && OnTimerExpired(m, k, s, exit).timerJob == m.timerJob
  {
    assert m.timerJob != Some(k);
  }

  /** An uninterrupted duration countdown of the owning job over clock readings
      `elapsed` expires, clearing state and slot and issuing the expiry's calls,
      exactly when some reading reaches the duration; otherwise the job is still
      counting down and nothing was issued. */
  lemma {:induction false} RunDurationExpiresIff(m: Machine, j: TaskId, elapsed: seq<int>, atExpiry: PlaybackSnapshot)
    requires Valid(m) && IsTicking(m, j) && m.jobs[j].task.DurationTask? && !m.jobs[j].cancelled
    ensures var r := RunDuration(m, j, elapsed, atExpiry);
      var d := m.jobs[j].task.durationMs;
      Valid(r)
      && ((exists i :: 0 <= i < |elapsed| && elapsed[i] >= d) ==>
            r.state == DefaultState && r.timerJob.None?
            && r.commands == m.commands + ExpiryCommands(atExpiry, RanToEnd))
      && ((forall i :: 0 <= i < |elapsed| ==> elapsed[i] < d) ==>
            r.timerJob == Some(j) && IsTicking(r, j) && r.jobs[j] == m.jobs[j]
            && r.state.mode == Duration && r.commands == m.commands)
    decreases |elapsed|
  {
    if elapsed != [] {
      var d := m.jobs[j].task.durationMs;
      DurationTickEffect(m, j, elapsed[0]);
      var step := DurationTick(m, j, elapsed[0]);
      if step.outcome == Expire {
        OnTimerExpiredEffect(step.machine, j, atExpiry, RanToEnd);
      } else {
        assert step.machine.jobs[j] == m.jobs[j];
        RunDurationExpiresIff(step.machine, j, elapsed[1..], atExpiry);
        if exists i :: 0 <= i < |elapsed| && elapsed[i] >= d {
          var i :| 0 <= i < |elapsed| && elapsed[i] >= d;
          assert i > 0 && elapsed[1..][i - 1] == elapsed[i];
        }
        if forall i :: 0 <= i < |elapsed| ==> elapsed[i] < d {
          assert forall i :: 0 <= i < |elapsed[1..]| ==> elapsed[1..][i] == elapsed[i + 1];
        }
      }
    }
  }

  /** An uninterrupted track-end poll loop of the owning job expires, clearing
      state and slot and issuing the expiry's calls, exactly when some poll sees
      the track changed, ended, or within 2500 ms of its end. */
  lemma {:induction false} RunUntilTrackEndExpiresIff(m: Machine, j: TaskId, polls: seq<PlaybackSnapshot>,
                                                      atExpiry: PlaybackSnapshot, timeUnset: int)
    requires Valid(m) && IsTicking(m, j) && m.jobs[j].task.TrackEndTask? && !m.jobs[j].cancelled
    ensures var r := RunUntilTrackEnd(m, j, polls, atExpiry, timeUnset);
      var target := m.jobs[j].task.targetMusicId;
      Valid(r)
      && ((exists i :: 0 <= i < |polls| && TrackEndTriggered(target, polls[i], timeUnset)) ==>
            r.state == DefaultState && r.timerJob.None?
            && r.commands == m.commands + ExpiryCommands(atExpiry, RanToEnd))
      && ((forall i :: 0 <= i < |polls| ==> !TrackEndTriggered(target, polls[i], timeUnset)) ==>
            r.timerJob == Some(j) && IsTicking(r, j) && r.jobs[j] == m.jobs[j]
            && r.state.mode == CurrentTrackEnd && r.commands == m.commands)
    decreases |polls|
  {
    if polls != [] {
      var target := m.jobs[j].task.targetMusicId;
      TrackEndPollEffect(m, j, polls[0], timeUnset);
      var step := TrackEndPoll(m, j, polls[0], timeUnset);
      if step.outcome == Expire {
        OnTimerExpiredEffect(step.machine, j, atExpiry, RanToEnd);
      } else {
        assert step.machine.jobs[j] == m.jobs[j];
        RunUntilTrackEndExpiresIff(step.machine, j, polls[1..], atExpiry, timeUnset);
        if exists i :: 0 <= i < |polls| && TrackEndTriggered(target, polls[i], timeUnset) {
          var i :| 0 <= i < |polls| && TrackEndTriggered(target, polls[i], timeUnset);
          assert i > 0 && polls[1..][i - 1] == polls[i];
        }
        if forall i :: 0 <= i < |polls| ==> !TrackEndTriggered(target, polls[i], timeUnset) {
          assert forall i :: 0 <= i < |polls[1..]| ==> polls[1..][i] == polls[i + 1];
        }
      }
    }
  }

  /** `start(1500)` from idle, ticks at 0, 1000 and 1500 ms: the timer is OFF
      again and playback was paused exactly once. */
  lemma StartFifteenHundredScenario(atExpiry: PlaybackSnapshot)
    ensures var m := Start(Initial, 1500);
      var r := RunDuration(m, 0, [0, 1000, 1500], atExpiry);
      r.state == DefaultState && r.timerJob.None?
      && multiset(r.commands)[Pause] == 1
  {
    var m := Start(Initial, 1500);
    StartEstablishes(Initial, 1500);
    var elapsed := [0, 1000, 1500];
    assert elapsed[2] >= 1500;
    RunDurationExpiresIff(m, 0, elapsed, atExpiry);
    PausesOnce(atExpiry);
  }
}
