/** The controller of SleepTimerController.kt (`DefaultSleepTimerController`)
    as a state machine on values: the published state, the single timer-job
    slot, every coroutine it has launched, and the log of calls it made on the
    playback controller. Coroutine scheduling is abstracted: each operation and
    each loop iteration of a timer task is one transition. */
module SleepTimerMachine {
  import opened SleepTimer

  /** Identity of a launched timer coroutine (its `Job`). */
  type TaskId = nat

  /** What a timer coroutine runs: `runDurationTimer(durationMs)` or
      `runUntilCurrentTrackEnd(targetMusicId)`. */
  datatype Task = DurationTask(durationMs: int) | TrackEndTask(targetMusicId: string)

  /** Where a coroutine is: in its tick loop, inside `onTimerExpired`, or done. */
  datatype Phase = Ticking | Expiring | Completed

  datatype Job = Job(task: Task, phase: Phase, cancelled: bool)
  {
    /** Neither cancelled nor finished. */
    predicate Live() { !cancelled && phase != Completed }
  }

  datatype Machine = Machine(
    state: SleepTimerState,
    timerJob: Option<TaskId>,
    jobs: seq<Job>,
    commands: seq<Command>)

  /** What a loop iteration of a timer task does next. */
  datatype TickOutcome = Continue(delayMs: int) | Expire | Stopped

  datatype Step = Step(machine: Machine, outcome: TickOutcome)

  const Initial: Machine := Machine(DefaultState, None, [], [])

  // ---------------------------------------------------------------------------
  // The invariant

  /** The published state carries exactly the fields of its mode. */
  predicate StateWellFormed(st: SleepTimerState)
  {
    match st.mode
    case Off => st == DefaultState
    case Duration =>
      st.targetMusicId.None? && st.durationMs.Some? && st.durationMs.value >= MinDurationMs
      && st.remainingMs.Some? && st.remainingMs.value >= 0
    case CurrentTrackEnd =>
      st.durationMs.None? && st.targetMusicId.Some?
      && (st.remainingMs.Some? ==> st.remainingMs.value >= 0)
  }

  /** The state was published for this task. */
  predicate Matches(task: Task, st: SleepTimerState)
  {
    match task
    case DurationTask(d) => st.mode == Duration && st.durationMs == Some(d)
    case TrackEndTask(t) => st.mode == CurrentTrackEnd && st.targetMusicId == Some(t)
  }

  /** OFF clears every field; the slot is empty exactly when the timer is OFF;
      the task in the slot is live and its kind and target match the state; and
      no other task is live (single flight). */
  ghost predicate Valid(m: Machine)
  {
    StateWellFormed(m.state)
    && (m.timerJob.None? <==> m.state.mode == Off)
    && (m.timerJob.Some? ==>
          m.timerJob.value < |m.jobs|
          && m.jobs[m.timerJob.value].Live()
          && Matches(m.jobs[m.timerJob.value].task, m.state))
    && (forall j :: 0 <= j < |m.jobs| && m.jobs[j].Live() ==> m.timerJob == Some(j))
  }

  // ---------------------------------------------------------------------------
  // Operations

  /** `cancelTimerJob`: cancel the job in the slot, if any, and empty the slot. */
  function CancelTimerJob(m: Machine): Machine
  {
    match m.timerJob
    case None => m
    case Some(j) =>
      m.(timerJob := None,
         jobs := if j < |m.jobs| then m.jobs[j := m.jobs[j].(cancelled := true)] else m.jobs)
  }

  /** `clearState` */
  function ClearState(m: Machine): Machine
  {
    m.(state := DefaultState)
  }

  /** `cancel` */
  function Cancel(m: Machine): Machine
  {
    ClearState(CancelTimerJob(m))
  }

  /** `timerJob = scope.launch { … }`: a fresh job, installed in the slot. */
  function Launch(m: Machine, task: Task): Machine
  {
    m.(timerJob := Some(|m.jobs|), jobs := m.jobs + [Job(task, Ticking, false)])
  }

  /** `start(durationMs)` */
  function Start(m: Machine, durationMs: int): Machine
  {
    var normalized := NormalizedDuration(durationMs);
    var c := CancelTimerJob(m);
    Launch(c.(state := SleepTimerState(Duration, Some(normalized), Some(normalized), None)),
           DurationTask(normalized))
  }

  /** `startUntilCurrentTrackEnd()` against the current playback snapshot. */
  function StartUntilCurrentTrackEnd(m: Machine, s: PlaybackSnapshot, timeUnset: int): Machine
  {
    match s.musicId
    case None => Cancel(m)
    case Some(target) =>
      var c := CancelTimerJob(m);
      Launch(c.(state := SleepTimerState(CurrentTrackEnd, None, RemainingTrackTime(s, timeUnset), Some(target))),
             TrackEndTask(target))
  }

  function SetPhase(m: Machine, j: TaskId, phase: Phase): Machine
    requires j < |m.jobs|
  {
    m.(jobs := m.jobs[j := m.jobs[j].(phase := phase)])
  }

  predicate IsTicking(m: Machine, j: TaskId)
  {
    j < |m.jobs| && m.jobs[j].phase == Ticking
  }

  /** One iteration of `runDurationTimer`'s loop with the clock reading
      `elapsedMs`. A cancelled job leaves the loop. Otherwise the remaining time
      is written only while the mode is DURATION, and the job expires when it
      reaches 0 or sleeps `min(1000, remaining)`. */
  function DurationTick(m: Machine, j: TaskId, elapsedMs: int): Step
    requires IsTicking(m, j) && m.jobs[j].task.DurationTask?
  {
    if m.jobs[j].cancelled then Step(SetPhase(m, j, Completed), Stopped)
    else
      var remaining := DurationRemaining(m.jobs[j].task.durationMs, elapsedMs);
      var st := if m.state.mode != Duration then m.state else m.state.(remainingMs := Some(remaining));
      var m' := m.(state := st);
      if remaining == 0 then Step(SetPhase(m', j, Expiring), Expire)
      else Step(m', Continue(NextTickDelay(remaining)))
  }

  /** One iteration of `runUntilCurrentTrackEnd`'s loop against snapshot `s`.
      The remaining time is written only while the mode is CURRENT_TRACK_END for
      the same target; the job expires when the track changed, ended, or has
      at most 2500 ms left, and otherwise sleeps 400 ms. */
  function TrackEndPoll(m: Machine, j: TaskId, s: PlaybackSnapshot, timeUnset: int): Step
    requires IsTicking(m, j) && m.jobs[j].task.TrackEndTask?
  {
    if m.jobs[j].cancelled then Step(SetPhase(m, j, Completed), Stopped)
    else
      var target := m.jobs[j].task.targetMusicId;
      var remaining := RemainingTrackTime(s, timeUnset);
      var st := if m.state.mode != CurrentTrackEnd || m.state.targetMusicId != Some(target) then m.state
                else m.state.(remainingMs := remaining);
      var m' := m.(state := st);
      if TrackEndTriggered(target, s, timeUnset) then Step(SetPhase(m', j, Expiring), Expire)
      else Step(m', Continue(EndOfTrackPollingMs))
  }

  /** The exits expiry of job `j` can take: a cancelled exit needs `j` cancelled. */
  predicate ExpiryExitPossible(m: Machine, j: TaskId, s: PlaybackSnapshot, exit: ExpiryExit)
    requires j < |m.jobs|
  {
    ExitPossible(s, exit) && (exit.CancelledAfter? ==> m.jobs[j].cancelled)
  }

  /** `onTimerExpired` of job `j` against snapshot `s`: issue the expiry's calls;
      then, only if `j` still owns the slot, empty the slot and clear the state. */
  function OnTimerExpired(m: Machine, j: TaskId, s: PlaybackSnapshot, exit: ExpiryExit): Machine
    requires j < |m.jobs| && m.jobs[j].phase == Expiring
    requires ExpiryExitPossible(m, j, s, exit)
  {
    var m1 := m.(commands := m.commands + ExpiryCommands(s, exit));
    var m2 := if m.timerJob == Some(j) then m1.(timerJob := None, state := DefaultState) else m1;
    SetPhase(m2, j, Completed)
  }

  /** `runDurationTimer` run without interruption over successive clock readings;
      expiry reads `atExpiry`. When the readings run out the job is still asleep. */
  function RunDuration(m: Machine, j: TaskId, elapsed: seq<int>, atExpiry: PlaybackSnapshot): Machine
    requires IsTicking(m, j) && m.jobs[j].task.DurationTask?
    decreases |elapsed|
  {
    if elapsed == [] then m
    else
      var step := DurationTick(m, j, elapsed[0]);
      match step.outcome
      case Expire => OnTimerExpired(step.machine, j, atExpiry, RanToEnd)
      case Stopped => step.machine
      case Continue(_) => RunDuration(step.machine, j, elapsed[1..], atExpiry)
  }

  /** `runUntilCurrentTrackEnd` run without interruption over successive polls. */
  function RunUntilTrackEnd(m: Machine, j: TaskId, polls: seq<PlaybackSnapshot>, atExpiry: PlaybackSnapshot,
                            timeUnset: int): Machine
    requires IsTicking(m, j) && m.jobs[j].task.TrackEndTask?
    decreases |polls|
  {
    if polls == [] then m
    else
      var step := TrackEndPoll(m, j, polls[0], timeUnset);
      match step.outcome
      case Expire => OnTimerExpired(step.machine, j, atExpiry, RanToEnd)
      case Stopped => step.machine
      case Continue(_) => RunUntilTrackEnd(step.machine, j, polls[1..], atExpiry, timeUnset)
  }
}
