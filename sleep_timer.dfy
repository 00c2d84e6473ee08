/** Values, constants and pure helpers of the sleep timer (SleepTimerController.kt):
    the published state, the playback snapshot it reads, the commands it issues,
    and the arithmetic of the countdown, of the track-end poll and of the fade-out. */
module SleepTimer {

  datatype Option<T> = None | Some(value: T)

  function Max(a: int, b: int): int { if a >= b then a else b }
  function Min(a: int, b: int): int { if a <= b then a else b }

  // ---------------------------------------------------------------------------
  // Constants of the controller (the companion object and the literal in `start`)

  const MinDurationMs: int := 1000
  const DurationTickMs: int := 1000
  const EndOfTrackPollingMs: int := 400
  const FadeOutDurationMs: int := 2500
  const FadeOutStepMs: int := 125
  /** The track-end trigger margin is the fade-out duration itself. */
  const EndOfTrackTriggerMs: int := FadeOutDurationMs
  const MinFadeVolume: real := 0.01
  /** `(FADE_OUT_DURATION_MS / FADE_OUT_STEP_MS).coerceAtLeast(1)` */
  const FadeSteps: int := Max(FadeOutDurationMs / FadeOutStepMs, 1)

  // ---------------------------------------------------------------------------
  // Published state

  datatype SleepTimerMode = Off | Duration | CurrentTrackEnd

  datatype SleepTimerState = SleepTimerState(
    mode: SleepTimerMode,
    durationMs: Option<int>,
    remainingMs: Option<int>,
    targetMusicId: Option<string>)
  {
    predicate IsActive() { mode != Off }
  }

  /** `SleepTimerState()`: every field at its default. */
  const DefaultState: SleepTimerState := SleepTimerState(Off, None, None, None)

  // ---------------------------------------------------------------------------
  // What the timer reads from the playback state stream

  /** Only ENDED is distinguished by the timer; every other status is `NotEnded`. */
  datatype PlayingStatus = Ended | NotEnded

  datatype PlaybackSnapshot = PlaybackSnapshot(
    musicId: Option<string>,
    position: int,
    duration: int,
    status: PlayingStatus,
    volume: real,
    isMuted: bool)

  // ---------------------------------------------------------------------------
  // What the timer does to playback

  /** A call on the media playback controller. */
  datatype Command = SetVolume(level: real) | Pause

  /** The timeline of an expiry: controller calls and the delays between them. */
  datatype Effect = Call(command: Command) | Sleep(ms: int)

  // ---------------------------------------------------------------------------
  // Countdown arithmetic

  /** `durationMs.coerceAtLeast(1_000L)`: the least value that is at least both. */
  function NormalizedDuration(durationMs: int): (r: int)
    ensures r >= durationMs && r >= MinDurationMs
    ensures r == durationMs || r == MinDurationMs
  {
    Max(durationMs, MinDurationMs)
  }

  /** Remaining time of a duration countdown after `elapsedMs`:
      `(durationMs - elapsedMs).coerceAtLeast(0L)`. */
  function DurationRemaining(durationMs: int, elapsedMs: int): (r: int)
    ensures r >= 0
    ensures r == 0 <==> elapsedMs >= durationMs
    ensures r > 0 ==> elapsedMs + r == durationMs
  {
    Max(durationMs - elapsedMs, 0)
  }

  /** The sleep before the next tick: `minOf(DURATION_TICK_MS, remainingMs)`. */
  function NextTickDelay(remainingMs: int): (r: int)
    ensures r <= DurationTickMs && r <= remainingMs
    ensures r == DurationTickMs || r == remainingMs
  {
    Min(DurationTickMs, remainingMs)
  }

  /** `calculateRemainingTrackTime`: `None` when the duration or the position is
      unknown (non-positive duration, negative position, or the `timeUnset`
      sentinel), otherwise the time left in the track, never negative. */
  function RemainingTrackTime(s: PlaybackSnapshot, timeUnset: int): (r: Option<int>)
    ensures r.None? <==>
      (s.duration <= 0 || s.duration == timeUnset || s.position < 0 || s.position == timeUnset)
    ensures r.Some? ==> 0 <= r.value <= s.duration
    ensures r.Some? && s.position <= s.duration ==> s.position + r.value == s.duration
    ensures r.Some? && s.position >= s.duration ==> r.value == 0
  {
    if s.duration <= 0 || s.duration == timeUnset then None
    else if s.position < 0 || s.position == timeUnset then None
    else Some(Max(s.duration - s.position, 0))
  }

  /** The expiry condition of a track-end poll for a timer anchored to `target`. */
  predicate TrackEndTriggered(target: string, s: PlaybackSnapshot, timeUnset: int)
  {
    var remaining := RemainingTrackTime(s, timeUnset);
    s.musicId != Some(target)
    || s.status == Ended
    || (remaining.Some? && remaining.value <= EndOfTrackTriggerMs)
  }

  // ---------------------------------------------------------------------------
  // Fade-out

  /** `volume.coerceIn(0f, 1f)` */
  function Clamp01(v: real): (r: real)
    ensures 0.0 <= r <= 1.0
    ensures v < 0.0 ==> r == 0.0
    ensures v > 1.0 ==> r == 1.0
    ensures 0.0 <= v <= 1.0 ==> r == v
  {
    if v < 0.0 then 0.0 else if v > 1.0 then 1.0 else v
  }

  /** Expiry fades only when playback is not muted and the volume is audible. */
  predicate ShouldFade(s: PlaybackSnapshot)
  {
    !s.isMuted && Clamp01(s.volume) > MinFadeVolume
  }

  /** Volume set at fade step `index`: `(v * (1 - (index + 1) / fadeSteps)).coerceAtLeast(0f)`. */
  function FadeVolume(v: real, index: int): real
  {
    var x := v * (1.0 - (index + 1) as real / FadeSteps as real);
    if x < 0.0 then 0.0 else x
  }

  /** The volume commands of the first `n` fade steps. */
  function FadeCommands(v: real, n: nat): seq<Command>
  {
    if n == 0 then [] else FadeCommands(v, n - 1) + [SetVolume(FadeVolume(v, n - 1))]
  }

  /** The timeline of the first `n` fade steps: a volume call per step and a
      `FADE_OUT_STEP_MS` delay between two consecutive steps. */
  function FadeEffects(v: real, n: nat): seq<Effect>
  {
    if n == 0 then []
    else FadeEffects(v, n - 1)
         + (if n - 1 > 0 then [Sleep(FadeOutStepMs)] else [])
         + [Call(SetVolume(FadeVolume(v, n - 1)))]
  }

  /** How an expiry ends: it runs to the end, or it is cancelled while sleeping
      after fade step `step` (the delays are its only suspension points). */
  datatype ExpiryExit = RanToEnd | CancelledAfter(step: nat)

  /** The exits an expiry can take: a cancellation needs a fade in progress and
      is observed in one of the `FadeSteps - 1` delays. */
  predicate ExitPossible(s: PlaybackSnapshot, exit: ExpiryExit)
  {
    exit.CancelledAfter? ==> ShouldFade(s) && exit.step < FadeSteps - 1
  }

  /** The timeline of `onTimerExpired`: fade, pause, and restore the original
      volume in `finally`; on cancellation `catch` restores it once and
      `finally` once more. */
  function ExpiryEffects(s: PlaybackSnapshot, exit: ExpiryExit): seq<Effect>
  {
    var original := Clamp01(s.volume);
    if !ShouldFade(s) then [Call(Pause)]
    else match exit
      case RanToEnd =>
        FadeEffects(original, FadeSteps) + [Call(Pause), Call(SetVolume(original))]
      case CancelledAfter(k) =>
        FadeEffects(original, k + 1) + [Call(SetVolume(original)), Call(SetVolume(original))]
  }

  /** The controller calls of a timeline, in order. */
  function Calls(effects: seq<Effect>): seq<Command>
  {
    if effects == [] then []
    else Calls(effects[..|effects| - 1])
         + (match effects[|effects| - 1] case Call(c) => [c] case Sleep(_) => [])
  }

  /** The delays of a timeline, in order. */
  function Sleeps(effects: seq<Effect>): seq<int>
  {
    if effects == [] then []
    else Sleeps(effects[..|effects| - 1])
         + (match effects[|effects| - 1] case Call(_) => [] case Sleep(ms) => [ms])
  }

  function Sum(xs: seq<int>): int
  {
    if xs == [] then 0 else Sum(xs[..|xs| - 1]) + xs[|xs| - 1]
  }

  /** The calls `onTimerExpired` makes on the playback controller. */
  function ExpiryCommands(s: PlaybackSnapshot, exit: ExpiryExit): seq<Command>
  {
    Calls(ExpiryEffects(s, exit))
  }
}
