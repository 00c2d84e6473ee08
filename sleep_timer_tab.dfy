/** The display logic of the sleep-timer tab (PlayerMenuSleepTimerTabView.kt):
    the remaining-time label, the status sentence, the preset rows and which
    row is highlighted, and what a click on a row does to the controller. */
module SleepTimerTab {
  import opened SleepTimer
  import opened SleepTimerMachine

  // ---------------------------------------------------------------------------
  // Decimal text

  function DigitChar(d: int): char
    requires 0 <= d < 10
  {
    ('0' as int + d) as char
  }

  /** Decimal digits of a non-negative number, without leading zeros. */
  function NatToString(n: nat): string
    decreases n
  {
    if n < 10 then [DigitChar(n)] else NatToString(n / 10) + [DigitChar(n % 10)]
  }

  /** `Long.toString()` */
  function LongToString(n: int): string
  {
    if n < 0 then "-" + NatToString(-n) else NatToString(n)
  }

  /** `padStart(length, pad)` */
  function PadStart(s: string, length: nat, pad: char): string
  {
    if |s| >= length then s else seq(length - |s|, _ => pad) + s
  }

  /** `Long.toTwoDigits()` */
  function ToTwoDigits(n: int): string
  {
    PadStart(LongToString(n), 2, '0')
  }

  predicate IsDigit(c: char) { '0' <= c <= '9' }

  predicate AllDigits(s: string) { forall i :: 0 <= i < |s| ==> IsDigit(s[i]) }

  /** The value of a string of decimal digits (leading zeros allowed). */
  function DigitsValue(s: string): nat
    requires AllDigits(s)
  {
    if s == [] then 0 else DigitsValue(s[..|s| - 1]) * 10 + (s[|s| - 1] as int - '0' as int)
  }

  // ---------------------------------------------------------------------------
  // The duration label

  /** Kotlin's `/` on `Long`, which truncates toward zero. */
  function TruncDiv(a: int, b: int): int
    requires b > 0
  {
    if a >= 0 then a / b else -((-a) / b)
  }

  /** `(ms / 1_000L).coerceAtLeast(0L)` */
  function ClampedSeconds(ms: int): nat
  {
    var s := TruncDiv(ms, 1000);
    if s < 0 then 0 else s
  }

  /** `Long.toDurationLabel()`: `MM:SS` under an hour, `HH:MM:SS` from an hour on. */
  function DurationLabel(ms: int): string
  {
    var seconds := ClampedSeconds(ms);
    var h := seconds / 3600;
    var m := (seconds % 3600) / 60;
    var sec := seconds % 60;
    FormatClock(h, m, sec)
  }

  /** The layout of a duration label from its hours, minutes and seconds. */
  function FormatClock(h: int, m: int, sec: int): string
  {
    if h > 0 then ToTwoDigits(h) + ":" + ToTwoDigits(m) + ":" + ToTwoDigits(sec)
    else ToTwoDigits(m) + ":" + ToTwoDigits(sec)
  }

  /** The pieces of a text between its `:` separators. */
  function SplitColon(s: string): (r: seq<string>)
    ensures |r| >= 1
  {
    if s == [] then [""]
    else
      var rest := SplitColon(s[1..]);
      if s[0] == ':' then [""] + rest else [[s[0]] + rest[0]] + rest[1..]
  }

  function ParseField(f: string): Option<nat>
  {
    if |f| > 0 && AllDigits(f) then Some(DigitsValue(f)) else None
  }

  /** Reads a `MM:SS` or `HH:MM:SS` label back into seconds. */
  function ParseLabel(text: string): Option<nat>
  {
    var fields := SplitColon(text);
    if |fields| == 2 then
      match (ParseField(fields[0]), ParseField(fields[1]))
      case (Some(m), Some(s)) => Some(m * 60 + s)
      case _ => None
    else if |fields| == 3 then
      match (ParseField(fields[0]), ParseField(fields[1]), ParseField(fields[2]))
      case (Some(h), Some(m), Some(s)) => Some(h * 3600 + m * 60 + s)
      case _ => None
    else None
  }

  // ---------------------------------------------------------------------------
  // The status sentence

  const OffText: string := "Sleep timer is off."
  const DurationPrefix: string := "Playback will stop in "
  const UnknownTimePlaceholder: string := "--:--"
  const TrackEndNoTimeText: string := "Playback will stop at the end of the current track."
  const TrackEndPrefix: string := "Playback will stop at track end ("
  const TrackEndSuffix: string := " left)."

  /** `SleepTimerState.toStatusText()` */
  function StatusText(st: SleepTimerState): string
  {
    match st.mode
    case Off => OffText
    case Duration =>
      var remaining := match st.remainingMs case Some(r) => DurationLabel(r) case None => UnknownTimePlaceholder;
      DurationPrefix + remaining + "."
    case CurrentTrackEnd =>
      match st.remainingMs
      case None => TrackEndNoTimeText
      case Some(r) => TrackEndPrefix + DurationLabel(r) + TrackEndSuffix
  }

  // ---------------------------------------------------------------------------
  // Presets

  datatype SleepTimerPreset =
    | TenMinutes | FifteenMinutes | ThirtyMinutes | FiftyMinutes | OneHour | EndOfCurrentTrack
  {
    function Label(): string
    {
      match this
      case TenMinutes => "10 min"
      case FifteenMinutes => "15 min"
      case ThirtyMinutes => "30 min"
      case FiftyMinutes => "50 min"
      case OneHour => "1 hr"
      case EndOfCurrentTrack => "End of current track"
    }

    function DurationMs(): Option<int>
    {
      match this
      case TenMinutes => Some(10 * 60 * 1000)
      case FifteenMinutes => Some(15 * 60 * 1000)
      case ThirtyMinutes => Some(30 * 60 * 1000)
      case FiftyMinutes => Some(50 * 60 * 1000)
      case OneHour => Some(60 * 60 * 1000)
      case EndOfCurrentTrack => None
    }
  }

  /** `SLEEP_TIMER_PRESETS`, in display order. */
  const SleepTimerPresets: seq<SleepTimerPreset> :=
    [TenMinutes, FifteenMinutes, ThirtyMinutes, FiftyMinutes, OneHour, EndOfCurrentTrack]

  /** The `isSelected` rule of a preset row. */
  predicate IsSelected(preset: SleepTimerPreset, st: SleepTimerState)
  {
    if preset == EndOfCurrentTrack then st.mode == CurrentTrackEnd
    else st.mode == Duration && st.durationMs == preset.DurationMs()
  }

  /** The `onClick` of a preset row, applied to the controller. */
  function OnPresetClick(preset: SleepTimerPreset, m: Machine, playback: PlaybackSnapshot, timeUnset: int): Machine
  {
    if preset == EndOfCurrentTrack then StartUntilCurrentTrackEnd(m, playback, timeUnset)
    else match preset.DurationMs()
      case Some(d) => Start(m, d)
      case None => m
  }
}
