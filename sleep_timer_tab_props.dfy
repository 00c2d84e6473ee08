/** What the sleep-timer tab promises, proved about module SleepTimerTab:
    labels read back to the seconds they show, the status sentence says "off"
    exactly when no timer runs, and at most one preset row is highlighted. */
module SleepTimerTabProps {
  import opened SleepTimer
  import opened SleepTimerMachine
  import opened SleepTimerMachineProps
  import opened SleepTimerTab

  predicate NoColon(s: string) { forall i :: 0 <= i < |s| ==> s[i] != ':' }

  // ---------------------------------------------------------------------------
  // Decimal text

  lemma DigitsValueSnoc(s: string, c: char)
    requires AllDigits(s) && IsDigit(c)
    ensures AllDigits(s + [c]) && DigitsValue(s + [c]) == DigitsValue(s) * 10 + (c as int - '0' as int)
  {
    assert (s + [c])[..|s|] == s;
  }

  /** Decimal digits without leading zeros that read back to the number; one
      digit below 10, at least three from 100 on. */
  lemma {:induction false} NatToStringDigits(n: nat)
    ensures var s := NatToString(n);
      AllDigits(s) && DigitsValue(s) == n && |s| >= 1
      && (|s| == 1 <==> n < 10)
      && (n >= 100 ==> |s| >= 3)
      && (n >= 10 ==> s[0] != '0')
    decreases n
  {
    if n < 10 {
      assert NatToString(n)[..0] == [];
    } else {
      NatToStringDigits(n / 10);
      DigitsValueSnoc(NatToString(n / 10), DigitChar(n % 10));
    }
  }

  lemma {:induction false} ZerosValue(k: nat)
    ensures AllDigits(seq(k, _ => '0')) && DigitsValue(seq(k, _ => '0')) == 0
  {
    if k > 0 {
      assert seq(k, _ => '0')[..k - 1] == seq(k - 1, _ => '0');
      ZerosValue(k - 1);
    }
  }

  /** Leading zeros do not change the value read. */
  lemma {:induction false} LeadingZeros(k: nat, s: string)
    requires AllDigits(s)
    ensures AllDigits(seq(k, _ => '0') + s) && DigitsValue(seq(k, _ => '0') + s) == DigitsValue(s)
    decreases |s|
  {
    var z := seq(k, _ => '0');
    if s == [] {
      assert z + s == z;
      ZerosValue(k);
    } else {
      var init := s[..|s| - 1];
      LeadingZeros(k, init);
      assert z + s == (z + init) + [s[|s| - 1]];
      DigitsValueSnoc(z + init, s[|s| - 1]);
      assert s == init + [s[|s| - 1]];
      DigitsValueSnoc(init, s[|s| - 1]);
    }
  }

  /** `toTwoDigits` left-pads with '0' to at least two characters, never
      truncates, and keeps the decimal text as a suffix. */
  lemma ToTwoDigitsPads(n: int)
    ensures var r := ToTwoDigits(n);
      var text := LongToString(n);
      |r| == Max(|text|, 2)
      && r[|r| - |text|..] == text
      && (forall i :: 0 <= i < |r| - |text| ==> r[i] == '0')
  {
  }

  /** A non-negative number's two-digit field reads back to it, has no `:`,
      and has exactly two digits below 100 and three or more from 100 on. */
  lemma TwoDigitField(n: nat)
    ensures NoColon(ToTwoDigits(n)) && ParseField(ToTwoDigits(n)) == Some(n)
    ensures n < 100 ==> |ToTwoDigits(n)| == 2
    ensures n >= 100 ==> |ToTwoDigits(n)| >= 3
  {
    var text := NatToString(n);
    NatToStringDigits(n);
    if |text| < 2 {
      LeadingZeros(2 - |text|, text);
    }
  }

  // ---------------------------------------------------------------------------
  // Splitting a label

  lemma {:induction false} SplitNoColon(a: string)
    requires NoColon(a)
    ensures SplitColon(a) == [a]
    decreases |a|
  {
    if a != [] {
      SplitNoColon(a[1..]);
      assert [a[0]] + a[1..] == a;
    }
  }

  lemma {:induction false} SplitAtColon(a: string, b: string)
    requires NoColon(a)
    ensures SplitColon(a + ":" + b) == [a] + SplitColon(b)
    decreases |a|
  {
    if a == [] {
      assert a + ":" + b == [':'] + b;
      assert (a + ":" + b)[1..] == b;
    } else {
      assert (a + ":" + b)[1..] == a[1..] + ":" + b;
      SplitAtColon(a[1..], b);
      assert [a[0]] + a[1..] == a;
    }
  }

  // ---------------------------------------------------------------------------
  // The duration label

  /** Hours, minutes below 60 and seconds below 60 add back up to the seconds. */
  lemma SecondsDecomposition(seconds: nat)
    ensures var h := seconds / 3600;
      var m := (seconds % 3600) / 60;
      var sec := seconds % 60;
      0 <= m < 60 && 0 <= sec < 60 && h >= 0
      && h * 3600 + m * 60 + sec == seconds
  {
    var h := seconds / 3600;
    var rest := seconds % 3600;
    assert seconds == h * 3600 + rest;
    assert rest == (rest / 60) * 60 + rest % 60;
    assert rest % 60 == seconds % 60 by {
      assert seconds == (h * 60 + rest / 60) * 60 + rest % 60;
    }
  }

  /** Negative and sub-second inputs all show `00:00`. */
  lemma SubSecondLabel(ms: int)
    requires ms < 1000
    ensures ClampedSeconds(ms) == 0
    ensures DurationLabel(ms) == "00:00"
  {
    if ms < 0 {
      assert (-ms) / 1000 >= 0;
    }
    assert NatToString(0) == "0";
  }

  lemma SplitTwo(a: string, b: string)
    requires NoColon(a) && NoColon(b)
    ensures SplitColon(a + ":" + b) == [a, b]
  {
    SplitNoColon(b);
    SplitAtColon(a, b);
  }

  lemma SplitThree(a: string, b: string, c: string)
    requires NoColon(a) && NoColon(b) && NoColon(c)
    ensures SplitColon(a + ":" + b + ":" + c) == [a, b, c]
  {
    SplitTwo(b, c);
    assert a + ":" + b + ":" + c == a + ":" + (b + ":" + c);
    SplitAtColon(a, b + ":" + c);
  }

  lemma ClockTextFields(h: nat, m: nat, sec: nat)
    ensures var fields := SplitColon(FormatClock(h, m, sec));
      fields == if h > 0 then [ToTwoDigits(h), ToTwoDigits(m), ToTwoDigits(sec)]
                else [ToTwoDigits(m), ToTwoDigits(sec)]
  {
    TwoDigitField(h);
    TwoDigitField(m);
    TwoDigitField(sec);
    if h > 0 {
      SplitThree(ToTwoDigits(h), ToTwoDigits(m), ToTwoDigits(sec));
    } else {
      SplitTwo(ToTwoDigits(m), ToTwoDigits(sec));
    }
  }

  lemma ParseTwo(a: string, b: string, x: nat, y: nat)
    requires NoColon(a) && NoColon(b) && ParseField(a) == Some(x) && ParseField(b) == Some(y)
    ensures ParseLabel(a + ":" + b) == Some(x * 60 + y)
  {
    SplitTwo(a, b);
  }

  lemma ParseThree(a: string, b: string, c: string, x: nat, y: nat, z: nat)
    requires NoColon(a) && NoColon(b) && NoColon(c)
    requires ParseField(a) == Some(x) && ParseField(b) == Some(y) && ParseField(c) == Some(z)
    ensures ParseLabel(a + ":" + b + ":" + c) == Some(x * 3600 + y * 60 + z)
  {
    SplitThree(a, b, c);
  }

  lemma ClockTextParse(h: nat, m: nat, sec: nat)
    ensures ParseLabel(FormatClock(h, m, sec)) == Some(h * 3600 + m * 60 + sec)
  {
    TwoDigitField(m);
    TwoDigitField(sec);
    if h > 0 {
      TwoDigitField(h);
      assert FormatClock(h, m, sec) == ToTwoDigits(h) + ":" + ToTwoDigits(m) + ":" + ToTwoDigits(sec);
      ParseThree(ToTwoDigits(h), ToTwoDigits(m), ToTwoDigits(sec), h, m, sec);
    } else {
      assert FormatClock(h, m, sec) == ToTwoDigits(m) + ":" + ToTwoDigits(sec);
      ParseTwo(ToTwoDigits(m), ToTwoDigits(sec), m, sec);
    }
  }

  /** The fields of a label: `MM:SS` below an hour, `HH:MM:SS` from an hour on,
      minutes and seconds always two digits, hours two or more. */
  lemma DurationLabelFields(ms: int)
    ensures var seconds := ClampedSeconds(ms);
      var h := seconds / 3600;
      var m := (seconds % 3600) / 60;
      var sec := seconds % 60;
      var fields := SplitColon(DurationLabel(ms));
      (h == 0 ==> fields == [ToTwoDigits(m), ToTwoDigits(sec)] && |DurationLabel(ms)| == 5)
      && (h > 0 ==> fields == [ToTwoDigits(h), ToTwoDigits(m), ToTwoDigits(sec)]
                    && |fields[0]| >= 2 && (h >= 100 ==> |fields[0]| >= 3))
      && |fields[|fields| - 2]| == 2 && |fields[|fields| - 1]| == 2
  {
    var seconds := ClampedSeconds(ms);
    SecondsDecomposition(seconds);
    var h, m, sec := seconds / 3600, (seconds % 3600) / 60, seconds % 60;
    ClockTextFields(h, m, sec);
    TwoDigitField(h);
    TwoDigitField(m);
    TwoDigitField(sec);
  }

  /** Reading a label back yields the clamped seconds it was made from. */
  lemma DurationLabelRoundTrip(ms: int)
    ensures ParseLabel(DurationLabel(ms)) == Some(ClampedSeconds(ms))
  {
    var seconds := ClampedSeconds(ms);
    SecondsDecomposition(seconds);
    var h, m, sec := seconds / 3600, (seconds % 3600) / 60, seconds % 60;
    ClockTextParse(h, m, sec);
  }

  /** Two durations get the same label exactly when they have the same number
      of whole seconds (negative durations count as 0). */
  lemma DurationLabelSameIffSameSecond(a: int, b: int)
    ensures DurationLabel(a) == DurationLabel(b) <==> ClampedSeconds(a) == ClampedSeconds(b)
  {
    DurationLabelRoundTrip(a);
    DurationLabelRoundTrip(b);
  }

  /** `Long.toString()`: a minus sign exactly for negative numbers, then the
      decimal digits of the magnitude. */
  lemma LongToStringSign(n: int)
    ensures var r := LongToString(n);
      |r| >= 1 && (r[0] == '-' <==> n < 0)
      && (n < 0 ==> AllDigits(r[1..]) && DigitsValue(r[1..]) == -n)
      && (n >= 0 ==> AllDigits(r) && DigitsValue(r) == n)
  {
    if n < 0 {
      NatToStringDigits(-n);
      assert LongToString(n)[1..] == NatToString(-n);
    } else {
      NatToStringDigits(n);
    }
  }

  // ---------------------------------------------------------------------------
  // The status sentence

  /** The status says the timer is off exactly when no timer is active. */
  lemma StatusTextOffIffInactive(st: SleepTimerState)
    ensures StatusText(st) == OffText <==> !st.IsActive()
  {
    if st.IsActive() {
      var text := StatusText(st);
      if st.mode == Duration {
        var remaining := match st.remainingMs case Some(r) => DurationLabel(r) case None => UnknownTimePlaceholder;
        assert text == DurationPrefix + (remaining + ".");
        assert text[0] == DurationPrefix[0] == 'P';
      } else if st.remainingMs.None? {
        assert text == TrackEndNoTimeText;
        assert text[0] == TrackEndNoTimeText[0] == 'P';
      } else {
        assert text == TrackEndPrefix + (DurationLabel(st.remainingMs.value) + TrackEndSuffix);
        assert text[0] == TrackEndPrefix[0] == 'P';
      }
      assert text[0] == 'P' && OffText[0] == 'S';
    }
  }

  /** An active timer's status shows its remaining time as a label that reads
      back to the remaining seconds, or a no-time wording when it is unknown. */
  lemma StatusTextShowsRemaining(st: SleepTimerState)
    requires st.IsActive()
    ensures var text := StatusText(st);
      match st.remainingMs
      case Some(r) =>
        (var prefix := if st.mode == Duration then DurationPrefix else TrackEndPrefix;
         var suffix := if st.mode == Duration then "." else TrackEndSuffix;
         |text| == |prefix| + |DurationLabel(r)| + |suffix|
         && text[..|prefix|] == prefix
         && text[|text| - |suffix|..] == suffix
         && ParseLabel(text[|prefix|..|text| - |suffix|]) == Some(ClampedSeconds(r)))
      case None =>
        text == (if st.mode == Duration then DurationPrefix + UnknownTimePlaceholder + "." else TrackEndNoTimeText)
  {
    match st.remainingMs
    case Some(r) =>
      var prefix := if st.mode == Duration then DurationPrefix else TrackEndPrefix;
      var suffix := if st.mode == Duration then "." else TrackEndSuffix;
      var text := StatusText(st);
      assert text == prefix + DurationLabel(r) + suffix;
      assert text[|prefix|..|text| - |suffix|] == DurationLabel(r);
      DurationLabelRoundTrip(r);
    case None =>
  }

  /** Character 19 of an active timer's status tells the two modes apart:
      "… stop in …" for DURATION, "… stop at …" for CURRENT_TRACK_END. */
  lemma StatusTextModeMark(st: SleepTimerState)
    requires st.IsActive()
    ensures |StatusText(st)| > 19
    ensures StatusText(st)[19] == (if st.mode == Duration then 'i' else 'a')
  {
    var text := StatusText(st);
    if st.mode == Duration {
      var remaining := match st.remainingMs case Some(r) => DurationLabel(r) case None => UnknownTimePlaceholder;
      assert text == DurationPrefix + (remaining + ".");
      assert text[19] == DurationPrefix[19] == 'i';
    } else if st.remainingMs.None? {
      assert text[19] == TrackEndNoTimeText[19] == 'a';
    } else {
      assert text == TrackEndPrefix + (DurationLabel(st.remainingMs.value) + TrackEndSuffix);
      assert text[19] == TrackEndPrefix[19] == 'a';
    }
  }

  /** The status sentence tells the modes apart: states in different modes never
      show the same text. */
  lemma StatusTextDistinguishesModes(a: SleepTimerState, b: SleepTimerState)
    requires a.mode != b.mode
    ensures StatusText(a) != StatusText(b)
  {
    StatusTextOffIffInactive(a);
    StatusTextOffIffInactive(b);
    if a.IsActive() && b.IsActive() {
      StatusTextModeMark(a);
      StatusTextModeMark(b);
    }
  }

  // ---------------------------------------------------------------------------
  // Presets

  /** Every duration preset is at least the controller's minimum, so `start`
      keeps it as it is, and no two presets share a duration. */
  lemma PresetDurations()
    ensures forall i :: 0 <= i < |SleepTimerPresets| && SleepTimerPresets[i].DurationMs().Some? ==>
      SleepTimerPresets[i].DurationMs().value >= MinDurationMs
      && NormalizedDuration(SleepTimerPresets[i].DurationMs().value) == SleepTimerPresets[i].DurationMs().value
    ensures forall i, j :: 0 <= i < j < |SleepTimerPresets| && SleepTimerPresets[i].DurationMs().Some? ==>
      SleepTimerPresets[i].DurationMs() != SleepTimerPresets[j].DurationMs()
    ensures forall i :: 0 <= i < |SleepTimerPresets| ==>
      (SleepTimerPresets[i].DurationMs().None? <==> SleepTimerPresets[i] == EndOfCurrentTrack)
  {
  }

  /** In any state at most one preset row is highlighted. */
  lemma AtMostOneSelected(st: SleepTimerState)
    ensures forall i, j ::
      (0 <= i < |SleepTimerPresets| && 0 <= j < |SleepTimerPresets|
       && IsSelected(SleepTimerPresets[i], st) && IsSelected(SleepTimerPresets[j], st)) ==> i == j
  {
    PresetDurations();
  }

  /** Which row is highlighted follows the mode: none while the timer is OFF,
      only "End of current track" in CURRENT_TRACK_END, and never "End of
      current track" during a DURATION timer. */
  lemma SelectionFollowsMode(st: SleepTimerState)
    ensures st.mode == Off ==> forall q :: q in SleepTimerPresets ==> !IsSelected(q, st)
    ensures st.mode == CurrentTrackEnd ==>
      forall q :: q in SleepTimerPresets ==> (IsSelected(q, st) <==> q == EndOfCurrentTrack)
    ensures st.mode == Duration ==> !IsSelected(EndOfCurrentTrack, st)
  {
  }

  /** Clicking a duration preset starts the timer with that preset's duration,
      and that row, and no other, becomes highlighted; clicking "End of current
      track" highlights that row when a track is current and otherwise turns the
      timer off with no row highlighted. */
  lemma ClickSelectsPreset(preset: SleepTimerPreset, m: Machine, playback: PlaybackSnapshot, timeUnset: int)
    requires Valid(m)
    ensures var r := OnPresetClick(preset, m, playback, timeUnset);
      Valid(r)
      && (preset != EndOfCurrentTrack ==>
            r.state.mode == Duration && r.state.durationMs == preset.DurationMs())
      && (preset != EndOfCurrentTrack || playback.musicId.Some? ==>
            forall q :: q in SleepTimerPresets ==> (IsSelected(q, r.state) <==> q == preset))
      && (preset == EndOfCurrentTrack && playback.musicId.None? ==>
            r.state == DefaultState && forall q :: q in SleepTimerPresets ==> !IsSelected(q, r.state))
  {
    PresetDurations();
    if preset == EndOfCurrentTrack {
      if playback.musicId.Some? {
        StartUntilTrackEndEstablishes(m, playback, timeUnset);
      } else {
        StartUntilTrackEndWithoutTrack(m, playback, timeUnset);
        CancelResets(m);
      }
    } else {
      var d := preset.DurationMs().value;
      assert preset == SleepTimerPresets[0] || preset == SleepTimerPresets[1] || preset == SleepTimerPresets[2]
          || preset == SleepTimerPresets[3] || preset == SleepTimerPresets[4];
      StartEstablishes(m, d);
    }
  }
}
