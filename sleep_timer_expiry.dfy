/** Properties of the expiry sequence of SleepTimerController.kt (`onTimerExpired`):
    the fade steps, the pause, and the restoration of the original volume on every exit. */
module SleepTimerExpiry {
  import opened SleepTimer

  lemma {:induction false} CallsAppend(a: seq<Effect>, b: seq<Effect>)
    ensures Calls(a + b) == Calls(a) + Calls(b)
    decreases |b|
  {
    if b == [] {
      assert a + b == a;
    } else {
      var b' := b[..|b| - 1];
      assert (a + b)[..|a + b| - 1] == a + b';
      CallsAppend(a, b');
    }
  }

  lemma {:induction false} SleepsAppend(a: seq<Effect>, b: seq<Effect>)
    ensures Sleeps(a + b) == Sleeps(a) + Sleeps(b)
    decreases |b|
  {
    if b == [] {
      assert a + b == a;
    } else {
      var b' := b[..|b| - 1];
      assert (a + b)[..|a + b| - 1] == a + b';
      SleepsAppend(a, b');
    }
  }

  lemma CallsSingleton(e: Effect)
    ensures Calls([e]) == (match e case Call(c) => [c] case Sleep(_) => [])
  {
    assert [e][..0] == [];
  }

  /** One fade step adds its volume call, and its delay adds no call. */
  lemma FadeStepCalls(prev: seq<Effect>, gap: seq<Effect>, c: Command)
    requires gap == [] || gap == [Sleep(FadeOutStepMs)]
    ensures Calls(prev + gap + [Call(c)]) == Calls(prev) + [c]
  {
    CallsAppend(prev, gap);
    CallsAppend(prev + gap, [Call(c)]);
    if gap != [] {
      CallsSingleton(gap[0]);
    }
    CallsSingleton(Call(c));
  }

  /** The calls of the fade timeline are exactly the fade's volume commands. */
  lemma {:induction false} CallsOfFade(v: real, n: nat)
    ensures Calls(FadeEffects(v, n)) == FadeCommands(v, n)
  {
    if n > 0 {
      var gap: seq<Effect> := if n - 1 > 0 then [Sleep(FadeOutStepMs)] else [];
      var step := SetVolume(FadeVolume(v, n - 1));
      assert FadeEffects(v, n) == FadeEffects(v, n - 1) + gap + [Call(step)];
      CallsOfFade(v, n - 1);
      FadeStepCalls(FadeEffects(v, n - 1), gap, step);
    }
  }

  /** Fade step `i` sets the `i`-th fade volume. */
  lemma {:induction false} FadeCommandsAt(v: real, n: nat)
    ensures |FadeCommands(v, n)| == n
    ensures forall i :: 0 <= i < n ==> FadeCommands(v, n)[i] == SetVolume(FadeVolume(v, i))
  {
    if n > 0 {
      FadeCommandsAt(v, n - 1);
    }
  }

  /** `n` fade steps are separated by `n - 1` delays of `FADE_OUT_STEP_MS`. */
  lemma {:induction false} SleepsOfFade(v: real, n: nat)
    requires n >= 1
    ensures Sleeps(FadeEffects(v, n)) == seq(n - 1, _ => FadeOutStepMs)
  {
    var last: seq<Effect> := [Call(SetVolume(FadeVolume(v, n - 1)))];
    assert Sleeps(last) == [] by { assert last[..0] == []; }
    if n == 1 {
      assert FadeEffects(v, 0) == [];
      assert FadeEffects(v, 1) == [] + [] + last;
    } else {
      var gap: seq<Effect> := [Sleep(FadeOutStepMs)];
      SleepsOfFade(v, n - 1);
      SleepsAppend(FadeEffects(v, n - 1), gap);
      SleepsAppend(FadeEffects(v, n - 1) + gap, last);
      assert Sleeps(gap) == [FadeOutStepMs] by { assert gap[..0] == []; }
      assert seq(n - 1, _ => FadeOutStepMs) == seq(n - 2, _ => FadeOutStepMs) + [FadeOutStepMs];
    }
  }

  lemma {:induction false} SumConstant(n: nat, c: int)
    ensures Sum(seq(n, _ => c)) == n * c
  {
    if n > 0 {
      assert seq(n, _ => c)[..n - 1] == seq(n - 1, _ => c);
      SumConstant(n - 1, c);
    }
  }

  /** Expiry fades exactly when playback is not muted and the volume is above
      0.01; clamping the volume into [0, 1] first never changes that decision. */
  lemma ShouldFadeIff(s: PlaybackSnapshot)
    ensures ShouldFade(s) <==> !s.isMuted && s.volume > MinFadeVolume
  {
  }

  /** The fade curve has the same shape at every starting volume: from a volume
      `v` in [0, 1], step `i` sets `v` times what it sets from full volume. */
  lemma FadeVolumeScales(v: real, i: int)
    requires 0.0 <= v <= 1.0 && 0 <= i < FadeSteps
    ensures FadeVolume(v, i) == v * FadeVolume(1.0, i)
    ensures 0.0 <= FadeVolume(v, i) <= v
  {
    assert FadeSteps == 20;
    var x := 1.0 - (i + 1) as real / 20.0;
    assert 0.0 <= x < 1.0;
    assert FadeVolume(1.0, i) == x;
    assert 0.0 <= v * x <= v;
  }

  /** An expiry waits only between fade steps: not at all without a fade,
      nineteen 125 ms delays when it runs to the end, `k` when it is cancelled
      after step `k`; and the last thing it does is a controller call. */
  lemma ExpiryDelays(s: PlaybackSnapshot, exit: ExpiryExit)
    ensures var effects := ExpiryEffects(s, exit);
      Sleeps(effects) == (if !ShouldFade(s) then []
                          else match exit
                            case RanToEnd => seq(FadeSteps - 1, _ => FadeOutStepMs)
                            case CancelledAfter(k) => seq(k, _ => FadeOutStepMs))
      && |effects| > 0 && effects[|effects| - 1].Call?
  {
    var original := Clamp01(s.volume);
    if !ShouldFade(s) {
      var e: seq<Effect> := [Call(Pause)];
      assert e[..0] == [];
      assert Sleeps(e) == [];
    } else {
      var n := match exit case RanToEnd => FadeSteps case CancelledAfter(k) => k + 1;
      var tail: seq<Effect> := match exit
        case RanToEnd => [Call(Pause), Call(SetVolume(original))]
        case CancelledAfter(_) => [Call(SetVolume(original)), Call(SetVolume(original))];
      assert ExpiryEffects(s, exit) == FadeEffects(original, n) + tail;
      SleepsAppend(FadeEffects(original, n), tail);
      SleepsOfFade(original, n);
      assert tail[..1][..0] == [];
      assert Sleeps(tail[..1]) == [];
      assert tail[..|tail| - 1] == tail[..1];
      assert Sleeps(tail) == [];
    }
  }

  /** The controller calls of an expiry, written out per exit. */
  lemma ExpiryCommandsForm(s: PlaybackSnapshot, exit: ExpiryExit)
    ensures ExpiryCommands(s, exit) ==
      (var original := Clamp01(s.volume);
       if !ShouldFade(s) then [Pause]
       else match exit
         case RanToEnd => FadeCommands(original, FadeSteps) + [Pause, SetVolume(original)]
         case CancelledAfter(k) => FadeCommands(original, k + 1) + [SetVolume(original), SetVolume(original)])
  {
    var original := Clamp01(s.volume);
    if !ShouldFade(s) {
      var e: seq<Effect> := [Call(Pause)];
      assert e[..0] == [];
      assert Calls(e) == [Pause];
    } else {
      var n := match exit case RanToEnd => FadeSteps case CancelledAfter(k) => k + 1;
      var tail: seq<Effect> := match exit
        case RanToEnd => [Call(Pause), Call(SetVolume(original))]
        case CancelledAfter(_) => [Call(SetVolume(original)), Call(SetVolume(original))];
      assert ExpiryEffects(s, exit) == FadeEffects(original, n) + tail;
      CallsAppend(FadeEffects(original, n), tail);
      CallsOfFade(original, n);
      assert tail[..1][..0] == [];
      assert Calls(tail[..1]) == [tail[0].command];
      assert tail[..|tail| - 1] == tail[..1];
      assert Calls(tail) == [tail[0].command, tail[1].command];
    }
  }

  /** For an audible volume `v`, fade step `i` sets `v * (1 - (i + 1) / 20)`:
      below the original volume, and 0 at the last step. */
  lemma FadeVolumeAt(v: real, i: int)
    requires 0.0 < v <= 1.0 && 0 <= i < FadeSteps
    ensures FadeSteps == 20
    ensures FadeVolume(v, i) == v * (1.0 - (i + 1) as real / 20.0)
    ensures 0.0 <= FadeVolume(v, i) < v
    ensures FadeVolume(v, i) == 0.0 <==> i == FadeSteps - 1
  {
    var p := (i + 1) as real / 20.0;
    assert 0.0 < p <= 1.0;
    assert v * (1.0 - p) == v - v * p;
    assert 0.0 < v * p <= v;
    assert i == FadeSteps - 1 <==> p == 1.0;
    assert v * p == v <==> p == 1.0;
  }

  /** Fade volumes strictly decrease from one step to the next. */
  lemma FadeStrictlyDecreasing(v: real, i: int, k: int)
    requires 0.0 < v <= 1.0 && 0 <= i < k < FadeSteps
    ensures FadeVolume(v, k) < FadeVolume(v, i)
  {
    FadeVolumeAt(v, i);
    FadeVolumeAt(v, k);
    var p := (i + 1) as real / 20.0;
    var q := (k + 1) as real / 20.0;
    assert p < q;
    assert v * q - v * p == v * (q - p);
    assert v * (q - p) > 0.0;
  }

  /** An expiry that fades: twenty volume commands, strictly decreasing from
      below the original volume down to 0, then one pause, then the original
      volume restored. */
  lemma FullFade(s: PlaybackSnapshot)
    requires ShouldFade(s)
    ensures var cmds := ExpiryCommands(s, RanToEnd);
      var original := Clamp01(s.volume);
      |cmds| == 22
      && (forall i :: 0 <= i < 20 ==> cmds[i].SetVolume? && 0.0 <= cmds[i].level < original)
      && (forall i, k :: 0 <= i < k < 20 ==> cmds[k].level < cmds[i].level)
      && cmds[19] == SetVolume(0.0)
      && cmds[20] == Pause
      && cmds[21] == SetVolume(original)
  {
    var original := Clamp01(s.volume);
    ExpiryCommandsForm(s, RanToEnd);
    var cmds := ExpiryCommands(s, RanToEnd);
    var fade := FadeCommands(original, FadeSteps);
    FadeDescends(original);
    assert cmds == fade + [Pause, SetVolume(original)];
    assert cmds[..20] == fade;
  }

  /** The twenty volume commands of a full fade from an audible volume `v`:
      each below `v`, strictly decreasing, the last one 0. */
  lemma FadeDescends(v: real)
    requires 0.0 < v <= 1.0
    ensures var fade := FadeCommands(v, FadeSteps);
      |fade| == 20
      && (forall i :: 0 <= i < 20 ==> fade[i].SetVolume? && 0.0 <= fade[i].level < v)
      && (forall i, k :: 0 <= i < k < 20 ==> fade[k].level < fade[i].level)
      && fade[19] == SetVolume(0.0)
  {
    assert FadeSteps == 20;
    var fade := FadeCommands(v, 20);
    FadeCommandsAt(v, 20);
    forall i | 0 <= i < 20
      ensures fade[i].SetVolume? && 0.0 <= fade[i].level < v
    {
      FadeVolumeAt(v, i);
    }
    forall i, k | 0 <= i < k < 20
      ensures fade[k].level < fade[i].level
    {
      FadeStrictlyDecreasing(v, i, k);
    }
    FadeVolumeAt(v, 19);
  }

  /** The twenty fade steps are separated by nineteen 125 ms delays: 2375 ms in
      all, within the track-end trigger margin, so a fade started by the
      track-end poll is over before the track ends. */
  lemma FadeTiming(s: PlaybackSnapshot)
    requires ShouldFade(s)
    ensures Sleeps(ExpiryEffects(s, RanToEnd)) == seq(19, _ => FadeOutStepMs)
    ensures Sum(Sleeps(ExpiryEffects(s, RanToEnd))) == 2375 <= EndOfTrackTriggerMs
  {
    var original := Clamp01(s.volume);
    var tail: seq<Effect> := [Call(Pause), Call(SetVolume(original))];
    assert ExpiryEffects(s, RanToEnd) == FadeEffects(original, FadeSteps) + tail;
    SleepsAppend(FadeEffects(original, FadeSteps), tail);
    SleepsOfFade(original, FadeSteps);
    assert tail[..1][..0] == [];
    assert Sleeps(tail[..1]) == [];
    assert tail[..|tail| - 1] == tail[..1];
    assert Sleeps(tail) == [];
    SumConstant(19, FadeOutStepMs);
  }

  /** Expiry without a fade (muted, or volume at most 0.01) only pauses. */
  lemma NoFadeOnlyPauses(s: PlaybackSnapshot, exit: ExpiryExit)
    requires !ShouldFade(s)
    ensures ExpiryCommands(s, exit) == [Pause]
  {
    ExpiryCommandsForm(s, exit);
  }

  /** A fade cancelled after step `k`: the first `k + 1` fade volumes, no
      pause, and the original volume restored (by `catch` and by `finally`). */
  lemma CancelledFade(s: PlaybackSnapshot, k: nat)
    requires ExitPossible(s, CancelledAfter(k))
    ensures var cmds := ExpiryCommands(s, CancelledAfter(k));
      var original := Clamp01(s.volume);
      |cmds| == k + 3
      && (forall i :: 0 <= i <= k ==> cmds[i] == SetVolume(FadeVolume(original, i)) && cmds[i].level < original)
      && cmds[k + 1] == cmds[k + 2] == SetVolume(original)
      && Pause !in cmds
  {
    var original := Clamp01(s.volume);
    ExpiryCommandsForm(s, CancelledAfter(k));
    FadeCommandsAt(original, k + 1);
    forall i | 0 <= i <= k
      ensures FadeVolume(original, i) < original
    {
      FadeVolumeAt(original, i);
    }
  }

  /** Whatever the exit, an expiry that started a fade ends by setting the
      original volume back; one that did not only pauses. */
  lemma ExpiryRestoresVolume(s: PlaybackSnapshot, exit: ExpiryExit)
    requires ExitPossible(s, exit)
    ensures var cmds := ExpiryCommands(s, exit);
      |cmds| > 0
      && (ShouldFade(s) ==> cmds[|cmds| - 1] == SetVolume(Clamp01(s.volume)))
      && (!ShouldFade(s) ==> forall c :: c in cmds ==> c == Pause)
  {
    ExpiryCommandsForm(s, exit);
  }

  /** Half volume, not muted: the fade passes through a level strictly between
      0 and 0.5, pauses once, and the last volume set is 0.5 again. */
  lemma HalfVolumeFade(s: PlaybackSnapshot)
    requires !s.isMuted && s.volume == 0.5
    ensures var cmds := ExpiryCommands(s, RanToEnd);
      (exists i :: 0 <= i < |cmds| && cmds[i].SetVolume? && 0.0 < cmds[i].level < 0.5)
      && cmds[|cmds| - 1] == SetVolume(0.5)
      && multiset(cmds)[Pause] == 1
  {
    FullFade(s);
    var cmds := ExpiryCommands(s, RanToEnd);
    FadeVolumeAt(0.5, 0);
    assert cmds[0].SetVolume? && 0.0 < cmds[0].level < 0.5;
    PausesOnce(s);
  }

  /** A completed expiry pauses playback exactly once. */
  lemma PausesOnce(s: PlaybackSnapshot)
    ensures multiset(ExpiryCommands(s, RanToEnd))[Pause] == 1
  {
    var cmds := ExpiryCommands(s, RanToEnd);
    if ShouldFade(s) {
      FullFade(s);
      assert cmds == cmds[..20] + [Pause, SetVolume(Clamp01(s.volume))];
      assert Pause !in cmds[..20];
    } else {
      NoFadeOnlyPauses(s, RanToEnd);
    }
  }
}
