/** The timer widget's state and its transitions: the one-second clock tick
    and every user command that touches the timer or the sound switch. */
module TimerWidget {

  import opened Wrappers
  import JsMath
  import Sound
  import TimerPresets

  /** All widget state that the timer logic reads or writes.
      `lastTick` is the wall-clock second the running interval last played a
      periodic sound in, or the second the interval was (re)armed. */
  datatype Widget = Widget(
    elapsed: int,
    target: int,
    running: bool,
    sound: Sound.SoundConfig,
    interval: int,
    timerPreset: int,
    lastTick: int)

  predicate Valid(w: Widget)
  {
    && w.elapsed >= 0
    && w.target >= 0
    && TimerPresets.InRange(w.timerPreset)
    && Sound.Valid(w.sound)
  }

  /** The state at mount: stopped at zero with no target, sound on, a one-second
      sound interval, the first presets selected. */
  const Initial := Widget(0, 0, false, Sound.InitialConfig, 1, 0, 0)

  lemma InitialValid()
    ensures Valid(Initial)
  {
  }

  /** The values the interval effect depends on. */
  predicate SameEffectInputs(a: Widget, b: Widget)
  {
    a.running == b.running && a.sound.enabled == b.sound.enabled
    && a.target == b.target && a.interval == b.interval
  }

  /** The interval effect re-runs whenever one of its inputs changed; if the
      widget is running afterwards it re-arms, taking the current second as `lastTick`. */
  function Rearm(before: Widget, after: Widget, now: int): (w: Widget)
    ensures w.(lastTick := after.lastTick) == after
    ensures after.running && !SameEffectInputs(before, after) ==> w.lastTick == now
    ensures !after.running || SameEffectInputs(before, after) ==> w == after
  {
    if after.running && !SameEffectInputs(before, after) then after.(lastTick := now) else after
  }

  /** The start/pause button flips `running`; starting arms the clock at `now`. */
  function StartPause(w: Widget, now: int): (r: Widget)
    ensures r.running == !w.running
    ensures r.running ==> r.lastTick == now
    ensures r.(running := w.running, lastTick := w.lastTick) == w
  {
    Rearm(w, w.(running := !w.running), now)
  }

  /** Pressing start/pause twice gives back the same widget, apart from the arming second. */
  lemma StartPauseTwice(w: Widget, t1: int, t2: int)
    ensures StartPause(StartPause(w, t1), t2).(lastTick := w.lastTick) == w
  {
  }

  /** The reset button: stopped, zero elapsed, no target; presets and sound untouched. */
  function Reset(w: Widget): (r: Widget)
    ensures r.elapsed == 0 && r.target == 0 && !r.running
    ensures r.sound == w.sound && r.timerPreset == w.timerPreset && r.interval == w.interval
    ensures r.lastTick == w.lastTick
  {
    w.(running := false, elapsed := 0, target := 0)
  }

  /** The up and down chevrons beside the display. */
  datatype Direction = Up | Down

  function Delta(d: Direction): int
  {
    match d
    case Up => 60
    case Down => -60
  }

  function Max(a: int, b: int): int
  {
    if a < b then b else a
  }

  /** A minute more or less of target, never below zero; ignored while running. */
  function AdjustTarget(w: Widget, d: Direction): (r: Widget)
    ensures w.running ==> r == w
    ensures !w.running ==> r == w.(target := r.target)
    ensures !w.running ==> r.target >= 0
    ensures !w.running && w.target + Delta(d) >= 0 ==> r.target == w.target + Delta(d)
    ensures !w.running && w.target + Delta(d) < 0 ==> r.target == 0
  {
    if w.running then w else w.(target := Max(0, w.target + Delta(d)))
  }

  /** `selectTimerPreset(i)`: out-of-range indices are ignored; otherwise the
      preset becomes selected and its duration becomes the target. The
      settings panel offers this while running, when a changed target re-arms the clock. */
  function SelectTimerPreset(w: Widget, i: int, now: int): (r: Widget)
    ensures !TimerPresets.InRange(i) ==> r == w
    ensures TimerPresets.InRange(i) ==>
      && r.timerPreset == i
      && r.target == TimerPresets.Table[i].seconds
      && r.(timerPreset := w.timerPreset, target := w.target, lastTick := w.lastTick) == w
    ensures TimerPresets.InRange(i) ==>
      && (r.running && r.target != w.target ==> r.lastTick == now)
      && (!r.running || r.target == w.target ==> r.lastTick == w.lastTick)
  {
    if 0 <= i < |TimerPresets.Table| then
      Rearm(w, w.(timerPreset := i, target := TimerPresets.Table[i].seconds), now)
    else w
  }

  /** `navigateTimerPreset(direction)`: select the neighbouring preset, wrapping at both ends. */
  function NavigateTimerPreset(w: Widget, d: TimerPresets.Nav, now: int): (r: Widget)
    ensures TimerPresets.InRange(w.timerPreset) ==>
      && TimerPresets.InRange(r.timerPreset)
      && r.target == TimerPresets.Table[r.timerPreset].seconds
    ensures TimerPresets.InRange(w.timerPreset) ==>
      && r.timerPreset == TimerPresets.Step(w.timerPreset, d)
      && r.(timerPreset := w.timerPreset, target := w.target, lastTick := w.lastTick) == w
  {
    SelectTimerPreset(w, TimerPresets.Step(w.timerPreset, d), now)
  }

  /** The speaker button; while running, the changed switch re-arms the clock. */
  function ToggleSound(w: Widget, now: int): (r: Widget)
    ensures r.sound == Sound.ToggleEnabled(w.sound)
    ensures r.running ==> r.lastTick == now
    ensures r.(sound := w.sound, lastTick := w.lastTick) == w
  {
    Rearm(w, w.(sound := Sound.ToggleEnabled(w.sound)), now)
  }

  /** Why the clock called `playSound`. */
  datatype Cue = Periodic | Completion

  /** A `playSound` call made by the clock in wall-clock second `at`. */
  datatype Request = Request(cue: Cue, at: int)

  datatype TickOutcome = TickOutcome(next: Widget, request: Option<Request>)

  /** The completion test, which takes priority over everything else on a tick. */
  predicate AtTarget(w: Widget)
  {
    w.target != 0 && w.elapsed >= w.target
  }

  /** The periodic-sound test: sound on, a second not yet sounded in, and a
      multiple of the sound interval. */
  predicate PeriodicDue(w: Widget, now: int)
  {
    w.sound.enabled && now != w.lastTick && JsMath.Divides(w.interval, now)
  }

  /** One firing of the running interval in wall-clock second `now`.
      At a non-zero target it stops without advancing and asks for the
      completion sound; otherwise it may ask for a periodic sound, recording
      the second, and advances `elapsed` by exactly one. */
  function Tick(w: Widget, now: int): (o: TickOutcome)
    requires w.running
    ensures AtTarget(w) ==>
      && o.next == w.(running := false)
      && o.request == Some(Request(Completion, now))
    ensures !AtTarget(w) ==>
      && o.next.running
      && o.next.elapsed == w.elapsed + 1
      && o.next.(elapsed := w.elapsed, lastTick := w.lastTick) == w
    ensures !AtTarget(w) ==> (o.request.Some? <==> PeriodicDue(w, now))
    ensures !AtTarget(w) && o.request.Some? ==> o.request == Some(Request(Periodic, now)) && o.next.lastTick == now
    ensures !AtTarget(w) && o.request.None? ==> o.next.lastTick == w.lastTick
  {
    if AtTarget(w) then
      TickOutcome(w.(running := false), Some(Request(Completion, now)))
    else if PeriodicDue(w, now) then
      TickOutcome(w.(elapsed := w.elapsed + 1, lastTick := now), Some(Request(Periodic, now)))
    else
      TickOutcome(w.(elapsed := w.elapsed + 1), None)
  }

  /** The completion sound is requested on the stopping tick but goes through
      `playSound` like the periodic one, so it is only heard while sound is on. */
  lemma CompletionHeardOnlyWhenEnabled(w: Widget, now: int)
    requires w.running && AtTarget(w) && Sound.Valid(w.sound)
    ensures Tick(w, now).request == Some(Request(Completion, now))
    ensures Sound.Play(Tick(w, now).next.sound, Sound.PlaySound).Some? <==> w.sound.enabled
  {
  }

  /** A tick never asks for a periodic sound while sound is off, and never
      twice in the same second: after a periodic request the very next tick
      in that second stays quiet. */
  lemma NoRepeatInSameSecond(w: Widget, now: int)
    requires w.running && !AtTarget(w)
    requires Tick(w, now).request.Some?
    ensures w.sound.enabled && now != w.lastTick
    ensures Tick(w, now).next.running ==> Tick(Tick(w, now).next, now).request.None? || AtTarget(Tick(w, now).next)
  {
  }

  /** A target lowered below `elapsed` makes the first tick stop at once, without advancing. */
  lemma OvershotTargetStopsAtOnce(w: Widget, now: int)
    requires w.running && w.target > 0 && w.elapsed > w.target
    ensures Tick(w, now).next == w.(running := false)
    ensures Tick(w, now).request == Some(Request(Completion, now))
  {
  }

  /** Pressing start after completion stops again on the next tick and asks for the completion sound once more. */
  lemma RestartAfterCompletion(w: Widget, start: int, now: int)
    requires !w.running && w.target > 0 && w.elapsed == w.target
    ensures Tick(StartPause(w, start), now).next == w.(lastTick := start)
    ensures Tick(StartPause(w, start), now).request == Some(Request(Completion, now))
  {
  }

  /** Adjusting up and then down restores a paused target. */
  lemma AdjustUpDown(w: Widget)
    requires !w.running && w.target >= 0
    ensures AdjustTarget(AdjustTarget(w, Up), Down) == w
  {
  }

  /** Down and then up cannot undo the clamp: a target under a minute comes back as a full minute. */
  lemma AdjustDownUp(w: Widget)
    requires !w.running && w.target >= 0
    ensures AdjustTarget(AdjustTarget(w, Down), Up).target == Max(w.target, 60)
  {
  }

  /** Next then Prev returns to the starting preset, and its duration becomes the target. */
  lemma NavigateNextPrev(w: Widget, t1: int, t2: int)
    requires Valid(w)
    ensures NavigateTimerPreset(NavigateTimerPreset(w, TimerPresets.Next, t1), TimerPresets.Prev, t2).timerPreset == w.timerPreset
    ensures NavigateTimerPreset(NavigateTimerPreset(w, TimerPresets.Prev, t1), TimerPresets.Next, t2).timerPreset == w.timerPreset
  {
    TimerPresets.PrevUndoesNext(w.timerPreset);
  }

  /** Every transition keeps the widget valid; in particular the target is never negative. */
  lemma TransitionsPreserveValid(w: Widget, now: int, d: Direction, i: int, n: TimerPresets.Nav)
    requires Valid(w)
    ensures w.running ==> Valid(Tick(w, now).next)
    ensures Valid(StartPause(w, now))
    ensures Valid(Reset(w))
    ensures Valid(AdjustTarget(w, d))
    ensures Valid(SelectTimerPreset(w, i, now))
    ensures Valid(NavigateTimerPreset(w, n, now))
    ensures Valid(ToggleSound(w, now))
  {
  }

}
