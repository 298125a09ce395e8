/** Everything that can happen to the widget, as one event type, and the
    invariant every sequence of events keeps. */
module Commands {

  import opened Wrappers
  import opened TimerWidget
  import Sound
  import TimerPresets

  datatype Command =
    | ClockTick(now: int)
    | StartPauseButton(now: int)
    | ResetButton
    | AdjustButton(d: Direction)
    | SelectTimer(index: int, now: int)
    | NavigateTimer(nav: TimerPresets.Nav, now: int)
    | SoundButton(now: int)
    | SelectSound(index: int)
    | UploadSound(file: Option<Sound.Uri>)

  /** Sound choices come from a drop-down whose options are the preset indices. */
  predicate WellFormed(c: Command)
  {
    c.SelectSound? ==> 0 <= c.index < |Sound.SoundPresets|
  }

  /** The effect of one event. A clock tick only fires while running: the interval is cleared on every stop. */
  function Apply(w: Widget, c: Command): (r: Widget)
    requires WellFormed(c)
    ensures c.SelectSound? || c.UploadSound? ==> r == w.(sound := r.sound)
    ensures c.AdjustButton? || c.SelectSound? || c.UploadSound? || c.SelectTimer? || c.NavigateTimer? || c.SoundButton? ==> r.running == w.running
    ensures c.ClockTick? && !w.running ==> r == w
  {
    match c
    case ClockTick(now) => if w.running then Tick(w, now).next else w
    case StartPauseButton(now) => StartPause(w, now)
    case ResetButton => Reset(w)
    case AdjustButton(d) => AdjustTarget(w, d)
    case SelectTimer(i, now) => SelectTimerPreset(w, i, now)
    case NavigateTimer(n, now) => NavigateTimerPreset(w, n, now)
    case SoundButton(now) => ToggleSound(w, now)
    case SelectSound(i) => w.(sound := Sound.SelectPreset(w.sound, i))
    case UploadSound(f) => w.(sound := Sound.UploadCustom(w.sound, f))
  }

  function ApplyAll(w: Widget, cs: seq<Command>): Widget
    requires forall i :: 0 <= i < |cs| ==> WellFormed(cs[i])
    decreases |cs|
  {
    if |cs| == 0 then w else ApplyAll(Apply(w, cs[0]), cs[1..])
  }

  /** Every event keeps the widget valid. */
  lemma ApplyPreservesValid(w: Widget, c: Command)
    requires Valid(w) && WellFormed(c)
    ensures Valid(Apply(w, c))
  {
  }

  /** From mount onwards, whatever happens, elapsed and target stay non-negative
      and both selected presets stay inside their tables. */
  lemma {:induction false} ReachableStatesValid(w: Widget, cs: seq<Command>)
    requires Valid(w)
    requires forall i :: 0 <= i < |cs| ==> WellFormed(cs[i])
    ensures Valid(ApplyAll(w, cs))
    decreases |cs|
  {
    if |cs| > 0 {
      ApplyPreservesValid(w, cs[0]);
      ReachableStatesValid(Apply(w, cs[0]), cs[1..]);
    }
  }

  /** The sound interval is never changed by any event: it keeps its mount value of one second. */
  lemma {:induction false} IntervalNeverChanges(w: Widget, cs: seq<Command>)
    requires forall i :: 0 <= i < |cs| ==> WellFormed(cs[i])
    ensures ApplyAll(w, cs).interval == w.interval
    decreases |cs|
  {
    if |cs| > 0 {
      IntervalNeverChanges(Apply(w, cs[0]), cs[1..]);
    }
  }

}
