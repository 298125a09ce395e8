# Floating timer widget: the timer and sound state machine

The widget (`src/App.tsx`, a single React component) counts elapsed seconds
towards an optional target. It plays a periodic sound while running and a
completion sound when it stops at the target, and it offers a table of timer
presets with wrap-around navigation. This project takes the component's React
state setters and closures and restates them as one immutable `Widget` record
with pure transition functions. It then proves what those transitions
guarantee.

Modules:

- `JsMath`: JavaScript's truncating `%`, and the `n % d === 0` test, which is false for `d == 0` because the remainder is NaN.
- `TimeFormat`: `formatTime`, the `toString`/`padStart` conversions it uses, and a parser for its output.
- `Sound`: the sound preset table, the choice of active source, and the gating of `playSound` and `previewSound`.
- `TimerPresets`: the fixed 60/180/300/600-second table and next/previous navigation over it.
- `TimerWidget`: the widget state, the one-second tick, and every button handler that touches the timer or the sound switch.
- `ClockRun`: sequences of ticks. It covers stopping exactly once at the target and periodic sounds at most once per wall-clock second.
- `Commands`: all events as one type, and the validity invariant that every event sequence keeps.

Modelling choices:

- `Date.now()` becomes an explicit `now` parameter in whole seconds.
- `lastTick`, a local variable of the interval effect, becomes a field of the state.
- The React effect that owns the interval re-runs whenever `isRunning`, `soundEnabled`, `targetTime` or `soundInterval` changes. If the widget is running after such a change, the effect re-arms and `lastTick` becomes the current second. `Rearm` models this rule.
- A tick is defined only for a running widget, because the interval exists only while running. Among the commands, a clock tick on a stopped widget changes nothing.
- Clock requests are recorded as `playSound` calls, tagged with their cue and second. Whether a request is heard is `Sound.Play`.

Behaviour of the code worth knowing:

- The completion sound goes through `playSound` (`src/App.tsx:93`), so it is silent while sound is off (`TimerWidget.CompletionHeardOnlyWhenEnabled`).
- The preset selector in the settings panel (`src/App.tsx:250-273`) stays usable while running and can set the target below `elapsed`. The next tick then stops at once without advancing (`TimerWidget.OvershotTargetStopsAtOnce`). `elapsed` stays at or below a positive target only for runs that start at or below it (`ClockRun.RunNeverExceedsTarget`).
- The sound interval starts at one second (`src/App.tsx:20`) and its setter is never called, so it stays at one second (`Commands.IntervalNeverChanges`). The model keeps it as a field so that other intervals can be reasoned about.
- Start and pause are one toggle button (`src/App.tsx:307`); pressing it twice restores the widget apart from the arming second (`TimerWidget.StartPauseTwice`).
- Completion is noticed one tick after `elapsed` reaches the target. The stopping tick is the `(target - elapsed + 1)`-th one (`ClockRun.RunStopsOnce`).

## Model

| member | source | states |
|---|---|---|
| JsMath.Rem | src/App.tsx:111 | JavaScript `%` with a positive divisor: the remainder has the dividend's sign, is smaller than the divisor in magnitude, and is congruent to the dividend |
| TimeFormat.Decimal | src/App.tsx:112 | `toString()` of a non-negative integer: non-empty, all digits, a leading `0` only for zero, one digit exactly below 10, at most two below 100 |
| TimeFormat.PadStart | src/App.tsx:112 | `padStart(len, fill)`: the result has length the larger of `len` and the length of `s`, ends with `s`, and is filled before it |
| TimeFormat.Field | src/App.tsx:112 | a padded field of a non-negative number has at least two digits, and exactly two below 100 |
| TimeFormat.FieldValue | src/App.tsx:112 | the zero padding does not change the number a field denotes |
| TimeFormat.FormatTimeShape | src/App.tsx:109-113 | for seconds ≥ 0 the display is at least two minute digits, a colon, and exactly two second digits |
| TimeFormat.FormatTimeRoundTrip | src/App.tsx:109-113 | parsing the display of `s ≥ 0` gives minutes `s / 60` and seconds `s % 60 < 60`, and `mins * 60 + secs == s` |
| TimeFormat.FormatTimeInjective | src/App.tsx:109-113 | two distinct non-negative durations never share a display |
| Sound.ActiveSource | src/App.tsx:50 | a non-empty custom source is the audio source; otherwise it is the selected preset's URL |
| Sound.Play | src/App.tsx:60-80 | `playSound` plays the active source only when sound is on; `previewSound` always plays it |
| Sound.ToggleEnabled | src/App.tsx:196 | the speaker button flips the switch and changes nothing else |
| Sound.SelectPreset | src/App.tsx:225 | choosing a sound preset sets only the preset index |
| Sound.UploadCustom | src/App.tsx:115-121 | a picked file replaces the custom source; no file changes nothing |
| Sound.CustomOverridesPreset | src/App.tsx:50 | with a custom source set, choosing a preset does not change the sound heard |
| Sound.UploadBecomesActive | src/App.tsx:115-121 | an uploaded source is heard at once, whatever preset is selected |
| Sound.PreviewIgnoresSwitch | src/App.tsx:71-80 | with sound off, `playSound` is dropped while the preview plays the same source as with sound on |
| TimerPresets.NextIndex | src/App.tsx:153 | next: one step forward, from the last index back to 0, always in range |
| TimerPresets.PrevIndex | src/App.tsx:156 | previous: one step back, from 0 to the last index, always in range |
| TimerPresets.PrevUndoesNext | src/App.tsx:151-159 | next then previous, and previous then next, return to the starting index |
| TimerPresets.NextNIsModular | src/App.tsx:153 | `n` next steps from `i` land on `(i + n) % 4` |
| TimerPresets.FullCycle | src/App.tsx:151-159 | any whole number of laps of next steps comes back to the start |
| TimerWidget.InitialValid | src/App.tsx:15-26 | the state at mount is valid |
| TimerWidget.Rearm | src/App.tsx:82-107 | the effect re-arms with `lastTick := now` exactly when running after a change to one of its inputs; nothing else changes |
| TimerWidget.StartPause | src/App.tsx:307 | start/pause flips `running`; starting arms the clock at `now`; nothing else changes |
| TimerWidget.StartPauseTwice | src/App.tsx:307 | pressing start/pause twice restores the widget apart from the arming second |
| TimerWidget.Reset | src/App.tsx:317-321 | reset gives elapsed 0, target 0 and stopped from any state, and keeps presets and sound settings |
| TimerWidget.AdjustTarget | src/App.tsx:280-293 | ignored while running; otherwise target becomes `max(0, target ± 60)`, never negative, and nothing else changes |
| TimerWidget.AdjustUpDown | src/App.tsx:281-288 | up then down restores a paused target |
| TimerWidget.AdjustDownUp | src/App.tsx:281-288 | down then up gives `max(target, 60)`: the clamp is not undone |
| TimerWidget.SelectTimerPreset | src/App.tsx:144-149 | an out-of-range index changes nothing; otherwise the index is selected and its seconds become the target, the arming second becomes `now` exactly when running with a changed target, and nothing else changes |
| TimerWidget.NavigateTimerPreset | src/App.tsx:151-159 | navigation moves the selection one step in the chosen direction with wrap-around, keeps it in range, sets the target to that preset's seconds, and changes nothing else but the arming second |
| TimerWidget.NavigateNextPrev | src/App.tsx:151-159 | next then previous, or previous then next, returns to the starting preset |
| TimerWidget.ToggleSound | src/App.tsx:196 | the speaker button flips the switch and, while running, re-arms the clock |
| TimerWidget.Tick | src/App.tsx:86-103 | at a reached non-zero target the tick stops without advancing and requests only the completion sound; otherwise it advances by exactly 1 and requests a periodic sound exactly when sound is on, the second differs from `lastTick` and is a multiple of the interval, and only then updates `lastTick` |
| TimerWidget.CompletionHeardOnlyWhenEnabled | src/App.tsx:90-94 | the stopping tick requests completion, and that request is heard exactly when sound is on |
| TimerWidget.NoRepeatInSameSecond | src/App.tsx:97-100 | a periodic request implies sound on and a new second; a second tick in the same second requests no periodic sound |
| TimerWidget.OvershotTargetStopsAtOnce | src/App.tsx:90-95 | with elapsed above a positive target, the first tick stops without advancing and requests completion |
| TimerWidget.RestartAfterCompletion | src/App.tsx:90-95 | starting again after completion stops on the next tick with another completion request and no advance |
| TimerWidget.TransitionsPreserveValid | src/App.tsx:86-321 | tick, start/pause, reset, adjust, select, navigate and the sound switch all keep the state valid: the bounds check keeps the preset selection in range, and the clamp and the preset durations keep the target non-negative |
| ClockRun.StoppedStaysStopped | src/App.tsx:91 | once stopped no tick fires: the state and the requests stay as they are |
| ClockRun.RunReachesTarget | src/App.tsx:89-102 | from elapsed ≤ target > 0, exactly `target - elapsed` ticks bring elapsed to the target while still running, with no completion request and nothing else changed |
| ClockRun.RunStopsOnce | src/App.tsx:89-102 | with more readings than `target - elapsed`, the run ends stopped at the target with exactly one completion request, which is the last request |
| ClockRun.ThreeMinuteScenario | src/App.tsx:89-102 | a 180-second target from zero stops at 180 with one completion request; later readings change nothing |
| ClockRun.RunNeverExceedsTarget | src/App.tsx:89-102 | from elapsed ≤ target > 0, no run carries elapsed past the target or changes the target |
| ClockRun.UnboundedRunCounts | src/App.tsx:89-102 | with no target the clock never stops, each tick adds one, and completion is never requested |
| ClockRun.MutedRunHasNoPeriodic | src/App.tsx:97 | with sound off no periodic sound is requested |
| ClockRun.AtMostOnePeriodicPerSecond | src/App.tsx:84-100 | with a non-decreasing clock, periodic requests fall in strictly increasing seconds, all after the arming second |
| ClockRun.SteadyRunSoundsOnMultiples | src/App.tsx:97-100 | with no target, sound on and a steady clock, periodic requests fall in exactly the multiples of the interval |
| ClockRun.FiveSecondIntervalScenario | src/App.tsx:97-100 | a five-second interval armed in second 100 requests sounds in seconds 105 and 110 over twelve ticks |
| Commands.Apply | src/App.tsx:83-106 | a tick on a stopped widget changes nothing; sound settings change only the sound; only tick, start/pause and reset change `running` |
| Commands.ApplyPreservesValid | src/App.tsx:86-321 | every event keeps the widget valid |
| Commands.ReachableStatesValid | src/App.tsx:86-321 | after any sequence of events, elapsed and target are non-negative and both selections are in range |
| Commands.IntervalNeverChanges | src/App.tsx:20 | no event changes the sound interval |

## Left out

- Rendering, JSX, styling and icons (`src/App.tsx:166-351`). These are presentation only. The large-display and settings-panel toggles only affect rendering.
- Window dragging and the mouse handlers (`src/App.tsx:123-142`, `src/App.tsx:161-164`). These are UI event plumbing.
- Building and tearing down the `HTMLAudioElement`, the `play()` promise, and logging its failures (`src/App.tsx:49-58`, `src/App.tsx:62-67`, `src/App.tsx:73-78`). These are browser calls. The model keeps only the decision to play and the source chosen.
- Sound.Play: assumes the audio element already exists. Before the first audio effect runs, `audioRef.current` is null and both play functions do nothing.
- `setInterval`, `clearInterval`, the one-second period, and the phase shift of a re-armed interval (`src/App.tsx:86`, `src/App.tsx:104-106`). Ticks are explicit steps with the current second passed in.
- React's double invocation of state updaters in development mode. The tick updater has side effects (`playSound`, `lastTick`), and this is not modelled.
- `URL.createObjectURL` and the file picker (`src/App.tsx:115-121`). The custom source is an opaque string.
- The volume setting and `parseFloat` (`src/App.tsx:19`, `src/App.tsx:216`). This is a floating-point value that is only stored.
- Double-precision numbers: the model uses unbounded integers, so precision loss past 2^53 seconds is not modelled. `FormatTime` is defined for negative inputs too, but the properties are stated for the non-negative values the widget actually formats.
