/** Runs of the interval: a sequence of ticks, one per wall-clock reading,
    delivered until the clock stops. Once stopped the interval is cleared and
    no further tick fires. */
module ClockRun {

  import opened Wrappers
  import opened TimerWidget
  import Sound
  import JsMath

  /** The state after a run and the `playSound` calls the clock made, in order. */
  datatype RunResult = RunResult(final: Widget, requests: seq<Request>)

  /** Deliver one tick per entry of `nows` while the widget is running. */
  function Run(w: Widget, nows: seq<int>): RunResult
    decreases |nows|
  {
    if |nows| == 0 || !w.running then RunResult(w, [])
    else
      var o := Tick(w, nows[0]);
      var rest := Run(o.next, nows[1..]);
      RunResult(rest.final, Emitted(o) + rest.requests)
  }

  function Emitted(o: TickOutcome): seq<Request>
  {
    if o.request.Some? then [o.request.value] else []
  }

  function CountCue(qs: seq<Request>, c: Cue): nat
  {
    if |qs| == 0 then 0 else (if qs[0].cue == c then 1 else 0) + CountCue(qs[1..], c)
  }

  /** The wall-clock seconds in which periodic sounds were asked for. */
  function PeriodicSeconds(qs: seq<Request>): seq<int>
  {
    if |qs| == 0 then []
    else (if qs[0].cue == Periodic then [qs[0].at] else []) + PeriodicSeconds(qs[1..])
  }

  predicate NonDecreasing(s: seq<int>)
  {
    forall i, j :: 0 <= i < j < |s| ==> s[i] <= s[j]
  }

  predicate StrictlyIncreasing(s: seq<int>)
  {
    forall i, j :: 0 <= i < j < |s| ==> s[i] < s[j]
  }

  lemma {:induction false} CountCueAppend(a: seq<Request>, b: seq<Request>, c: Cue)
    ensures CountCue(a + b, c) == CountCue(a, c) + CountCue(b, c)
  {
    if |a| == 0 {
      assert a + b == b;
    } else {
      assert (a + b)[0] == a[0];
      assert (a + b)[1..] == a[1..] + b;
      CountCueAppend(a[1..], b, c);
    }
  }

  lemma {:induction false} PeriodicSecondsAppend(a: seq<Request>, b: seq<Request>)
    ensures PeriodicSeconds(a + b) == PeriodicSeconds(a) + PeriodicSeconds(b)
  {
    if |a| == 0 {
      assert a + b == b;
    } else {
      assert (a + b)[0] == a[0];
      assert (a + b)[1..] == a[1..] + b;
      PeriodicSecondsAppend(a[1..], b);
      var head := if a[0].cue == Periodic then [a[0].at] else [];
      assert PeriodicSeconds(a + b) == head + PeriodicSeconds(a[1..] + b);
      assert PeriodicSeconds(a) == head + PeriodicSeconds(a[1..]);
    }
  }

  /** A run over `a + b` is the run over `a` followed by the run over `b` from where it stopped. */
  lemma {:induction false} RunAppend(w: Widget, a: seq<int>, b: seq<int>)
    ensures Run(w, a + b).final == Run(Run(w, a).final, b).final
    ensures Run(w, a + b).requests == Run(w, a).requests + Run(Run(w, a).final, b).requests
    decreases |a|
  {
    if |a| == 0 {
      assert a + b == b;
    } else if w.running {
      assert (a + b)[0] == a[0];
      assert (a + b)[1..] == a[1..] + b;
      RunAppend(Tick(w, a[0]).next, a[1..], b);
    }
  }

  /** Once stopped, nothing more happens. */
  lemma StoppedStaysStopped(w: Widget, nows: seq<int>)
    requires !w.running
    ensures Run(w, nows) == RunResult(w, [])
  {
  }

  /** With a target ahead, each tick adds exactly one second and the clock
      keeps running until `elapsed` has reached the target; only periodic
      sounds are asked for, and nothing but `elapsed` and `lastTick` changes. */
  lemma {:induction false} RunReachesTarget(w: Widget, nows: seq<int>)
    requires w.running && 0 < w.target && 0 <= w.elapsed <= w.target
    requires |nows| == w.target - w.elapsed
    ensures Run(w, nows).final == w.(elapsed := w.target, lastTick := Run(w, nows).final.lastTick)
    ensures CountCue(Run(w, nows).requests, Completion) == 0
    decreases |nows|
  {
    if |nows| > 0 {
      var o := Tick(w, nows[0]);
      RunReachesTarget(o.next, nows[1..]);
      CountCueAppend(Emitted(o), Run(o.next, nows[1..]).requests, Completion);
    }
  }

  /** The clock stops exactly once: after exactly `target - elapsed` increments
      the next tick stops it at the target with a single completion request,
      which is the last request of the run. */
  lemma RunStopsOnce(w: Widget, nows: seq<int>)
    requires w.running && 0 < w.target && 0 <= w.elapsed <= w.target
    requires |nows| > w.target - w.elapsed
    ensures !Run(w, nows).final.running
    ensures Run(w, nows).final.elapsed == w.target
    ensures Run(w, nows).final.target == w.target
    ensures CountCue(Run(w, nows).requests, Completion) == 1
    ensures Run(w, nows).requests[|Run(w, nows).requests| - 1] == Request(Completion, nows[w.target - w.elapsed])
  {
    var k := w.target - w.elapsed;
    var a, b := nows[..k], nows[k..];
    assert nows == a + b;
    RunAppend(w, a, b);
    RunReachesTarget(w, a);
    var mid := Run(w, a).final;
    assert b[0] == nows[k];
    var o := Tick(mid, b[0]);
    assert o.next == mid.(running := false);
    assert Run(mid, b) == RunResult(o.next, [Request(Completion, nows[k])]);
    CountCueAppend(Run(w, a).requests, Run(mid, b).requests, Completion);
  }

  /** A three-minute target started from zero: after 180 one-second ticks the
      next one stops the clock at 3:00 with exactly one completion request,
      and further readings change nothing. */
  lemma ThreeMinuteScenario(w: Widget, nows: seq<int>, later: seq<int>)
    requires w.running && w.target == 180 && w.elapsed == 0
    requires |nows| >= 181
    ensures Run(w, nows).final.elapsed == 180 && !Run(w, nows).final.running
    ensures CountCue(Run(w, nows).requests, Completion) == 1
    ensures Run(Run(w, nows).final, later) == RunResult(Run(w, nows).final, [])
  {
    RunStopsOnce(w, nows);
  }

  /** For a positive target not yet passed, no run ever carries `elapsed` past it. */
  lemma {:induction false} RunNeverExceedsTarget(w: Widget, nows: seq<int>)
    requires 0 < w.target && w.elapsed <= w.target
    ensures Run(w, nows).final.elapsed <= w.target
    ensures Run(w, nows).final.target == w.target
    decreases |nows|
  {
    if |nows| > 0 && w.running {
      RunNeverExceedsTarget(Tick(w, nows[0]).next, nows[1..]);
    }
  }

  /** Without a target the clock never stops: each tick adds one second. */
  lemma {:induction false} UnboundedRunCounts(w: Widget, nows: seq<int>)
    requires w.running && w.target == 0 && w.elapsed >= 0
    ensures Run(w, nows).final.running
    ensures Run(w, nows).final.elapsed == w.elapsed + |nows|
    ensures CountCue(Run(w, nows).requests, Completion) == 0
    decreases |nows|
  {
    if |nows| > 0 {
      var o := Tick(w, nows[0]);
      UnboundedRunCounts(o.next, nows[1..]);
      CountCueAppend(Emitted(o), Run(o.next, nows[1..]).requests, Completion);
    }
  }

  /** With sound off the clock asks for no periodic sound at all. */
  lemma {:induction false} MutedRunHasNoPeriodic(w: Widget, nows: seq<int>)
    requires !w.sound.enabled
    ensures PeriodicSeconds(Run(w, nows).requests) == []
    decreases |nows|
  {
    if |nows| > 0 && w.running {
      var o := Tick(w, nows[0]);
      MutedRunHasNoPeriodic(o.next, nows[1..]);
      PeriodicSecondsAppend(Emitted(o), Run(o.next, nows[1..]).requests);
    }
  }

  /** With a wall clock that never goes backwards and starts no earlier than
      the arming second, periodic sounds fire in strictly increasing seconds,
      so at most one per second, and none in the arming second itself. */
  lemma {:induction false} AtMostOnePeriodicPerSecond(w: Widget, nows: seq<int>)
    requires NonDecreasing(nows)
    requires forall i :: 0 <= i < |nows| ==> w.lastTick <= nows[i]
    ensures StrictlyIncreasing(PeriodicSeconds(Run(w, nows).requests))
    ensures forall i :: 0 <= i < |PeriodicSeconds(Run(w, nows).requests)| ==>
      w.lastTick < PeriodicSeconds(Run(w, nows).requests)[i]
    decreases |nows|
  {
    if |nows| > 0 && w.running {
      var o := Tick(w, nows[0]);
      var rest := Run(o.next, nows[1..]);
      assert forall i :: 0 <= i < |nows[1..]| ==> o.next.lastTick <= nows[1..][i] by {
        forall i | 0 <= i < |nows[1..]|
          ensures o.next.lastTick <= nows[1..][i]
        {
          assert nows[1..][i] == nows[i + 1];
        }
      }
      AtMostOnePeriodicPerSecond(o.next, nows[1..]);
      PeriodicSecondsAppend(Emitted(o), rest.requests);
    }
  }

  /** The wall-clock readings `s + 1, ..., s + n` of a steady one-tick-per-second clock. */
  function Steady(s: int, n: nat): (r: seq<int>)
    ensures |r| == n
    decreases n
  {
    if n == 0 then [] else [s + 1] + Steady(s + 1, n - 1)
  }

  /** The seconds among `s + 1, ..., s + n` that the sound-interval test accepts. */
  function IntervalSeconds(s: int, n: nat, d: int): seq<int>
    decreases n
  {
    if n == 0 then []
    else (if JsMath.Divides(d, s + 1) then [s + 1] else []) + IntervalSeconds(s + 1, n - 1, d)
  }

  /** Without a target, with sound on and a steady clock armed no later than
      second `s`, a periodic sound is asked for in exactly the seconds that
      are multiples of the sound interval. */
  lemma {:induction false} SteadyRunSoundsOnMultiples(w: Widget, s: int, n: nat)
    requires w.running && w.target == 0 && w.sound.enabled && w.lastTick <= s
    ensures PeriodicSeconds(Run(w, Steady(s, n)).requests) == IntervalSeconds(s, n, w.interval)
    decreases n
  {
    if n > 0 {
      var nows := Steady(s, n);
      var o := Tick(w, s + 1);
      assert nows[0] == s + 1 && nows[1..] == Steady(s + 1, n - 1);
      SteadyRunSoundsOnMultiples(o.next, s + 1, n - 1);
      PeriodicSecondsAppend(Emitted(o), Run(o.next, nows[1..]).requests);
    }
  }

  /** Sound on, a five-second interval and no target, armed in second 100:
      over twelve ticks in seconds 101 to 112 the periodic sound is asked for
      in seconds 105 and 110 only, the fifth and the tenth tick. */
  lemma FiveSecondIntervalScenario()
    ensures
      var w := Widget(0, 0, true, Sound.InitialConfig, 5, 0, 100);
      PeriodicSeconds(Run(w, Steady(100, 12)).requests) == [105, 110]
  {
    var w := Widget(0, 0, true, Sound.InitialConfig, 5, 0, 100);
    SteadyRunSoundsOnMultiples(w, 100, 12);
    assert IntervalSeconds(100, 12, 5) == [105, 110];
  }

}
