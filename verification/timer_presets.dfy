/** The fixed table of timer presets and wrap-around navigation over its indices. */
module TimerPresets {

  import JsMath

  datatype TimerPreset = TimerPreset(name: string, seconds: nat)

  const Table: seq<TimerPreset> := [
    TimerPreset("1 min", 60),
    TimerPreset("3 min", 180),
    TimerPreset("5 min", 300),
    TimerPreset("10 min", 600)
  ]

  predicate InRange(i: int)
  {
    0 <= i < |Table|
  }

  /** The direction of the chevron buttons beside the preset selector. */
  datatype Nav = Next | Prev

  /** `(selected + 1) % timerPresets.length`: one step forward, from the last preset back to the first. */
  function NextIndex(i: int): (r: int)
    ensures InRange(i) ==> InRange(r)
    ensures 0 <= i < |Table| - 1 ==> r == i + 1
    ensures i == |Table| - 1 ==> r == 0
  {
    JsMath.Rem(i + 1, |Table|)
  }

  /** One step back, from the first preset to the last. */
  function PrevIndex(i: int): (r: int)
    ensures InRange(i) ==> InRange(r)
    ensures 0 < i ==> r == i - 1
    ensures i == 0 ==> r == |Table| - 1
  {
    if i == 0 then |Table| - 1 else i - 1
  }

  function Step(i: int, d: Nav): int
  {
    match d
    case Next => NextIndex(i)
    case Prev => PrevIndex(i)
  }

  /** `n` forward steps. */
  function NextN(i: int, n: nat): int
  {
    if n == 0 then i else NextIndex(NextN(i, n - 1))
  }

  /** Forward and back are inverse on valid indices. */
  lemma PrevUndoesNext(i: int)
    requires InRange(i)
    ensures PrevIndex(NextIndex(i)) == i
    ensures NextIndex(PrevIndex(i)) == i
  {
  }

  /** `n` forward steps land `n` places further round the table. */
  lemma {:induction false} NextNIsModular(i: int, n: nat)
    requires InRange(i)
    ensures NextN(i, n) == (i + n) % |Table|
  {
    if n > 0 {
      NextNIsModular(i, n - 1);
    }
  }

  /** Stepping forward once per preset comes back to the start. */
  lemma FullCycle(i: int, k: nat)
    requires InRange(i)
    ensures NextN(i, k * |Table|) == i
  {
    NextNIsModular(i, k * |Table|);
    assert (i + k * |Table|) % |Table| == i;
  }

}
