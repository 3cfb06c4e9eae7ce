/** The three-wire ICP link as an append-only trace of pin events.

    Nothing here touches a pin. In the link operations (command frames,
    data transfers, mode entry and mode exit) every write of RESET, CLOCK or
    DATA, every direction switch of DATA, every sample of DATA and every
    busy-wait of the delay primitive becomes one `Event`, and an operation is
    modelled by the trace it emits. Pin set-up and tear-down are modelled on
    register contents instead. */
module Wire {

  datatype Direction = Input | Output

  datatype Event =
    | DataOut(level: bool)     // the programmer drives DATA
    | DataIn(level: bool)      // the programmer samples DATA, which the target drives
    | ClockOut(level: bool)    // the programmer drives CLOCK
    | ResetOut(level: bool)    // the programmer drives RESET
    | DataDir(dir: Direction)  // DATA switched between output and input
    | Delay(us: nat)           // one call of the microsecond busy-wait

  /** Number of events one transported bit takes. */
  const SlotLength: nat := 5

  /** `ICP_CLOCK_CYCLE`: wait, raise CLOCK, wait, lower CLOCK. */
  function ClockCycle(): seq<Event>
  {
    [Delay(1), ClockOut(true), Delay(1), ClockOut(false)]
  }

  /** `ICP_WRITE_BIT`: drive DATA, then one clock cycle. */
  function WriteBitSlot(b: bool): (t: seq<Event>)
    ensures |t| == SlotLength
  {
    [DataOut(b)] + ClockCycle()
  }

  /** `ICP_READ_BIT`: wait, sample DATA, raise CLOCK, wait, lower CLOCK. */
  function ReadBitSlot(b: bool): (t: seq<Event>)
    ensures |t| == SlotLength
  {
    [Delay(1), DataIn(b), ClockOut(true), Delay(1), ClockOut(false)]
  }

  /** The levels the programmer drove on DATA, in order. */
  function Driven(t: seq<Event>): seq<bool>
  {
    if t == [] then []
    else (if t[0].DataOut? then [t[0].level] else []) + Driven(t[1..])
  }

  /** The levels the programmer sampled on DATA, in order. */
  function Sampled(t: seq<Event>): seq<bool>
  {
    if t == [] then []
    else (if t[0].DataIn? then [t[0].level] else []) + Sampled(t[1..])
  }

  /** Total busy-wait time of a trace, in microseconds. */
  function Elapsed(t: seq<Event>): nat
  {
    if t == [] then 0
    else (if t[0].Delay? then t[0].us else 0) + Elapsed(t[1..])
  }

  /** Number of rising CLOCK edges in a trace. */
  function Pulses(t: seq<Event>): nat
  {
    if t == [] then 0
    else (if t[0] == ClockOut(true) then 1 else 0) + Pulses(t[1..])
  }

  /** Every observation of a trace splits over concatenation. */
  lemma {:induction false} Observe(a: seq<Event>, b: seq<Event>)
    ensures Driven(a + b) == Driven(a) + Driven(b)
    ensures Sampled(a + b) == Sampled(a) + Sampled(b)
    ensures Elapsed(a + b) == Elapsed(a) + Elapsed(b)
    ensures Pulses(a + b) == Pulses(a) + Pulses(b)
  {
    if a != [] {
      assert (a + b)[1..] == a[1..] + b;
      Observe(a[1..], b);
    } else {
      assert a + b == b;
    }
  }

  /** The direction DATA has after `e`, when it had `dir` before. */
  function Turn(e: Event, dir: Direction): Direction
  {
    if e.DataDir? then e.dir else dir
  }

  /** Whether `e` uses DATA the way its direction `dir` allows: the
      programmer drives DATA only while it is an output and samples it only
      while it is an input. */
  predicate Allowed(e: Event, dir: Direction)
  {
    (e.DataOut? ==> dir == Output) && (e.DataIn? ==> dir == Input)
  }

  /** Whether every event of `t` uses DATA as its direction allows, when DATA
      starts out as `dir`. */
  predicate Disciplined(t: seq<Event>, dir: Direction)
  {
    t == [] || (Allowed(t[0], dir) && Disciplined(t[1..], Turn(t[0], dir)))
  }

  /** The direction of DATA after the trace `t`, when it was `dir` before. */
  function DirAfter(t: seq<Event>, dir: Direction): Direction
  {
    if t == [] then dir else DirAfter(t[1..], Turn(t[0], dir))
  }

  /** `t` keeps to the direction rules and leaves DATA as it found it. */
  predicate Keeps(t: seq<Event>, dir: Direction)
  {
    Disciplined(t, dir) && DirAfter(t, dir) == dir
  }

  /** Two consecutive pieces of activity keep to the direction rules exactly
      when each does, the second starting from where the first left DATA. */
  lemma {:induction false} Directions(a: seq<Event>, b: seq<Event>, dir: Direction)
    ensures Disciplined(a + b, dir) <==> Disciplined(a, dir) && Disciplined(b, DirAfter(a, dir))
    ensures DirAfter(a + b, dir) == DirAfter(b, DirAfter(a, dir))
  {
    if a != [] {
      assert (a + b)[1..] == a[1..] + b;
      Directions(a[1..], b, Turn(a[0], dir));
    } else {
      assert a + b == b;
    }
  }

  /** A written bit needs DATA as an output, a read bit needs it as an
      input, and a bare clock cycle does not touch it. */
  lemma SlotDirections(b: bool, dir: Direction)
    ensures Keeps(WriteBitSlot(b), Output) && !Disciplined(WriteBitSlot(b), Input)
    ensures Keeps(ReadBitSlot(b), Input) && !Disciplined(ReadBitSlot(b), Output)
    ensures Keeps(ClockCycle(), dir)
  {
    var w, r, c := WriteBitSlot(b), ReadBitSlot(b), ClockCycle();
    assert w[1..][1..][1..][1..][1..] == [];
    assert r[1..][1..][1..][1..][1..] == [];
    assert c[1..][1..][1..][1..] == [];
  }

  lemma SlotObservations(b: bool)
    ensures Driven(WriteBitSlot(b)) == [b] && Sampled(WriteBitSlot(b)) == []
    ensures Elapsed(WriteBitSlot(b)) == 2 && Pulses(WriteBitSlot(b)) == 1
    ensures Driven(ReadBitSlot(b)) == [] && Sampled(ReadBitSlot(b)) == [b]
    ensures Elapsed(ReadBitSlot(b)) == 2 && Pulses(ReadBitSlot(b)) == 1
    ensures Driven(ClockCycle()) == [] && Sampled(ClockCycle()) == []
    ensures Elapsed(ClockCycle()) == 2 && Pulses(ClockCycle()) == 1
  {
    var w, r, c := WriteBitSlot(b), ReadBitSlot(b), ClockCycle();
    assert w[1..][1..][1..][1..][1..] == [];
    assert r[1..][1..][1..][1..][1..] == [];
    assert c[1..][1..][1..][1..] == [];
  }
}
