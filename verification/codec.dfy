/** The frame layer: command frames, data reads and data writes
    (`ICP_SendCommand`, `ICP_ReadData`, `ICP_WriteData`), built from the bit
    transport. */
module Codec {
  import opened Arith
  import opened Wire
  import opened Transport

  /** Largest single busy-wait `ICP_WriteData` issues, in microseconds. */
  const MaxDelayChunk: nat := 80000

  /** Busy-wait after the continuation flag of a data read, in microseconds. */
  const ReadTrailer: nat := 5

  /** `(addr << 8) | cmd` as a `uint32_t`: the shift drops the top byte of the
      address. Command codes are bytes, so the low byte of the shifted address
      is clear and `|` adds. */
  function FrameWord(cmd: byte, addr: u32): (f: u32)
    ensures f % 0x100 == cmd
    ensures f / 0x100 == addr % 0x100_0000
  {
    FrameParts(cmd, addr);
    Wrap(addr * 0x100) + cmd
  }

  lemma FrameParts(cmd: byte, addr: u32)
    ensures Wrap(addr * 0x100) == (addr % 0x100_0000) * 0x100
    ensures var f := (addr % 0x100_0000) * 0x100 + cmd;
      f < WordModulus && f % 0x100 == cmd && f / 0x100 == addr % 0x100_0000
  {
    var q, r := addr / 0x100_0000, addr % 0x100_0000;
    assert addr * 0x100 == q * WordModulus + r * 0x100;
    DivModUnique(addr * 0x100, WordModulus, q, r * 0x100);
    DivModUnique(r * 0x100 + cmd, 0x100, r, cmd);
  }

  /** How the target splits a received 32-bit frame: command byte and
      24-bit address. */
  function DecodeFrame(f: u32): (byte, u32)
  {
    (f % 0x100, f / 0x100)
  }

  /** The frame carries the command byte and the low 24 bits of the address;
      every frame arises from exactly one such pair. */
  lemma {:induction false} FrameRoundTrip(cmd: byte, addr: u32, f: u32)
    ensures DecodeFrame(FrameWord(cmd, addr)) == (cmd, addr % 0x100_0000)
    ensures var (c, a) := DecodeFrame(f); a < 0x100_0000 && FrameWord(c, a) == f
  {
    var c, a := f % 0x100, f / 0x100;
    DivModUnique(f, 0x100, a, c);
    DivModUnique(a, 0x100_0000, 0, a);
    FrameParts(c, a);
    DivModUnique(f, 0x100, a, c);
  }

  /** `ICP_SendCommand(cmd, addr)`: the 32 bits of the frame word, most
      significant first. A target that clocks in the levels and decodes
      them receives the command byte and the low 24 bits of the address. */
  function SendCommand(cmd: byte, addr: u32): (t: seq<Event>)
    ensures |t| == 32 * SlotLength
    ensures Driven(t) == BitsOf(FrameWord(cmd, addr), 32) && Sampled(t) == []
    ensures var f := ReadBits(32, Driven(t)).value;
      f == FrameWord(cmd, addr) && DecodeFrame(f) == (cmd, addr % 0x100_0000)
    ensures Pulses(t) == 32 && Elapsed(t) == 64
    ensures Keeps(t, Output)
  {
    LoopbackWord(FrameWord(cmd, addr));
    FrameRoundTrip(cmd, addr, 0);
    WriteBits(FrameWord(cmd, addr), 32)
  }

  /** The one-bit continuation word: 1 on the last word of a stream. */
  function Flag(last: bool): nat
  {
    if last then 1 else 0
  }

  lemma FlagSlot(last: bool)
    ensures WriteBits(Flag(last), 1) == WriteBitSlot(last)
  {
    assert Bit(Flag(last), 0) == last;
  }

  /** The busy-waits of `ICP_WriteData`'s delay loop: the remaining time is
      waited in pieces of at most 80000 microseconds. */
  function DelayChunks(total: nat): (t: seq<Event>)
    ensures Elapsed(t) == total
    decreases total
  {
    if total == 0 then []
    else
      var chunk := if total > MaxDelayChunk then MaxDelayChunk else total;
      var rest := DelayChunks(total - chunk);
      assert ([Delay(chunk)] + rest)[1..] == rest;
      [Delay(chunk)] + rest
  }

  lemma DelayChunksStep(total: nat)
    requires total > 0
    ensures var chunk := if total > MaxDelayChunk then MaxDelayChunk else total;
      DelayChunks(total) == [Delay(chunk)] + DelayChunks(total - chunk)
  {
  }

  /** The delay is split greedily: ceil(total / 80000) waits, none of them
      empty and none above 80000 microseconds, all but the last exactly
      80000; no wait at all when the delay is zero. */
  lemma {:induction false} DelayChunksShape(total: nat)
    ensures var t := DelayChunks(total);
      && |t| == (total + MaxDelayChunk - 1) / MaxDelayChunk
      && (forall i :: 0 <= i < |t| ==> t[i].Delay? && 0 < t[i].us <= MaxDelayChunk)
      && (forall i :: 0 <= i < |t| - 1 ==> t[i] == Delay(MaxDelayChunk))
    decreases total
  {
    if total > 0 {
      var chunk := if total > MaxDelayChunk then MaxDelayChunk else total;
      DelayChunksShape(total - chunk);
      DelayChunksStep(total);
      if total > MaxDelayChunk {
        DivModUnique(total + MaxDelayChunk - 1, MaxDelayChunk,
          (total - chunk + MaxDelayChunk - 1) / MaxDelayChunk + 1,
          (total - chunk + MaxDelayChunk - 1) % MaxDelayChunk);
      } else {
        DivModUnique(total + MaxDelayChunk - 1, MaxDelayChunk, 1, total - 1);
      }
    }
  }

  /** The delay loop of `ICP_WriteData` as written, with the `while` it uses. */
  method SpinDelay(total: u32) returns (waits: seq<Event>)
    ensures waits == DelayChunks(total)
    ensures total == 0 <==> waits == []
  {
    var remaining: nat := total;
    waits := [];
    while remaining != 0
      invariant waits + DelayChunks(remaining) == DelayChunks(total)
      decreases remaining
    {
      var chunk := remaining;
      if chunk > MaxDelayChunk {
        chunk := MaxDelayChunk;
      }
      DelayChunksStep(remaining);
      waits := waits + [Delay(chunk)];
      remaining := remaining - chunk;
    }
  }

  /** What a data read returns, and the events it took. */
  datatype Reply = Reply(value: u32, trace: seq<Event>)

  /** Start of a data read: DATA becomes an input, one clock cycle, then a
      microsecond before the first bit. */
  function ReadPreamble(): seq<Event>
  {
    [DataDir(Input)] + ClockCycle() + [Delay(1)]
  }

  /** After the 32 bits of a data read: DATA becomes an output again, one clock cycle. */
  function Turnaround(): seq<Event>
  {
    [DataDir(Output)] + ClockCycle()
  }

  /** Start of a data write: one clock cycle, then a microsecond before the first bit. */
  function WritePreamble(): seq<Event>
  {
    ClockCycle() + [Delay(1)]
  }

  /** End of every data transfer: the continuation flag as one written bit,
      then a busy-wait of `us` microseconds. */
  function Handoff(last: bool, us: nat): seq<Event>
  {
    WriteBits(Flag(last), 1) + [Delay(us)]
  }

  /** `t` begins with `head`, and `body` follows right after it. */
  predicate Opens(t: seq<Event>, head: seq<Event>, body: seq<Event>)
  {
    |head| + |body| <= |t| && t[..|head|] == head && t[|head| .. |head| + |body|] == body
  }

  /** What a data read does on the wire while the target presents `levels`:
      it samples exactly those levels and drives only the continuation flag,
      in 35 clock pulses and 76 microseconds. DATA becomes an input first
      thing and an output again right after the 32 read slots, so every
      sample is taken while DATA is an input and the flag is driven while it
      is an output, and DATA is left an output. */
  predicate ReadObserved(t: seq<Event>, last: bool, levels: seq<bool>)
  {
    && Sampled(t) == levels && Driven(t) == [last]
    && Pulses(t) == 35 && Elapsed(t) == 76
    && |t| > |ReadPreamble()| + SlotLength * 32
    && t[0] == DataDir(Input)
    && t[|ReadPreamble()| + SlotLength * 32] == DataDir(Output)
    && Keeps(t, Output)
  }

  /** `ICP_ReadData(last)` while the target shifts out the word `word`: turn
      DATA around, one clock, read 32 bits, turn DATA back, one clock, send
      the continuation flag, wait 5 microseconds. The value returned is
      the word the target sent, and the host samples exactly its 32 bits. */
  function ReadData(last: bool, word: u32): (r: Reply)
    ensures r.value == word
    ensures ReadObserved(r.trace, last, BitsOf(word, 32))
    ensures Opens(r.trace, ReadPreamble(), ReadBits(32, BitsOf(word, 32)).trace)
  {
    var body := ReadBits(32, BitsOf(word, 32));
    ReadSlotsFramed(last, BitsOf(word, 32));
    LoopbackWord(word);
    Reply(body.value, ReadPreamble() + (body.trace + ReadTail(last)))
  }

  /** A data read around the 32 read slots that sample `levels`. */
  lemma ReadSlotsFramed(last: bool, levels: seq<bool>)
    requires |levels| == 32
    ensures var b := ReadBits(32, levels).trace;
      && ReadObserved(ReadPreamble() + (b + ReadTail(last)), last, levels)
      && Opens(ReadPreamble() + (b + ReadTail(last)), ReadPreamble(), b)
  {
    assert levels[..32] == levels;
    ReadFrameObserved(last, ReadBits(32, levels).trace, levels);
  }

  /** A data read around any 32 read slots `b` that sample `levels`. */
  lemma ReadFrameObserved(last: bool, b: seq<Event>, levels: seq<bool>)
    requires |b| == SlotLength * 32 && Sampled(b) == levels && Driven(b) == []
    requires Pulses(b) == 32 && Elapsed(b) == 64 && Keeps(b, Input)
    ensures ReadObserved(ReadPreamble() + (b + ReadTail(last)), last, levels)
    ensures Opens(ReadPreamble() + (b + ReadTail(last)), ReadPreamble(), b)
  {
    ReadFrameLayout(last, b);
    ReadFrameLevels(last, b);
    ReadFrameTiming(last, b);
    ReadFrameDirections(last, b);
  }

  /** The preamble comes first and the read slots right after it. */
  lemma ReadFrameLayout(last: bool, b: seq<Event>)
    ensures Opens(ReadPreamble() + (b + ReadTail(last)), ReadPreamble(), b)
  {
    var t := ReadPreamble() + (b + ReadTail(last));
    assert t[..|ReadPreamble()|] == ReadPreamble();
    assert t[|ReadPreamble()| .. |ReadPreamble()| + |b|] == b;
  }

  lemma ReadFrameLevels(last: bool, b: seq<Event>)
    requires Driven(b) == []
    ensures var t := ReadPreamble() + (b + ReadTail(last));
      Sampled(t) == Sampled(b) && Driven(t) == [last]
  {
    FramingObservations();
    Observe(b, ReadTail(last));
    Observe(ReadPreamble(), b + ReadTail(last));
  }

  lemma ReadFrameTiming(last: bool, b: seq<Event>)
    requires Pulses(b) == 32 && Elapsed(b) == 64
    ensures var t := ReadPreamble() + (b + ReadTail(last));
      Pulses(t) == 35 && Elapsed(t) == 76
  {
    FramingObservations();
    Observe(b, ReadTail(last));
    Observe(ReadPreamble(), b + ReadTail(last));
  }

  lemma ReadFrameDirections(last: bool, b: seq<Event>)
    requires Keeps(b, Input)
    ensures var t := ReadPreamble() + (b + ReadTail(last));
      && |t| > |ReadPreamble()| + |b|
      && t[0] == DataDir(Input) && t[|ReadPreamble()| + |b|] == DataDir(Output)
      && Keeps(t, Output)
  {
    var tail := ReadTail(last);
    assert tail[0] == DataDir(Output);
    FramingDirections();
    Directions(b, tail, Input);
    Directions(ReadPreamble(), b + tail, Output);
    assert (ReadPreamble() + (b + tail))[|ReadPreamble()| + |b|] == tail[0];
  }

  /** What follows the 32 data bits of a read: DATA turned back to an
      output, one clock cycle, the continuation flag and 5 microseconds. */
  function ReadTail(last: bool): (t: seq<Event>)
    ensures Driven(t) == [last] && Sampled(t) == []
    ensures Pulses(t) == 2 && Elapsed(t) == 4 + ReadTrailer
    ensures Disciplined(t, Input) && DirAfter(t, Input) == Output
  {
    FramingObservations();
    FramingDirections();
    HandoffObserved(last, ReadTrailer);
    HandoffDirections(last, ReadTrailer);
    Observe(Turnaround(), Handoff(last, ReadTrailer));
    Directions(Turnaround(), Handoff(last, ReadTrailer), Input);
    Turnaround() + Handoff(last, ReadTrailer)
  }

  /** What the tail of a data write does on the wire: it drives only the
      continuation flag, as one written bit just before the final wait,
      samples nothing, and pulses the clock twice. The hold time is that
      final wait; everything else it waits, the programming delay among it,
      comes before the flag. DATA stays an output throughout. */
  predicate WriteTailObserved(t: seq<Event>, last: bool, delay: nat, hold: nat)
  {
    && Driven(t) == [last] && Sampled(t) == []
    && Pulses(t) == 2 && Elapsed(t) == 4 + delay + hold
    && |t| > SlotLength
    && t[|t| - 1 - SlotLength .. |t| - 1] == WriteBitSlot(last)
    && t[|t| - 1] == Delay(hold)
    && Elapsed(t[..|t| - 1 - SlotLength]) == 2 + delay
    && Keeps(t, Output)
  }

  /** What follows the 32 data bits of a write: one clock cycle, the
      programming delay in chunks, the continuation flag as one written bit,
      and the hold time. */
  function WriteTail(last: bool, delay: nat, hold: nat): (t: seq<Event>)
    ensures WriteTailObserved(t, last, delay, hold)
    ensures |t| == |ClockCycle()| + |DelayChunks(delay)| + SlotLength + 1
    ensures t[..|ClockCycle()|] == ClockCycle()
    ensures t[|ClockCycle()| .. |t| - 1 - SlotLength] == DelayChunks(delay)
  {
    WriteTailLayout(last, delay, hold);
    WriteTailTotals(last, delay, hold);
    WriteTailDirections(last, delay, hold);
    ClockCycle() + (DelayChunks(delay) + Handoff(last, hold))
  }

  lemma WriteTailTotals(last: bool, delay: nat, hold: nat)
    ensures var t := ClockCycle() + (DelayChunks(delay) + Handoff(last, hold));
      && Driven(t) == [last] && Sampled(t) == []
      && Pulses(t) == 2 && Elapsed(t) == 4 + delay + hold
  {
    var settle := DelayChunks(delay) + Handoff(last, hold);
    assert Driven(settle) == [last] && Sampled(settle) == [] by {
      DelayChunksSilent(delay);
      HandoffObserved(last, hold);
      Observe(DelayChunks(delay), Handoff(last, hold));
    }
    assert Pulses(settle) == 1 && Elapsed(settle) == delay + 2 + hold by {
      DelayChunksSilent(delay);
      HandoffObserved(last, hold);
      Observe(DelayChunks(delay), Handoff(last, hold));
    }
    SlotObservations(last);
    Observe(ClockCycle(), settle);
  }

  /** Where the pieces of a write tail sit, and the wait before its flag. */
  lemma WriteTailLayout(last: bool, delay: nat, hold: nat)
    ensures var d := DelayChunks(delay);
      var t := ClockCycle() + (d + Handoff(last, hold));
      && |t| == |ClockCycle()| + |d| + SlotLength + 1
      && t[..|ClockCycle()|] == ClockCycle()
      && t[|ClockCycle()| .. |t| - 1 - SlotLength] == d
      && t[|t| - 1 - SlotLength .. |t| - 1] == WriteBitSlot(last)
      && t[|t| - 1] == Delay(hold)
      && Elapsed(t[..|t| - 1 - SlotLength]) == 2 + delay
  {
    var c, d, h := ClockCycle(), DelayChunks(delay), Handoff(last, hold);
    FlagSlot(last);
    assert h == WriteBitSlot(last) + [Delay(hold)];
    TailPieces(c, d, WriteBitSlot(last), Delay(hold));
    SlotObservations(last);
    Observe(c, d);
  }

  /** Where the pieces of `c + (d + (f + [e]))` sit, `f` being one bit slot. */
  lemma TailPieces(c: seq<Event>, d: seq<Event>, f: seq<Event>, e: Event)
    requires |f| == SlotLength
    ensures var t := c + (d + (f + [e]));
      && |t| == |c| + |d| + SlotLength + 1
      && t[..|c|] == c
      && t[|c| .. |t| - 1 - SlotLength] == d
      && t[|t| - 1 - SlotLength .. |t| - 1] == f
      && t[|t| - 1] == e
      && t[..|t| - 1 - SlotLength] == c + d
  {
    var t := c + (d + (f + [e]));
    assert t[..|c|] == c;
    assert t[|c| .. |t| - 1 - SlotLength] == d;
    assert t[|t| - 1 - SlotLength .. |t| - 1] == f;
    assert t[..|t| - 1 - SlotLength] == c + d;
  }

  lemma WriteTailDirections(last: bool, delay: nat, hold: nat)
    ensures Keeps(ClockCycle() + (DelayChunks(delay) + Handoff(last, hold)), Output)
  {
    var c, d, h := ClockCycle(), DelayChunks(delay), Handoff(last, hold);
    SlotDirections(last, Output);
    DelayChunksDirections(delay, Output);
    HandoffDirections(last, hold);
    Directions(d, h, Output);
    Directions(c, d + h, Output);
  }

  /** What a data write does on the wire, `levels` being the data bits it
      drives: it drives those levels and then the continuation flag, samples
      nothing, and pulses the clock 35 times in 71 microseconds plus the
      programming delay and the hold time. The flag is driven only once the
      whole programming delay has passed, 69 microseconds plus the delay into
      the write, and the write ends with the hold time. DATA stays an output
      throughout. */
  predicate WriteObserved(t: seq<Event>, levels: seq<bool>, last: bool, delay: nat, hold: nat)
  {
    && Driven(t) == levels + [last] && Sampled(t) == []
    && Pulses(t) == 35 && Elapsed(t) == 71 + delay + hold
    && |t| > SlotLength
    && t[|t| - 1 - SlotLength] == DataOut(last)
    && Elapsed(t[..|t| - 1 - SlotLength]) == 69 + delay
    && t[|t| - 1] == Delay(hold)
    && Keeps(t, Output)
  }

  /** `ICP_WriteData(value, last, delay, hold)`: one clock, write 32 bits, one
      clock, the programming delay in chunks, the continuation flag, the hold
      time. The host drives the 32 bits of the word, most significant first,
      and after them comes the write tail. */
  function WriteData(value: u32, last: bool, delay: u32, hold: u32): (t: seq<Event>)
    ensures WriteObserved(t, BitsOf(value, 32), last, delay, hold)
    ensures |t| > |WritePreamble()| + SlotLength * 32
    ensures Opens(t, WritePreamble(), WriteBits(value, 32))
    ensures t[|WritePreamble()| + SlotLength * 32 ..] == WriteTail(last, delay, hold)
  {
    var w, tail := WriteBits(value, 32), WriteTail(last, delay, hold);
    WriteFrameObserved(w, tail, BitsOf(value, 32), last, delay, hold);
    WritePreamble() + (w + tail)
  }

  /** A data write around any 32 written slots `w` that drive `levels`,
      followed by a tail with the shape `WriteTail` has. */
  lemma WriteFrameObserved(w: seq<Event>, tail: seq<Event>, levels: seq<bool>,
                           last: bool, delay: nat, hold: nat)
    requires |w| == SlotLength * 32 && Driven(w) == levels && Sampled(w) == []
    requires Pulses(w) == 32 && Elapsed(w) == 64 && Keeps(w, Output)
    requires WriteTailObserved(tail, last, delay, hold)
    ensures WriteObserved(WritePreamble() + (w + tail), levels, last, delay, hold)
    ensures (WritePreamble() + (w + tail))[|WritePreamble()| + SlotLength * 32 ..] == tail
    ensures Opens(WritePreamble() + (w + tail), WritePreamble(), w)
  {
    WriteFrameTotals(w, tail);
    WriteFrameBeforeFlag(WritePreamble(), w, tail);
    WriteFrameDirections(w, tail);
    var t := WritePreamble() + (w + tail);
    assert tail[|tail| - 1 - SlotLength] == WriteBitSlot(last)[0];
    assert t[|t| - 1 - SlotLength] == tail[|tail| - 1 - SlotLength];
    assert t[|t| - 1] == tail[|tail| - 1];
    assert t[|WritePreamble()| + |w| ..] == tail;
    assert t[..|WritePreamble()|] == WritePreamble();
    assert t[|WritePreamble()| .. |WritePreamble()| + |w|] == w;
  }

  lemma WriteFrameTotals(w: seq<Event>, tail: seq<Event>)
    ensures var t := WritePreamble() + (w + tail);
      && Driven(t) == Driven(w) + Driven(tail) && Sampled(t) == Sampled(w) + Sampled(tail)
      && Pulses(t) == 1 + Pulses(w) + Pulses(tail) && Elapsed(t) == 3 + Elapsed(w) + Elapsed(tail)
  {
    FramingObservations();
    Observe(w, tail);
    Observe(WritePreamble(), w + tail);
  }

  /** The waits before the flag of a write are those of its preamble, its
      data slots and the part of its tail before the flag slot. */
  lemma WriteFrameBeforeFlag(p: seq<Event>, w: seq<Event>, tail: seq<Event>)
    requires |tail| > SlotLength
    ensures var t := p + (w + tail);
      Elapsed(t[..|t| - 1 - SlotLength])
        == Elapsed(p) + Elapsed(w) + Elapsed(tail[..|tail| - 1 - SlotLength])
  {
    var k := |tail| - 1 - SlotLength;
    var t := p + (w + tail);
    assert t[..|t| - 1 - SlotLength] == p + (w + tail[..k]);
    Observe(w, tail[..k]);
    Observe(p, w + tail[..k]);
  }

  lemma WriteFrameDirections(w: seq<Event>, tail: seq<Event>)
    requires Keeps(w, Output) && Keeps(tail, Output)
    ensures Keeps(WritePreamble() + (w + tail), Output)
  {
    FramingDirections();
    Directions(w, tail, Output);
    Directions(WritePreamble(), w + tail, Output);
  }

  lemma FramingObservations()
    ensures Driven(ReadPreamble()) == [] && Sampled(ReadPreamble()) == []
    ensures Elapsed(ReadPreamble()) == 3 && Pulses(ReadPreamble()) == 1
    ensures Driven(Turnaround()) == [] && Sampled(Turnaround()) == []
    ensures Elapsed(Turnaround()) == 2 && Pulses(Turnaround()) == 1
    ensures Driven(WritePreamble()) == [] && Sampled(WritePreamble()) == []
    ensures Elapsed(WritePreamble()) == 3 && Pulses(WritePreamble()) == 1
  {
    var r, t, w := ReadPreamble(), Turnaround(), WritePreamble();
    assert r[1..][1..][1..][1..][1..][1..] == [];
    assert t[1..][1..][1..][1..][1..] == [];
    assert w[1..][1..][1..][1..][1..] == [];
  }

  lemma {:induction false} HandoffObserved(last: bool, us: nat)
    ensures Driven(Handoff(last, us)) == [last] && Sampled(Handoff(last, us)) == []
    ensures Elapsed(Handoff(last, us)) == 2 + us && Pulses(Handoff(last, us)) == 1
  {
    FlagSlot(last);
    SlotObservations(last);
    Observe(WriteBitSlot(last), [Delay(us)]);
    assert [Delay(us)][1..] == [];
  }

  lemma DelayChunksSilent(total: nat)
    ensures Driven(DelayChunks(total)) == [] && Sampled(DelayChunks(total)) == []
    ensures Pulses(DelayChunks(total)) == 0
    decreases total
  {
    if total > 0 {
      var chunk := if total > MaxDelayChunk then MaxDelayChunk else total;
      DelayChunksSilent(total - chunk);
      Observe([Delay(chunk)], DelayChunks(total - chunk));
      assert [Delay(chunk)][1..] == [];
    }
  }

  lemma FramingDirections()
    ensures Disciplined(ReadPreamble(), Output) && DirAfter(ReadPreamble(), Output) == Input
    ensures Disciplined(Turnaround(), Input) && DirAfter(Turnaround(), Input) == Output
    ensures Keeps(WritePreamble(), Output)
  {
    var r, t, w := ReadPreamble(), Turnaround(), WritePreamble();
    assert r[1..][1..][1..][1..][1..][1..] == [];
    assert t[1..][1..][1..][1..][1..] == [];
    assert w[1..][1..][1..][1..][1..] == [];
  }

  lemma HandoffDirections(last: bool, us: nat)
    ensures Keeps(Handoff(last, us), Output)
  {
    FlagSlot(last);
    SlotDirections(last, Output);
    Directions(WriteBitSlot(last), [Delay(us)], Output);
    assert [Delay(us)][1..] == [];
  }

  /** Busy-waits leave DATA alone. */
  lemma {:induction false} DelayChunksDirections(total: nat, dir: Direction)
    ensures Keeps(DelayChunks(total), dir)
    decreases total
  {
    if total > 0 {
      var chunk := if total > MaxDelayChunk then MaxDelayChunk else total;
      DelayChunksDirections(total - chunk, dir);
      Directions([Delay(chunk)], DelayChunks(total - chunk), dir);
      assert [Delay(chunk)][1..] == [];
    }
  }
}
