/** Entering and leaving ICP mode: the reset-and-clock handshake that wakes
    the target's ICP interface, and the reset release that ends a session. */
module Session {
  import opened Arith
  import opened Wire
  import opened Transport
  import opened Codec
  import opened Pins
  import opened Flash

  /** `ICP_ENTRY_CODE`, clocked in after the wake cycles. */
  const EntryCode: nat := 0x55_AA03

  /** Width of the entry code in bits. */
  const EntryCodeBits: nat := 24

  /** Clock cycles with DATA high before the entry code. */
  const WakeCycles: nat := 50

  /** `n` clock cycles. */
  function ClockCycles(n: nat): (t: seq<Event>)
    ensures |t| == 4 * n
  {
    if n == 0 then [] else ClockCycle() + ClockCycles(n - 1)
  }

  lemma {:induction false} ClockCyclesObserved(n: nat)
    ensures Driven(ClockCycles(n)) == [] && Sampled(ClockCycles(n)) == []
    ensures Pulses(ClockCycles(n)) == n && Elapsed(ClockCycles(n)) == 2 * n
  {
    if n > 0 {
      Observe(ClockCycle(), ClockCycles(n - 1));
      SlotObservations(false);
      ClockCyclesObserved(n - 1);
    }
  }

  /** Assert RESET, wait 500 us, drive DATA high and clock 50 times. */
  function WakeUp(activeLevel: u32): (t: seq<Event>)
    ensures |t| == 3 + 4 * WakeCycles && t[0] == ResetOut(ResetLevel(activeLevel, true))
  {
    SetReset(activeLevel, true) + [Delay(500), DataOut(true)] + ClockCycles(WakeCycles)
  }

  /** The two ID reads that close the entry sequence; the values read are
      discarded. */
  function EntryReads(c: Codes, cid: u32, did: u32): seq<Transfer>
  {
    ReadCid(c, cid).script + ReadDid(c, did).script
  }

  /** `ICP_ModeEntry()`: wake-up, the 24-bit entry code, 5 us, then the
      chip-ID and device-ID reads, the target answering `cid` and `did`. */
  function ModeEntry(c: Codes, activeLevel: u32, cid: u32, did: u32): (t: seq<Event>)
    ensures |t| > 0 && t[0] == ResetOut(ResetLevel(activeLevel, true))
  {
    Handshake(activeLevel) + Render(EntryReads(c, cid, did))
  }

  /** Wake-up, entry code and the 5 us pause that precede the ID reads. */
  function Handshake(activeLevel: u32): (t: seq<Event>)
    ensures |t| > 0 && t[0] == ResetOut(ResetLevel(activeLevel, true))
  {
    WakeUp(activeLevel) + WriteBits(EntryCode, EntryCodeBits) + [Delay(5)]
  }

  /** `ICP_ModeExit()`: wait 110 us, then release RESET. */
  function ModeExit(activeLevel: u32): (t: seq<Event>)
    ensures |t| == 2 && t[1] == ResetOut(ResetLevel(activeLevel, false))
  {
    [Delay(110)] + SetReset(activeLevel, false)
  }

  lemma WakeUpObserved(activeLevel: u32)
    ensures Driven(WakeUp(activeLevel)) == [true] && Sampled(WakeUp(activeLevel)) == []
    ensures Pulses(WakeUp(activeLevel)) == WakeCycles
  {
    var r := SetReset(activeLevel, true);
    var d: seq<Event> := [Delay(500), DataOut(true)];
    Observe(r + d, ClockCycles(WakeCycles));
    Observe(r, d);
    ClockCyclesObserved(WakeCycles);
  }

  /** The levels the two entry reads drive: two ID frames, each followed by
      its final-word flag. */
  function EntryReadLevels(c: Codes): seq<bool>
  {
    BitsOf(FrameWord(c.readCid, 0), 32) + [true] + (BitsOf(FrameWord(c.readDid, 0), 32) + [true])
  }

  lemma EntryReadsDriven(c: Codes, cid: u32, did: u32)
    ensures Driven(Render(EntryReads(c, cid, did))) == EntryReadLevels(c)
  {
    var a, b := ReadCid(c, cid).script, ReadDid(c, did).script;
    RenderAppend(a, b);
    Observe(Render(a), Render(b));
  }

  lemma EntryReadsSampled(c: Codes, cid: u32, did: u32)
    ensures Sampled(Render(EntryReads(c, cid, did))) == BitsOf(cid, 32) + BitsOf(did, 32)
    ensures Pulses(Render(EntryReads(c, cid, did))) == 134
  {
    var a, b := ReadCid(c, cid).script, ReadDid(c, did).script;
    RenderAppend(a, b);
    Observe(Render(a), Render(b));
  }

  lemma AfterHead(head: bool, middle: seq<bool>, tail: seq<bool>)
    ensures ([head] + middle + tail)[1..1 + |middle|] == middle
  {
  }

  /** The entry code as the target clocks it in: 24 levels, most significant
      first, that read back as `0x55AA03`. */
  lemma {:induction false} EntryCodeReceived()
    ensures Driven(WriteBits(EntryCode, EntryCodeBits)) == BitsOf(EntryCode, EntryCodeBits)
    ensures ReadBits(EntryCodeBits, BitsOf(EntryCode, EntryCodeBits)).value == EntryCode
  {
    Loopback(EntryCode, EntryCodeBits);
    Pow2Word();
    Pow2Add(16, 8);
    DivModUnique(EntryCode, Pow2(24), 0, EntryCode);
  }

  lemma {:induction false} HandshakeObserved(activeLevel: u32)
    ensures Driven(Handshake(activeLevel)) == [true] + BitsOf(EntryCode, EntryCodeBits)
    ensures Sampled(Handshake(activeLevel)) == []
    ensures Pulses(Handshake(activeLevel)) == WakeCycles + EntryCodeBits
  {
    var w := WakeUp(activeLevel);
    var e := WriteBits(EntryCode, EntryCodeBits);
    var p: seq<Event> := [Delay(5)];
    Observe(w + e, p);
    Observe(w, e);
    assert Driven(p) == [] + Driven([]) && Sampled(p) == [] + Sampled([]) && Pulses(p) == 0 + Pulses([]);
    WakeUpObserved(activeLevel);
  }

  /** On DATA the entry sequence drives one high level during the wake
      cycles, then the 24 bits of the entry code, so a target that clocks in
      the 24 levels after the first recovers `0x55AA03`; it then drives the
      two ID read frames and samples the two answers. The clock rises
      50 + 24 + 2 * (32 + 35) times. */
  lemma {:induction false} EntrySequence(c: Codes, activeLevel: u32, cid: u32, did: u32)
    ensures var t := ModeEntry(c, activeLevel, cid, did);
      && Driven(t) == [true] + BitsOf(EntryCode, EntryCodeBits) + EntryReadLevels(c)
      && ReadBits(EntryCodeBits, Driven(t)[1..1 + EntryCodeBits]).value == EntryCode
      && Sampled(t) == BitsOf(cid, 32) + BitsOf(did, 32)
      && Pulses(t) == WakeCycles + EntryCodeBits + 134
  {
    var h := Handshake(activeLevel);
    var r := Render(EntryReads(c, cid, did));
    Observe(h, r);
    HandshakeObserved(activeLevel);
    EntryReadsDriven(c, cid, did);
    EntryReadsSampled(c, cid, did);
    var code := BitsOf(EntryCode, EntryCodeBits);
    var tail := Driven(r);
    assert Driven(ModeEntry(c, activeLevel, cid, did)) == [true] + code + tail;
    AfterHead(true, code, tail);
    EntryCodeReceived();
  }

  /** A session starts by driving RESET to its active level and ends by
      driving it back to the level `ICP_Init` left it at; for the two
      supported polarities these differ. */
  lemma SessionBracket(c: Codes, activeLevel: u32, cid: u32, did: u32)
    ensures ModeExit(activeLevel)[1] == ResetOut(InitResetLevel(activeLevel))
    ensures activeLevel == 0 || activeLevel == 1 ==>
      ModeEntry(c, activeLevel, cid, did)[0] != ModeExit(activeLevel)[1]
    ensures Elapsed(ModeExit(activeLevel)) == 110
    ensures Pulses(ModeExit(activeLevel)) == 0 && Driven(ModeExit(activeLevel)) == []
  {
    InitReleasesReset(activeLevel);
    ResetPolarity(activeLevel);
    ExitObserved(activeLevel);
  }

  lemma ExitObserved(activeLevel: u32)
    ensures Elapsed(ModeExit(activeLevel)) == 110
    ensures Pulses(ModeExit(activeLevel)) == 0 && Driven(ModeExit(activeLevel)) == []
  {
    Observe([Delay(110)], SetReset(activeLevel, false));
    assert Elapsed([Delay(110)]) == 110 + Elapsed([]);
    assert Elapsed(SetReset(activeLevel, false)) == 0 + Elapsed([]);
  }
}
