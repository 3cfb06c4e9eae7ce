/** The flash commands of the ICP library: ID reads, the erase family,
    programming, program-and-verify, reading, and the CRC-protected config
    block, together with the timing record they draw their delays from.

    Every command is a short script of framed transfers (`Transfer`): a
    command frame, data writes and data reads. `Render` turns a script into
    the pin events of the codec. What the target shifts out during a read is
    an input of the model. */
module Flash {
  import opened Arith
  import opened Wire
  import opened Transport
  import opened Codec
  import opened Lanes
  import opened Crc

  /** `FMC_ISPCMD_MASS_ERASE`, the one command code the library defines itself. */
  const MassEraseCode: byte := 0x26

  /** The key word that the SPROM and XOM erases send instead of an erased word. */
  const EraseKey: u32 := 0x0055_AA03

  /** `ICP_LIB_VERSION`, the value `ICP_GetVersion` returns. */
  const LibVersion: u32 := 0x0010

  /** Command codes and the config base address, which the device headers
      define. */
  datatype Codes = Codes(
    readCid: byte, readDid: byte, readUid: byte,
    pageErase: byte, bankErase: byte, blockErase: byte,
    program: byte, read: byte,
    configBase: u32)

  /** One framed exchange on the link. */
  datatype Transfer =
    | Command(cmd: byte, addr: u32)                          // `ICP_SendCommand`
    | Write(value: u32, last: bool, delay: u32, hold: u32)   // `ICP_WriteData`
    | Read(last: bool, word: u32)                            // `ICP_ReadData`, the target sending `word`

  /** The pin events of one transfer. */
  function Events(x: Transfer): seq<Event>
  {
    match x
    case Command(cmd, addr) => SendCommand(cmd, addr)
    case Write(value, last, delay, hold) => WriteData(value, last, delay, hold)
    case Read(last, word) => ReadData(last, word).trace
  }

  /** The pin events of a script of transfers. */
  function Render(xs: seq<Transfer>): seq<Event>
  {
    if xs == [] then [] else Events(xs[0]) + Render(xs[1..])
  }

  lemma {:induction false} RenderAppend(a: seq<Transfer>, b: seq<Transfer>)
    ensures Render(a + b) == Render(a) + Render(b)
  {
    if a != [] {
      assert (a + b)[0] == a[0];
      assert (a + b)[1..] == a[1..] + b;
      calc {
        Render(a + b);
        Events(a[0]) + Render(a[1..] + b);
        { RenderAppend(a[1..], b); }
        Events(a[0]) + (Render(a[1..]) + Render(b));
      }
    } else {
      assert a + b == b;
    }
  }

  /** Clock pulses of one transfer: 32 for a command frame, 35 for a data
      word (framing, 32 data bits and the continue flag). */
  function FramePulses(x: Transfer): nat
  {
    if x.Command? then 32 else 35
  }

  function ScriptPulses(xs: seq<Transfer>): nat
  {
    if xs == [] then 0 else FramePulses(xs[0]) + ScriptPulses(xs[1..])
  }

  lemma TransferPulses(x: Transfer)
    ensures Pulses(Events(x)) == FramePulses(x)
  {
    match x
    case Command(cmd, addr) =>
    case Write(value, last, delay, hold) =>
    case Read(last, word) =>
  }

  /** The pin trace of a script pulses the clock once per bit of every frame
      and data word it contains. */
  lemma {:induction false} RenderPulses(xs: seq<Transfer>)
    ensures Pulses(Render(xs)) == ScriptPulses(xs)
  {
    if xs != [] {
      Observe(Events(xs[0]), Render(xs[1..]));
      TransferPulses(xs[0]);
      RenderPulses(xs[1..]);
    }
  }

  /** The 32 data bits of each word, most significant first, word after word. */
  function WordBits(words: seq<u32>): (bs: seq<bool>)
    ensures |bs| == 32 * |words|
    decreases |words|
  {
    if words == [] then [] else WordBits(words[..|words| - 1]) + BitsOf(words[|words| - 1], 32)
  }

  /** What the host drives and samples during one transfer. */
  lemma TransferLevels(x: Transfer)
    ensures x.Command? ==> Sampled(Events(x)) == [] && Driven(Events(x)) == BitsOf(FrameWord(x.cmd, x.addr), 32)
    ensures x.Read? ==> Sampled(Events(x)) == BitsOf(x.word, 32) && Driven(Events(x)) == [x.last]
    ensures x.Write? ==> Sampled(Events(x)) == [] && Driven(Events(x)) == BitsOf(x.value, 32) + [x.last]
  {
    match x
    case Command(cmd, addr) =>
    case Write(value, last, delay, hold) =>
    case Read(last, word) =>
  }

  lemma RenderSingle(x: Transfer)
    ensures Render([x]) == Events(x)
  {
    var xs := [x];
    assert xs[1..] == [];
    assert Render(xs) == Events(xs[0]) + Render(xs[1..]);
  }

  lemma TransferKeeps(x: Transfer)
    ensures Keeps(Events(x), Output)
  {
    match x
    case Command(cmd, addr) =>
    case Write(value, last, delay, hold) =>
    case Read(last, word) =>
  }

  /** Every script keeps to the direction rules of DATA: the host drives
      DATA only while it is an output and samples it only while it is an
      input, and DATA is an output again when the script ends. */
  lemma {:induction false} RenderKeeps(xs: seq<Transfer>)
    ensures Keeps(Render(xs), Output)
  {
    if xs != [] {
      RenderKeeps(xs[1..]);
      TransferKeeps(xs[0]);
      Directions(Events(xs[0]), Render(xs[1..]), Output);
    }
  }

  lemma RenderSnoc(xs: seq<Transfer>, x: Transfer)
    ensures Render(xs + [x]) == Render(xs) + Events(x)
  {
    RenderAppend(xs, [x]);
    RenderSingle(x);
  }

  lemma RenderPair(x: Transfer, y: Transfer)
    ensures Render([x, y]) == Events(x) + Events(y)
  {
    assert [x, y] == [x] + [y];
    RenderAppend([x], [y]);
    RenderSingle(x);
    RenderSingle(y);
  }

  /** During a read stream the host samples exactly the bits of the words the
      target sends, in order. */
  lemma {:induction false} ReadsSampled(words: seq<u32>, total: nat)
    requires |words| <= total
    ensures Sampled(Render(Reads(words, total))) == WordBits(words)
    decreases |words|
  {
    if words != [] {
      var m := |words| - 1;
      var x := Read(|words| == total, words[m]);
      var init := Reads(words[..m], total);
      assert Reads(words, total) == init + [x];
      RenderSnoc(init, x);
      Observe(Render(init), Events(x));
      TransferLevels(x);
      ReadsSampled(words[..m], total);
    }
  }

  /** The levels a write stream drives: for each word its 32 bits, most
      significant first, then its continue flag, set only on word
      `total - 1`. */
  function WordFrames(words: seq<u32>, total: nat): (bs: seq<bool>)
    ensures |bs| == 33 * |words|
    decreases |words|
  {
    if words == [] then []
    else
      var m := |words| - 1;
      WordFrames(words[..m], total) + (BitsOf(words[m], 32) + [m == total - 1])
  }

  /** Word `j` of a write stream occupies driven levels `33 j .. 33 j + 32`. */
  lemma {:induction false} WordFramesAt(words: seq<u32>, total: nat, j: nat)
    requires j < |words|
    ensures WordFrames(words, total)[33 * j..33 * j + 33] == BitsOf(words[j], 32) + [j == total - 1]
    decreases |words|
  {
    var m := |words| - 1;
    var p := WordFrames(words[..m], total);
    var d := WordFrames(words, total);
    if j < m {
      WordFramesAt(words[..m], total, j);
      assert d[33 * j..33 * j + 33] == p[33 * j..33 * j + 33];
    } else {
      assert d[33 * j..33 * j + 33] == d[|p|..];
    }
  }

  /** During a write stream the host drives exactly `WordFrames` and samples
      nothing. */
  lemma {:induction false} WritesDriven(words: seq<u32>, total: nat, delay: u32, hold: u32)
    requires |words| <= total
    ensures Sampled(Render(Writes(words, total, delay, hold))) == []
    ensures Driven(Render(Writes(words, total, delay, hold))) == WordFrames(words, total)
    decreases |words|
  {
    if words != [] {
      var m := |words| - 1;
      var x := Write(words[m], |words| == total, delay, hold);
      var init := Writes(words[..m], total, delay, hold);
      assert Writes(words, total, delay, hold) == init + [x];
      RenderSnoc(init, x);
      Observe(Render(init), Events(x));
      TransferLevels(x);
      WritesDriven(words[..m], total, delay, hold);
    }
  }

  // ---------------------------------------------------------------- timing

  /** `STR_ICP_TIMING`: delay and hold times, in microseconds, of the three
      timing classes, and the two read times, which no command uses. */
  datatype Timing = Timing(
    massEraseDelay: u32, massEraseHold: u32,
    pageEraseDelay: u32, pageEraseHold: u32,
    programDelay: u32, programHold: u32,
    readDelay: u32, readHold: u32)

  /** The initial value of `g_ICPTiming`. */
  const DefaultTiming: Timing := Timing(320000, 120, 120000, 120, 60, 10, 1, 5)

  function SetMassEraseTime(t: Timing, delay: u32, hold: u32): (r: Timing)
    ensures r.massEraseDelay == delay && r.massEraseHold == hold
    ensures r.(massEraseDelay := t.massEraseDelay, massEraseHold := t.massEraseHold) == t
  {
    t.(massEraseDelay := delay, massEraseHold := hold)
  }

  function SetPageEraseTime(t: Timing, delay: u32, hold: u32): (r: Timing)
    ensures r.pageEraseDelay == delay && r.pageEraseHold == hold
    ensures r.(pageEraseDelay := t.pageEraseDelay, pageEraseHold := t.pageEraseHold) == t
  {
    t.(pageEraseDelay := delay, pageEraseHold := hold)
  }

  function SetProgramTime(t: Timing, delay: u32, hold: u32): (r: Timing)
    ensures r.programDelay == delay && r.programHold == hold
    ensures r.(programDelay := t.programDelay, programHold := t.programHold) == t
  {
    t.(programDelay := delay, programHold := hold)
  }

  /** The three setters touch disjoint fields, so their order does not
      matter, and a second call of the same setter overrides the first. */
  lemma SettersCommute(t: Timing, d1: u32, h1: u32, d2: u32, h2: u32, d3: u32, h3: u32)
    ensures SetPageEraseTime(SetMassEraseTime(t, d1, h1), d2, h2)
         == SetMassEraseTime(SetPageEraseTime(t, d2, h2), d1, h1)
    ensures SetProgramTime(SetMassEraseTime(t, d1, h1), d3, h3)
         == SetMassEraseTime(SetProgramTime(t, d3, h3), d1, h1)
    ensures SetProgramTime(SetPageEraseTime(t, d2, h2), d3, h3)
         == SetPageEraseTime(SetProgramTime(t, d3, h3), d2, h2)
    ensures SetMassEraseTime(SetMassEraseTime(t, d1, h1), d2, h2) == SetMassEraseTime(t, d2, h2)
    ensures SetPageEraseTime(SetPageEraseTime(t, d1, h1), d2, h2) == SetPageEraseTime(t, d2, h2)
    ensures SetProgramTime(SetProgramTime(t, d1, h1), d2, h2) == SetProgramTime(t, d2, h2)
  {
  }

  // ---------------------------------------------------------------- ID reads

  /** A value read from the target and the script that read it. */
  datatype Answer = Answer(value: u32, script: seq<Transfer>)

  /** One command frame followed by one final read. */
  predicate SingleRead(a: Answer, cmd: byte, addr: u32, word: u32)
  {
    a.script == [Command(cmd, addr), Read(true, word)] && a.value == word
  }

  /** What an ID read shows on the pins: the host drives the frame word,
      most significant bit first, and then the final flag; it samples the 32
      bits of the value it returns, and those bits read back as that value;
      the clock rises 67 times in 140 microseconds. A target clocking in the
      frame receives the command and the low 24 address bits. */
  predicate ReadOnWire(a: Answer, cmd: byte, addr: u32)
  {
    var t := Render(a.script);
    && Driven(t) == BitsOf(FrameWord(cmd, addr), 32) + [true]
    && (var f := ReadBits(32, BitsOf(FrameWord(cmd, addr), 32)).value;
        f == FrameWord(cmd, addr) && DecodeFrame(f) == (cmd, addr % 0x100_0000))
    && Sampled(t) == BitsOf(a.value, 32)
    && ReadBits(32, BitsOf(a.value, 32)).value == a.value
    && Pulses(t) == 67
    && Elapsed(t) == 140
  }

  lemma {:induction false} IdReadObserved(cmd: byte, addr: u32, word: u32)
    ensures ReadOnWire(Answer(word, [Command(cmd, addr), Read(true, word)]), cmd, addr)
  {
    IdReadLevels(cmd, addr, word);
    IdReadTiming(cmd, addr, word);
    LoopbackWord(FrameWord(cmd, addr));
    LoopbackWord(word);
    FrameRoundTrip(cmd, addr, 0);
  }

  lemma IdReadLevels(cmd: byte, addr: u32, word: u32)
    ensures var t := Render([Command(cmd, addr), Read(true, word)]);
      Driven(t) == BitsOf(FrameWord(cmd, addr), 32) + [true] && Sampled(t) == BitsOf(word, 32)
  {
    var x, y := Command(cmd, addr), Read(true, word);
    RenderPair(x, y);
    Observe(Events(x), Events(y));
  }

  lemma IdReadTiming(cmd: byte, addr: u32, word: u32)
    ensures var t := Render([Command(cmd, addr), Read(true, word)]);
      Pulses(t) == 67 && Elapsed(t) == 140
  {
    var x, y := Command(cmd, addr), Read(true, word);
    RenderPair(x, y);
    Observe(Events(x), Events(y));
  }

  function ReadCid(c: Codes, word: u32): (a: Answer)
    ensures SingleRead(a, c.readCid, 0, word)
    ensures ReadOnWire(a, c.readCid, 0)
  {
    IdReadObserved(c.readCid, 0, word);
    Answer(word, [Command(c.readCid, 0), Read(true, word)])
  }

  function ReadDid(c: Codes, word: u32): (a: Answer)
    ensures SingleRead(a, c.readDid, 0, word)
    ensures ReadOnWire(a, c.readDid, 0)
  {
    IdReadObserved(c.readDid, 0, word);
    Answer(word, [Command(c.readDid, 0), Read(true, word)])
  }

  /** The product ID is read with the device-ID command at address 4. */
  function ReadPid(c: Codes, word: u32): (a: Answer)
    ensures SingleRead(a, c.readDid, 4, word)
    ensures ReadOnWire(a, c.readDid, 4)
  {
    IdReadObserved(c.readDid, 4, word);
    Answer(word, [Command(c.readDid, 4), Read(true, word)])
  }

  /** Number of unique-ID words and of unique-customer-ID words. */
  const UidWords: nat := 3
  const UcidWords: nat := 4

  /** `ICP_ReadUID(index)`: word `index` of the unique ID, or `0xFFFFFFFF`
      without touching the link when the index is out of range. */
  function ReadUid(c: Codes, index: u32, word: u32): (a: Answer)
    ensures index >= UidWords <==> a.script == []
    ensures index >= UidWords ==> a.value == AllOnes
    ensures index < UidWords ==> SingleRead(a, c.readUid, UidAddress(index), word)
    ensures index < UidWords ==> ReadOnWire(a, c.readUid, UidAddress(index))
  {
    if index >= UidWords then Answer(AllOnes, [])
    else
      IdReadObserved(c.readUid, UidAddress(index), word);
      Answer(word, [Command(c.readUid, UidAddress(index)), Read(true, word)])
  }

  /** `ICP_ReadUCID(index)`: the same over the customer ID words, which sit
      0x10 above the unique ID. */
  function ReadUcid(c: Codes, index: u32, word: u32): (a: Answer)
    ensures index >= UcidWords <==> a.script == []
    ensures index >= UcidWords ==> a.value == AllOnes
    ensures index < UcidWords ==> SingleRead(a, c.readUid, UcidAddress(index), word)
    ensures index < UcidWords ==> ReadOnWire(a, c.readUid, UcidAddress(index))
  {
    if index >= UcidWords then Answer(AllOnes, [])
    else
      IdReadObserved(c.readUid, UcidAddress(index), word);
      Answer(word, [Command(c.readUid, UcidAddress(index)), Read(true, word)])
  }

  /** Address of unique-ID word `index`. */
  function UidAddress(index: nat): nat { 4 * index }

  /** Address of customer-ID word `index`. */
  function UcidAddress(index: nat): nat { 4 * index + 0x10 }

  // ---------------------------------------------------------------- erases

  /** One command frame followed by one final data write: the shape of every
      erase. */
  predicate OneShot(s: seq<Transfer>, cmd: byte, addr: u32, value: u32, delay: u32, hold: u32)
  {
    s == [Command(cmd, addr), Write(value, true, delay, hold)]
  }

  /** What a one-shot script shows on the pins: the host drives the frame
      word and then the data word, most significant bit first, followed by
      the final flag, and samples nothing; the clock rises 67 times; the
      script busy-waits its delay and hold time on top of 135 microseconds of
      clocking. A target clocking in the levels receives the command, the low
      24 address bits and the data word. */
  predicate WriteOnWire(s: seq<Transfer>, cmd: byte, addr: u32, value: u32, delay: u32, hold: u32)
  {
    var t := Render(s);
    && Driven(t) == BitsOf(FrameWord(cmd, addr), 32) + (BitsOf(value, 32) + [true])
    && (var f := ReadBits(32, BitsOf(FrameWord(cmd, addr), 32)).value;
        f == FrameWord(cmd, addr) && DecodeFrame(f) == (cmd, addr % 0x100_0000))
    && ReadBits(32, BitsOf(value, 32)).value == value
    && Sampled(t) == []
    && Pulses(t) == 67
    && Elapsed(t) == 135 + delay + hold
  }

  lemma {:induction false} OneShotObserved(cmd: byte, addr: u32, value: u32, delay: u32, hold: u32)
    ensures WriteOnWire([Command(cmd, addr), Write(value, true, delay, hold)], cmd, addr, value, delay, hold)
  {
    var x, y := Command(cmd, addr), Write(value, true, delay, hold);
    RenderPair(x, y);
    Observe(Events(x), Events(y));
    LoopbackWord(FrameWord(cmd, addr));
    LoopbackWord(value);
    FrameRoundTrip(cmd, addr, 0);
  }

  function PageErase(c: Codes, t: Timing, addr: u32): (s: seq<Transfer>)
    ensures OneShot(s, c.pageErase, addr, AllOnes, t.pageEraseDelay, t.pageEraseHold)
    ensures WriteOnWire(s, c.pageErase, addr, AllOnes, t.pageEraseDelay, t.pageEraseHold)
  {
    OneShotObserved(c.pageErase, addr, AllOnes, t.pageEraseDelay, t.pageEraseHold);
    [Command(c.pageErase, addr), Write(AllOnes, true, t.pageEraseDelay, t.pageEraseHold)]
  }

  /** The SPROM erase is a page erase that sends the erase key. */
  function SpromErase(c: Codes, t: Timing, addr: u32): (s: seq<Transfer>)
    ensures OneShot(s, c.pageErase, addr, EraseKey, t.pageEraseDelay, t.pageEraseHold)
    ensures WriteOnWire(s, c.pageErase, addr, EraseKey, t.pageEraseDelay, t.pageEraseHold)
  {
    OneShotObserved(c.pageErase, addr, EraseKey, t.pageEraseDelay, t.pageEraseHold);
    [Command(c.pageErase, addr), Write(EraseKey, true, t.pageEraseDelay, t.pageEraseHold)]
  }

  /** The XOM erase waits one page-erase delay per page, the product taken
      modulo 2^32 as the `uint32_t` multiplication does. */
  function XomErase(c: Codes, t: Timing, addr: u32, pages: u32): (s: seq<Transfer>)
    ensures OneShot(s, c.pageErase, addr, EraseKey, Wrap(t.pageEraseDelay * pages), t.pageEraseHold)
    ensures WriteOnWire(s, c.pageErase, addr, EraseKey, Wrap(t.pageEraseDelay * pages), t.pageEraseHold)
  {
    OneShotObserved(c.pageErase, addr, EraseKey, Wrap(t.pageEraseDelay * pages), t.pageEraseHold);
    [Command(c.pageErase, addr), Write(EraseKey, true, Wrap(t.pageEraseDelay * pages), t.pageEraseHold)]
  }

  function MassErase(t: Timing): (s: seq<Transfer>)
    ensures OneShot(s, MassEraseCode, 0, 0, t.massEraseDelay, t.massEraseHold)
    ensures WriteOnWire(s, MassEraseCode, 0, 0, t.massEraseDelay, t.massEraseHold)
  {
    OneShotObserved(MassEraseCode, 0, 0, t.massEraseDelay, t.massEraseHold);
    [Command(MassEraseCode, 0), Write(0, true, t.massEraseDelay, t.massEraseHold)]
  }

  function BankErase(c: Codes, t: Timing, addr: u32): (s: seq<Transfer>)
    ensures OneShot(s, c.bankErase, addr, AllOnes, t.massEraseDelay, t.massEraseHold)
    ensures WriteOnWire(s, c.bankErase, addr, AllOnes, t.massEraseDelay, t.massEraseHold)
  {
    OneShotObserved(c.bankErase, addr, AllOnes, t.massEraseDelay, t.massEraseHold);
    [Command(c.bankErase, addr), Write(AllOnes, true, t.massEraseDelay, t.massEraseHold)]
  }

  /** The block erase waits four page-erase delays and four hold times. */
  function BlockErase(c: Codes, t: Timing, addr: u32): (s: seq<Transfer>)
    ensures OneShot(s, c.blockErase, addr, AllOnes, Wrap(4 * t.pageEraseDelay), Wrap(4 * t.pageEraseHold))
    ensures WriteOnWire(s, c.blockErase, addr, AllOnes, Wrap(4 * t.pageEraseDelay), Wrap(4 * t.pageEraseHold))
  {
    OneShotObserved(c.blockErase, addr, AllOnes, Wrap(4 * t.pageEraseDelay), Wrap(4 * t.pageEraseHold));
    [Command(c.blockErase, addr), Write(AllOnes, true, Wrap(4 * t.pageEraseDelay), Wrap(4 * t.pageEraseHold))]
  }

  /** An XOM erase of one page is exactly a SPROM erase; of four pages it
      waits as long as a block erase. */
  lemma {:induction false} XomEraseScales(c: Codes, t: Timing, addr: u32)
    ensures XomErase(c, t, addr, 1) == SpromErase(c, t, addr)
    ensures XomErase(c, t, addr, 4)[1].delay == BlockErase(c, t, addr)[1].delay
  {
    assert t.pageEraseDelay * 1 == t.pageEraseDelay;
    assert t.pageEraseDelay * 4 == 4 * t.pageEraseDelay;
  }

  /** Unless the quadrupled page-erase times wrap around 2^32, a block erase
      busy-waits exactly as long as four page erases, and so takes the
      clocking of three command-and-data pairs less than four page erases in
      a row. */
  lemma {:induction false} BlockEraseTime(c: Codes, t: Timing, addr: u32)
    ensures 4 * t.pageEraseDelay < WordModulus && 4 * t.pageEraseHold < WordModulus ==>
      Elapsed(Render(BlockErase(c, t, addr))) + 3 * 135 == 4 * Elapsed(Render(PageErase(c, t, addr)))
  {
  }

  // ---------------------------------------------------------------- streams

  /** The guard shared by the three buffer commands: a start address, size or
      buffer address that is not word aligned, or an empty transfer. */
  predicate Misaligned(start: u32, size: u32, bufAddr: u32)
  {
    start % 4 != 0 || size == 0 || size % 4 != 0 || bufAddr % 4 != 0
  }

  /** The first `|words|` data writes of a stream of `total` words; only
      word `total - 1` carries the final-word flag. */
  function Writes(words: seq<u32>, total: nat, delay: u32, hold: u32): (s: seq<Transfer>)
    requires |words| <= total
    ensures |s| == |words|
    ensures forall j | 0 <= j < |words| :: s[j] == Write(words[j], j == total - 1, delay, hold)
    decreases |words|
  {
    if words == [] then []
    else Writes(words[..|words| - 1], total, delay, hold) + [Write(words[|words| - 1], |words| == total, delay, hold)]
  }

  /** The first `|words|` data reads of a stream of `total` words, the target
      sending `words`; only read `total - 1` carries the final-word flag. */
  function Reads(words: seq<u32>, total: nat): (s: seq<Transfer>)
    requires |words| <= total
    ensures |s| == |words|
    ensures forall j | 0 <= j < |words| :: s[j] == Read(j == total - 1, words[j])
    decreases |words|
  {
    if words == [] then []
    else Reads(words[..|words| - 1], total) + [Read(|words| == total, words[|words| - 1])]
  }

  lemma {:induction false} WritesNext(words: seq<u32>, i: nat, total: nat, delay: u32, hold: u32)
    requires i < |words| && i < total
    ensures Writes(words[..i + 1], total, delay, hold)
         == Writes(words[..i], total, delay, hold) + [Write(words[i], i == total - 1, delay, hold)]
  {
    assert words[..i + 1][..i] == words[..i];
  }

  lemma {:induction false} ReadsNext(words: seq<u32>, i: nat, total: nat)
    requires i < |words| && i < total
    ensures Reads(words[..i + 1], total) == Reads(words[..i], total) + [Read(i == total - 1, words[i])]
  {
    assert words[..i + 1][..i] == words[..i];
  }

  /** A whole stream ends with its only final-word flag. */
  lemma {:induction false} StreamFlags(words: seq<u32>, delay: u32, hold: u32)
    requires words != []
    ensures var s := Writes(words, |words|, delay, hold);
      s[|s| - 1].last && forall j | 0 <= j < |s| - 1 :: !s[j].last
    ensures var s := Reads(words, |words|);
      s[|s| - 1].last && forall j | 0 <= j < |s| - 1 :: !s[j].last
  {
  }

  /** Index of the first word where `a` and `b` differ among the first `n`,
      or `n` when they agree. */
  function FirstMismatch(a: seq<u32>, b: seq<u32>, n: nat): (k: nat)
    requires n <= |a| && n <= |b|
    ensures k <= n
    ensures forall j | 0 <= j < k :: a[j] == b[j]
    ensures k < n ==> a[k] != b[k]
    decreases n
  {
    if n == 0 then 0
    else
      var k := FirstMismatch(a, b, n - 1);
      if k < n - 1 then k else if a[n - 1] == b[n - 1] then n else n - 1
  }

  // ---------------------------------------------------------------- buffer commands

  /** The write loop of `ICP_ProgramFlash`: words `0 .. n - 2` without the
      final-word flag, then word `n - 1` with it. */
  method SendWords(words: seq<u32>, n: nat, delay: u32, hold: u32) returns (s: seq<Transfer>)
    requires 1 <= n <= |words|
    ensures s == Writes(words[..n], n, delay, hold)
  {
    s := [];
    var i := 0;
    if n > 1 {
      while i < n - 1
        invariant 0 <= i <= n - 1
        invariant s == Writes(words[..i], n, delay, hold)
      {
        WritesNext(words, i, n, delay, hold);
        s := s + [Write(words[i], false, delay, hold)];
        i := i + 1;
      }
    }
    WritesNext(words, i, n, delay, hold);
    s := s + [Write(words[i], true, delay, hold)];
  }

  /** The read loop of `ICP_ReadFlash`: reads `0 .. n - 2` without the
      final-word flag, then read `n - 1` with it; the target sends
      `replies`. */
  method ReceiveWords(replies: seq<u32>, n: nat) returns (s: seq<Transfer>, got: seq<u32>)
    requires 1 <= n <= |replies|
    ensures got == replies[..n]
    ensures s == Reads(got, n)
  {
    s, got := [], [];
    var i := 0;
    if n > 1 {
      while i < n - 1
        invariant 0 <= i <= n - 1
        invariant got == replies[..i]
        invariant s == Reads(got, n)
      {
        ReadsNext(replies, i, n);
        s := s + [Read(false, replies[i])];
        got := got + [replies[i]];
        i := i + 1;
      }
    }
    ReadsNext(replies, i, n);
    s := s + [Read(true, replies[i])];
    got := got + [replies[i]];
  }

  /** The read-back loop of `ICP_ProgramVerifyFlash`: read words in stream
      order and stop after the first one that differs from `expected`,
      returning its index, or `n` when all agree. */
  method CompareWords(expected: seq<u32>, readback: seq<u32>, n: nat) returns (k: nat, s: seq<Transfer>)
    requires 1 <= n <= |expected| && n <= |readback|
    ensures k == FirstMismatch(expected, readback, n)
    ensures s == Reads(readback[..if k < n then k + 1 else n], n)
  {
    s := [];
    var i := 0;
    if n > 1 {
      while i < n - 1
        invariant 0 <= i <= n - 1
        invariant forall j | 0 <= j < i :: expected[j] == readback[j]
        invariant s == Reads(readback[..i], n)
      {
        ReadsNext(readback, i, n);
        s := s + [Read(false, readback[i])];
        if readback[i] != expected[i] {
          FirstMismatchAt(expected, readback, n, i);
          return i, s;
        }
        i := i + 1;
      }
    }
    ReadsNext(readback, i, n);
    s := s + [Read(true, readback[i])];
    if readback[i] != expected[i] {
      FirstMismatchAt(expected, readback, n, i);
      return i, s;
    }
    assert readback[..i + 1] == readback[..n];
    FirstMismatchAt(expected, readback, n, n);
    return n, s;
  }

  /** `FirstMismatch` is determined by its contract. */
  lemma {:induction false} FirstMismatchAt(a: seq<u32>, b: seq<u32>, n: nat, k: nat)
    requires n <= |a| && n <= |b| && k <= n
    requires forall j | 0 <= j < k :: a[j] == b[j]
    requires k < n ==> a[k] != b[k]
    ensures FirstMismatch(a, b, n) == k
  {
  }

  /** `ICP_ProgramFlash(start, size, buffer)`: the guard, then one program
      frame and the `size / 4` buffer words as one stream, with the program
      timing. Returns `size`, or `0xFFFFFFFF` when the guard fails. */
  method ProgramFlash(c: Codes, t: Timing, start: u32, size: u32, bufAddr: u32, buffer: seq<u32>)
    returns (result: u32, script: seq<Transfer>)
    requires !Misaligned(start, size, bufAddr) ==> size / 4 <= |buffer|
    ensures Misaligned(start, size, bufAddr) <==> result == AllOnes
    ensures Misaligned(start, size, bufAddr) ==> script == []
    ensures !Misaligned(start, size, bufAddr) ==> result == size
    ensures !Misaligned(start, size, bufAddr) ==>
      script == [Command(c.program, start)] + Writes(buffer[..size / 4], size / 4, t.programDelay, t.programHold)
  {
    if start % 4 != 0 || size == 0 || size % 4 != 0 || bufAddr % 4 != 0 {
      return 0xFFFF_FFFF, [];
    }
    var words := SendWords(buffer, size / 4, t.programDelay, t.programHold);
    return size, [Command(c.program, start)] + words;
  }

  /** `ICP_ReadFlash(start, size, buffer)`: the guard, then one read frame and
      `size / 4` reads as one stream; the words the target sends replace the
      first `size / 4` buffer entries. */
  method ReadFlash(c: Codes, start: u32, size: u32, bufAddr: u32, buffer: seq<u32>, replies: seq<u32>)
    returns (result: u32, script: seq<Transfer>, filled: seq<u32>)
    requires !Misaligned(start, size, bufAddr) ==> size / 4 <= |buffer| && size / 4 <= |replies|
    ensures Misaligned(start, size, bufAddr) <==> result == AllOnes
    ensures Misaligned(start, size, bufAddr) ==> script == [] && filled == buffer
    ensures !Misaligned(start, size, bufAddr) ==> result == size
    ensures !Misaligned(start, size, bufAddr) ==>
      && script == [Command(c.read, start)] + Reads(replies[..size / 4], size / 4)
      && filled == replies[..size / 4] + buffer[size / 4..]
  {
    if start % 4 != 0 || size == 0 || size % 4 != 0 || bufAddr % 4 != 0 {
      return 0xFFFF_FFFF, [], buffer;
    }
    var n := size / 4;
    var received, got := ReceiveWords(replies, n);
    return size, [Command(c.read, start)] + received, got + buffer[n..];
  }

  /** What `ICP_ProgramVerifyFlash` sends before it reads back: the program
      stream, then one read frame at the same start address. */
  function ProgramThenRead(c: Codes, t: Timing, start: u32, words: seq<u32>): seq<Transfer>
  {
    [Command(c.program, start)] + Writes(words, |words|, t.programDelay, t.programHold) + [Command(c.read, start)]
  }

  /** `ICP_ProgramVerifyFlash(start, size, buffer)`: program the `size / 4`
      words, read them back as one stream and stop at the first word that
      differs, returning its address; when all agree return `start + size`.
      Addresses are `uint32_t` sums. */
  method ProgramVerifyFlash(c: Codes, t: Timing, start: u32, size: u32, bufAddr: u32, buffer: seq<u32>, readback: seq<u32>)
    returns (result: u32, script: seq<Transfer>)
    requires !Misaligned(start, size, bufAddr) ==> size / 4 <= |buffer| && size / 4 <= |readback|
    ensures Misaligned(start, size, bufAddr) <==> result == AllOnes
    ensures Misaligned(start, size, bufAddr) ==> script == []
    ensures !Misaligned(start, size, bufAddr) ==>
      var n := size / 4;
      var k := FirstMismatch(buffer, readback, n);
      && result == (if k < n then Wrap(start + 4 * k) else Wrap(start + size))
      && script == ProgramThenRead(c, t, start, buffer[..n]) + Reads(readback[..if k < n then k + 1 else n], n)
  {
    if start % 4 != 0 || size == 0 || size % 4 != 0 || bufAddr % 4 != 0 {
      return 0xFFFF_FFFF, [];
    }
    var n := size / 4;
    var words := SendWords(buffer, n, t.programDelay, t.programHold);
    var k, readBack := CompareWords(buffer, readback, n);
    script := [Command(c.program, start)] + words + [Command(c.read, start)] + readBack;
    if k < n {
      WrapKeepsAlignment(start + k * 4);
      result := Wrap(start + k * 4);
    } else {
      WrapKeepsAlignment(start + size);
      result := Wrap(start + size);
    }
  }

  /** The verify result is `start + size` exactly when every word read back
      equals the word programmed; otherwise it is the address of the first
      word that differs, which lies inside the programmed range modulo 2^32
      and is never `start + size`. */
  lemma {:induction false} VerifyResult(start: u32, size: u32, bufAddr: u32, buffer: seq<u32>, readback: seq<u32>)
    requires !Misaligned(start, size, bufAddr) && size / 4 <= |buffer| && size / 4 <= |readback|
    ensures var n := size / 4;
      var k := FirstMismatch(buffer, readback, n);
      var result := if k < n then Wrap(start + 4 * k) else Wrap(start + size);
      && (result == Wrap(start + size) <==> buffer[..n] == readback[..n])
      && (k < n ==> buffer[k] != readback[k] && buffer[..k] == readback[..k])
  {
    var n := size / 4;
    var k := FirstMismatch(buffer, readback, n);
    if k < n {
      WrapOffsetsDistinct(start, 4 * k, size);
      assert buffer[..n][k] != readback[..n][k];
    } else {
      assert buffer[..n] == readback[..n];
    }
  }

  /** A mismatch before the last word ends the verify with the read stream
      still open: none of the reads sent carries the final-word flag. A
      mismatch on the last word, or none, closes it. */
  lemma VerifyStreamClosed(size: u32, buffer: seq<u32>, readback: seq<u32>)
    requires 0 < size / 4 <= |buffer| && size / 4 <= |readback|
    ensures var n := size / 4;
      var k := FirstMismatch(buffer, readback, n);
      var s := Reads(readback[..if k < n then k + 1 else n], n);
      && (k < n - 1 <==> forall j | 0 <= j < |s| :: !s[j].last)
      && (k >= n - 1 ==> s[|s| - 1].last)
  {
    var n := size / 4;
    var k := FirstMismatch(buffer, readback, n);
    var m := if k < n then k + 1 else n;
    var s := Reads(readback[..m], n);
    assert s == Reads(readback[..if k < n then k + 1 else n], n);
    assert |s| == m;
    if k >= n - 1 {
      assert m == n;
      assert s[n - 1] == Read(true, readback[..m][n - 1]);
      assert s[|s| - 1].last;
      assert !(forall j | 0 <= j < |s| :: !s[j].last);
      assert !(k < n - 1);
    } else {
      forall j | 0 <= j < |s|
        ensures !s[j].last
      {
        assert s[j] == Read(j == n - 1, readback[..m][j]);
      }
    }
  }

  // ---------------------------------------------------------------- config block

  /** The four config words `ICP_ProgramConfigWithCRC` programs: CONFIG0,
      CONFIG1, an erased word, and the CRC of the first three. */
  function ConfigWords(config0: u32, config1: u32): (w: seq<u32>)
    ensures |w| == 4 && w[0] == config0 && w[1] == config1 && w[2] == AllOnes
    ensures w[3] == CrcWord(w[..3])
  {
    var head := [config0, config1, AllOnes];
    head + [CrcWord(head)]
  }

  /** One program frame and one final data write per config word, the
      frame for word `i` at `FMC_CONFIG_BASE + 4 * i`. */
  function ConfigFrames(c: Codes, words: seq<u32>, delay: u32, hold: u32): seq<Transfer>
    decreases |words|
  {
    if words == [] then []
    else
      var i := |words| - 1;
      ConfigFrames(c, words[..i], delay, hold)
        + [Command(c.program, Wrap(c.configBase + i * 4)), Write(words[i], true, delay, hold)]
  }

  lemma {:induction false} ConfigFramesAt(c: Codes, words: seq<u32>, delay: u32, hold: u32, i: nat)
    requires i < |words|
    ensures |ConfigFrames(c, words, delay, hold)| == 2 * |words|
    ensures ConfigFrames(c, words, delay, hold)[2 * i] == Command(c.program, Wrap(c.configBase + i * 4))
    ensures ConfigFrames(c, words, delay, hold)[2 * i + 1] == Write(words[i], true, delay, hold)
    decreases |words|
  {
    var m := |words| - 1;
    if m == 0 {
    } else if i < m {
      ConfigFramesAt(c, words[..m], delay, hold, i);
      assert words[..m][i] == words[i];
    } else {
      ConfigFramesAt(c, words[..m], delay, hold, 0);
    }
  }

  lemma {:induction false} ConfigFramesNext(c: Codes, words: seq<u32>, i: nat, delay: u32, hold: u32)
    requires i < |words|
    ensures ConfigFrames(c, words[..i + 1], delay, hold)
         == ConfigFrames(c, words[..i], delay, hold)
            + [Command(c.program, Wrap(c.configBase + i * 4)), Write(words[i], true, delay, hold)]
  {
    assert words[..i + 1][..i] == words[..i];
  }

  /** The loop of `ICP_ProgramConfigWithCRC`: one program frame and one final
      write per word. */
  method ProgramEach(c: Codes, words: seq<u32>, delay: u32, hold: u32) returns (script: seq<Transfer>)
    ensures script == ConfigFrames(c, words, delay, hold)
  {
    script := [];
    var i := 0;
    while i < |words|
      invariant 0 <= i <= |words|
      invariant script == ConfigFrames(c, words[..i], delay, hold)
    {
      ConfigFramesNext(c, words, i, delay, hold);
      script := script + [Command(c.program, Wrap(c.configBase + i * 4)), Write(words[i], true, delay, hold)];
      i := i + 1;
    }
    assert words[..i] == words;
  }

  /** `ICP_ProgramConfigWithCRC(config0, config1)`: each of the four config
      words is programmed on its own, word `i` at `FMC_CONFIG_BASE + 4 * i`,
      with the program timing. */
  method ProgramConfigWithCrc(c: Codes, t: Timing, config0: u32, config1: u32) returns (script: seq<Transfer>)
    ensures script == ConfigFrames(c, ConfigWords(config0, config1), t.programDelay, t.programHold)
  {
    var config := [config0, config1, 0xFFFF_FFFF];
    var crc := GetCrcValue(config, 3);
    assert config[..3] == config;
    script := ProgramEach(c, config + [crc], t.programDelay, t.programHold);
  }

  /** The config script programs the config words in order, word `i` as a
      one-word stream at `FMC_CONFIG_BASE + 4 * i`, with the program
      timing. */
  lemma ConfigScript(c: Codes, t: Timing, config0: u32, config1: u32, i: nat)
    requires i < 4
    ensures var s := ConfigFrames(c, ConfigWords(config0, config1), t.programDelay, t.programHold);
      && |s| == 8
      && s[2 * i] == Command(c.program, Wrap(c.configBase + i * 4))
      && s[2 * i + 1] == Write(ConfigWords(config0, config1)[i], true, t.programDelay, t.programHold)
  {
    ConfigFramesAt(c, ConfigWords(config0, config1), t.programDelay, t.programHold, i);
  }

  /** Byte `k` of the fourth config word is CRC-8 folded over byte `k` of the
      first three words, seeded with 0xFF. */
  lemma ConfigCrcLanes(config0: u32, config1: u32, k: nat)
    requires k < 4
    ensures LaneByte(ConfigWords(config0, config1)[3], k) == ToByte(LaneCrc([config0, config1, AllOnes], k))
  {
    CrcWordLane([config0, config1, AllOnes], k);
  }

  /** Changing one byte of CONFIG0 or CONFIG1 changes the same byte of the
      CRC word and no other. */
  lemma ConfigCrcDetects(config0: u32, config1: u32, other: u32, j: nat, k: nat)
    requires j < 2 && k < 4
    requires LaneByte(other, k) != LaneByte(if j == 0 then config0 else config1, k)
    requires forall m | 0 <= m < 4 && m != k :: LaneByte(other, m) == LaneByte(if j == 0 then config0 else config1, m)
    ensures var a := ConfigWords(config0, config1)[3];
      var b := if j == 0 then ConfigWords(other, config1)[3] else ConfigWords(config0, other)[3];
      && LaneByte(a, k) != LaneByte(b, k)
      && forall m | 0 <= m < 4 && m != k :: LaneByte(a, m) == LaneByte(b, m)
  {
    var a := [config0, config1, AllOnes];
    var b := if j == 0 then [other, config1, AllOnes] else [config0, other, AllOnes];
    SingleByteChangeWord(a, b, j, k);
  }
}
