/** Pin bookkeeping of the programmer: the 2-bit mode fields of the GPIO
    MODE registers, the polarity of the RESET line, and the snapshot that
    `ICP_Init` takes of the five managed pins and `ICP_UnInit` puts back.

    A 32-bit register word is modelled as the set of positions of its 1
    bits (`Word`), so the source's `w & ~m` is `w - m`, `a | b` is `a + b`
    and `w & m` is `w * m`. The multi-function-pin masks, their GPIO
    selectors and the output mode come from board headers and are
    parameters (`Board`). */
module Pins {
  import opened Arith
  import opened Wire
  import opened Transport

  /** A 32-bit register word: the positions of its 1 bits. */
  type Word = s: set<nat> | forall i | i in s :: i < 32

  /** Bit `i` of `x << s`. */
  predicate ShiftedBit(x: nat, s: nat, i: nat)
  {
    s <= i && Bit(x, i - s)
  }

  /** `x << s` as a 32-bit word: bits shifted past position 31 are lost. */
  function Shifted(x: nat, s: nat): Word
  {
    set i | 0 <= i < 32 && ShiftedBit(x, s, i)
  }

  /** `0x3 << (pin << 1)`: the two bits of the mode field of `pin`. */
  function ModeMask(pin: nat): Word
    requires pin < 16
  {
    {2 * pin, 2 * pin + 1}
  }

  /** `(MODE >> (pin << 1)) & 0x03`: the mode field of `pin`. */
  function ModeField(w: Word, pin: nat): nat
    requires pin < 16
  {
    (if 2 * pin in w then 1 else 0) + (if 2 * pin + 1 in w then 2 else 0)
  }

  /** `ICP_SetGPIOMode(port, pin, mode)` on the value of `port->MODE`. A
      mode of at most 3 lands in the pin's two-bit field, and every other
      bit, so every other pin's field, keeps its value. The mode is not
      masked: a mode above 3 spills into the fields above. */
  function SetGpioMode(w: Word, pin: nat, mode: nat): (r: Word)
    requires pin < 16
    ensures mode < 4 ==> ModeField(r, pin) == mode
    ensures mode < 4 ==> r - ModeMask(pin) == w - ModeMask(pin)
    ensures mode < 4 ==> forall other | other < 16 && other != pin :: ModeField(r, other) == ModeField(w, other)
  {
    ModeFits(mode, pin);
    (w - ModeMask(pin)) + Shifted(mode, 2 * pin)
  }

  lemma LowBits(x: nat)
    ensures Bit(x, 0) <==> x % 2 == 1
    ensures Bit(x, 1) <==> (x / 2) % 2 == 1
  {
    assert Pow2(1) == 2;
  }

  lemma {:induction false} Pow2AtLeast4(k: nat)
    requires k >= 2
    ensures Pow2(k) >= 4
    decreases k
  {
    if k > 2 {
      Pow2AtLeast4(k - 1);
    } else {
      assert Pow2(1) == 2;
    }
  }

  /** A 2-bit value has no bit above bit 1. */
  lemma HighBitsClear(x: nat, k: nat)
    requires x < 4 && k >= 2
    ensures !Bit(x, k)
  {
    Pow2AtLeast4(k);
    DivModUnique(x, Pow2(k), 0, x);
  }

  /** A 2-bit mode shifted to a field occupies exactly that field's bits
      that are 1 in the mode. */
  lemma {:induction false} ShiftedMode(mode: nat, pin: nat)
    requires pin < 16 && mode < 4
    ensures Shifted(mode, 2 * pin) <= ModeMask(pin)
    ensures 2 * pin in Shifted(mode, 2 * pin) <==> mode % 2 == 1
    ensures 2 * pin + 1 in Shifted(mode, 2 * pin) <==> (mode / 2) % 2 == 1
  {
    LowBits(mode);
    forall i | i in Shifted(mode, 2 * pin)
      ensures i in ModeMask(pin)
    {
      if i >= 2 * pin + 2 {
        HighBitsClear(mode, i - 2 * pin);
      }
    }
  }

  lemma ModeFits(mode: nat, pin: nat)
    requires pin < 16
    ensures mode < 4 ==> Shifted(mode, 2 * pin) <= ModeMask(pin)
    ensures mode < 4 ==> (2 * pin in Shifted(mode, 2 * pin) <==> mode % 2 == 1)
    ensures mode < 4 ==> (2 * pin + 1 in Shifted(mode, 2 * pin) <==> (mode / 2) % 2 == 1)
  {
    if mode < 4 {
      ShiftedMode(mode, pin);
    }
  }

  /** Writing the mode field of `p` into `q` copies that field's bits. */
  lemma {:induction false} SetGpioModeCopies(p: Word, q: Word, pin: nat)
    requires pin < 16
    ensures SetGpioMode(q, pin, ModeField(p, pin)) == (q - ModeMask(pin)) + p * ModeMask(pin)
  {
    ShiftedMode(ModeField(p, pin), pin);
  }

  /** Writing back the mode a pin already has changes nothing. */
  lemma {:induction false} SetGpioModeSame(w: Word, pin: nat)
    requires pin < 16
    ensures SetGpioMode(w, pin, ModeField(w, pin)) == w
  {
    ShiftedMode(ModeField(w, pin), pin);
  }

  /** Because the mode is not masked, mode 4 on a pin below 15 sets the low
      bit of the next pin's field. */
  lemma {:induction false} SetGpioModeSpills(w: Word, pin: nat)
    requires pin < 15
    ensures 2 * (pin + 1) in SetGpioMode(w, pin, 4)
  {
    assert Pow2(2) == 4 by {
      assert Pow2(1) == 2;
    }
    assert ShiftedBit(4, 2 * pin, 2 * (pin + 1));
  }

  /** `ICP_RESET_ACTIVE_LOW`: the active level 0 means RESET is asserted low. */
  const ResetActiveLow: u32 := 0

  /** The level `ICP_SetReset(active)` drives on RESET, true for 1:
      `(g_u32ResetActiveLevel ^ bActive) ? 0 : 1`, where the exclusive or is
      zero exactly when the two operands are equal. */
  function ResetLevel(activeLevel: u32, active: bool): bool
  {
    activeLevel == (if active then 1 else 0)
  }

  /** `ICP_SetReset(active)`: one write of RESET. The read-back wait that
      follows it is not modelled. */
  function SetReset(activeLevel: u32, active: bool): (t: seq<Event>)
    ensures |t| == 1 && t[0].ResetOut?
    ensures activeLevel == 0 || activeLevel == 1 ==>
      (t[0].level <==> (if active then activeLevel == 1 else activeLevel == 0))
  {
    [ResetOut(ResetLevel(activeLevel, active))]
  }

  /** The level `ICP_Init` gives RESET: high exactly for an active-low reset. */
  function InitResetLevel(activeLevel: u32): bool
  {
    activeLevel == ResetActiveLow
  }

  /** For the two levels the library documents, asserting and releasing
      RESET drive opposite levels, and asserting drives the active level.
      Any other configured level drives RESET low both ways. */
  lemma {:induction false} ResetPolarity(activeLevel: u32)
    ensures ResetLevel(activeLevel, true) != ResetLevel(activeLevel, false)
            <==> activeLevel == 0 || activeLevel == 1
    ensures activeLevel == 1 ==> ResetLevel(activeLevel, true) && !ResetLevel(activeLevel, false)
    ensures activeLevel == 0 ==> !ResetLevel(activeLevel, true) && ResetLevel(activeLevel, false)
    ensures activeLevel > 1 ==> !ResetLevel(activeLevel, true) && !ResetLevel(activeLevel, false)
  {
  }

  /** `ICP_Init` leaves RESET released: the level it drives is the one
      `ICP_SetReset(false)` drives, whatever level is configured. */
  lemma {:induction false} InitReleasesReset(activeLevel: u32)
    ensures InitResetLevel(activeLevel) == ResetLevel(activeLevel, false)
  {
  }

  /** Output levels of the five managed pins. */
  datatype Levels = Levels(rst: bool, clk: bool, dat: bool, lv0: bool, lv1: bool)

  /** The register words the library reads and writes: the MODE words of
      port F (RESET on PF5) and port A (CLOCK on PA10, DATA on PA9, the level
      pins on PA6 and PA7), the three multi-function-pin words, and the pin
      levels. */
  datatype Registers = Registers(
    pfMode: Word, paMode: Word,
    gpfMfpl: Word, gpaMfph: Word, gpaMfpl: Word,
    levels: Levels)

  const RstPin: nat := 5
  const ClkPin: nat := 10
  const DatPin: nat := 9
  const Lv0Pin: nat := 6
  const Lv1Pin: nat := 7

  /** Header constants of the board: the multi-function-pin field of each
      managed pin, the selector that makes it a GPIO, and `GPIO_MODE_OUTPUT`. */
  datatype Board = Board(
    rstMask: Word, clkMask: Word, datMask: Word, lv0Mask: Word, lv1Mask: Word,
    rstGpio: Word, clkGpio: Word, datGpio: Word, lv0Gpio: Word, lv1Gpio: Word,
    outputMode: nat)

  /** The multi-function fields of CLOCK and DATA in `GPA_MFPH`. */
  function HighMask(b: Board): Word
  {
    b.datMask + b.clkMask
  }

  /** The multi-function fields of the two level pins in `GPA_MFPL`. */
  function LowMask(b: Board): Word
  {
    b.lv0Mask + b.lv1Mask
  }

  /** The GPIO selectors lie inside the fields they are written to, and the
      output mode fits a mode field. */
  predicate WellFormed(b: Board)
  {
    && b.rstGpio <= b.rstMask
    && b.datGpio + b.clkGpio <= HighMask(b)
    && b.lv0Gpio + b.lv1Gpio <= LowMask(b)
    && b.outputMode < 4
  }

  /** Bits of the port A MODE word that belong to managed pins. */
  function PaModeMask(): Word
  {
    ModeMask(ClkPin) + ModeMask(DatPin) + ModeMask(Lv0Pin) + ModeMask(Lv1Pin)
  }

  /** `q` differs from `p` at most in what the library manages: the mode
      fields and multi-function fields of the five pins, and their levels. */
  predicate AgreeOutside(b: Board, p: Registers, q: Registers)
  {
    && q.pfMode - ModeMask(RstPin) == p.pfMode - ModeMask(RstPin)
    && q.paMode - PaModeMask() == p.paMode - PaModeMask()
    && q.gpfMfpl - b.rstMask == p.gpfMfpl - b.rstMask
    && q.gpaMfph - HighMask(b) == p.gpaMfph - HighMask(b)
    && q.gpaMfpl - LowMask(b) == p.gpaMfpl - LowMask(b)
  }

  /** What `ICP_Init` saves of each managed pin: mode, level and
      multi-function selector. */
  datatype Snapshot = Snapshot(
    rstMode: nat, clkMode: nat, datMode: nat, lv0Mode: nat, lv1Mode: nat,
    levels: Levels,
    rstMfp: Word, clkMfp: Word, datMfp: Word, lv0Mfp: Word, lv1Mfp: Word)

  /** The state `ICP_Init` leaves: the configured active level, the snapshot
      and the reconfigured registers. */
  datatype Setup = Setup(activeLevel: u32, saved: Snapshot, regs: Registers)

  function Capture(b: Board, p: Registers): Snapshot
  {
    Snapshot(
      ModeField(p.pfMode, RstPin), ModeField(p.paMode, ClkPin), ModeField(p.paMode, DatPin),
      ModeField(p.paMode, Lv0Pin), ModeField(p.paMode, Lv1Pin),
      p.levels,
      p.gpfMfpl * b.rstMask, p.gpaMfph * b.clkMask, p.gpaMfph * b.datMask,
      p.gpaMfpl * b.lv0Mask, p.gpaMfpl * b.lv1Mask)
  }

  /** A multi-function-pin word with field `mask` replaced by `v`. */
  function ReplaceField(w: Word, mask: Word, v: Word): Word
  {
    (w - mask) + v
  }

  /** Replacing a field by a value inside it keeps the other bits and puts
      the value in the field. */
  lemma ReplaceFieldFacts(w: Word, mask: Word, v: Word)
    requires v <= mask
    ensures ReplaceField(w, mask, v) - mask == w - mask
    ensures ReplaceField(w, mask, v) * mask == v
  {
  }

  /** Putting back the saved contents of field `m` restores a word that
      agrees with the original outside the field. */
  lemma ReplaceFieldRestore(p: Word, q: Word, m: Word)
    requires q - m == p - m
    ensures ReplaceField(q, m, p * m) == p
  {
  }

  /** The same for a field made of two fields saved separately. */
  lemma ReplaceFieldRestoreHalves(p: Word, q: Word, ma: Word, mb: Word)
    requires q - (mb + ma) == p - (mb + ma)
    ensures ReplaceField(q, mb + ma, p * ma + p * mb) == p
  {
  }

  /** The port A MODE word with the four managed pins set. */
  function PaModes(w: Word, clk: nat, dat: nat, lv0: nat, lv1: nat): Word
  {
    SetGpioMode(SetGpioMode(SetGpioMode(SetGpioMode(w, ClkPin, clk), DatPin, dat), Lv0Pin, lv0), Lv1Pin, lv1)
  }

  /** Setting all four port A pins to `m` puts `m` in each of their fields
      and leaves the other bits alone. */
  lemma {:induction false} PaModesSet(w: Word, m: nat)
    requires m < 4
    ensures var r := PaModes(w, m, m, m, m);
      && ModeField(r, ClkPin) == m && ModeField(r, DatPin) == m
      && ModeField(r, Lv0Pin) == m && ModeField(r, Lv1Pin) == m
      && r - PaModeMask() == w - PaModeMask()
  {
    var w1 := SetGpioMode(w, ClkPin, m);
    var w2 := SetGpioMode(w1, DatPin, m);
    var w3 := SetGpioMode(w2, Lv0Pin, m);
  }

  /** Writing the saved mode fields of `p` into a word that agrees with `p`
      outside them gives back `p`. */
  lemma {:induction false} PaModesRestore(p: Word, q: Word)
    requires q - PaModeMask() == p - PaModeMask()
    ensures PaModes(q, ModeField(p, ClkPin), ModeField(p, DatPin), ModeField(p, Lv0Pin), ModeField(p, Lv1Pin)) == p
  {
    var m1, m2, m3, m4 := ModeMask(ClkPin), ModeMask(DatPin), ModeMask(Lv0Pin), ModeMask(Lv1Pin);
    var w1 := SetGpioMode(q, ClkPin, ModeField(p, ClkPin));
    var w2 := SetGpioMode(w1, DatPin, ModeField(p, DatPin));
    var w3 := SetGpioMode(w2, Lv0Pin, ModeField(p, Lv0Pin));
    var w4 := SetGpioMode(w3, Lv1Pin, ModeField(p, Lv1Pin));
    SetGpioModeCopies(p, q, ClkPin);
    SetGpioModeCopies(p, w1, DatPin);
    SetGpioModeCopies(p, w2, Lv0Pin);
    SetGpioModeCopies(p, w3, Lv1Pin);
    assert w2 == (q - (m1 + m2)) + p * (m1 + m2);
    assert w3 == (q - (m1 + m2 + m3)) + p * (m1 + m2 + m3);
    assert w4 == (q - PaModeMask()) + p * PaModeMask();
  }

  /** `ICP_Init(activeLevel)`: save the five pins, make them GPIOs, drive
      RESET released, CLOCK and DATA low, LV0 high and LV1 low, and make all
      five outputs. */
  function Init(b: Board, activeLevel: u32, p: Registers): (s: Setup)
    ensures s.activeLevel == activeLevel && s.saved.levels == p.levels
    ensures s.regs.levels.rst == ResetLevel(activeLevel, false)
    ensures !s.regs.levels.clk && !s.regs.levels.dat && s.regs.levels.lv0 && !s.regs.levels.lv1
  {
    InitReleasesReset(activeLevel);
    var levels := Levels(InitResetLevel(activeLevel), false, false, true, false);
    var regs := Registers(
      SetGpioMode(p.pfMode, RstPin, b.outputMode),
      PaModes(p.paMode, b.outputMode, b.outputMode, b.outputMode, b.outputMode),
      ReplaceField(p.gpfMfpl, b.rstMask, b.rstGpio),
      ReplaceField(p.gpaMfph, HighMask(b), b.datGpio + b.clkGpio),
      ReplaceField(p.gpaMfpl, LowMask(b), b.lv0Gpio + b.lv1Gpio),
      levels);
    Setup(activeLevel, Capture(b, p), regs)
  }

  /** `ICP_Init` touches no bit of the registers outside the five managed
      pins' fields, makes the five pins outputs and selects their GPIO
      function. */
  lemma {:induction false} InitConfigures(b: Board, activeLevel: u32, p: Registers)
    requires WellFormed(b)
    ensures AgreeOutside(b, p, Init(b, activeLevel, p).regs)
    ensures var r := Init(b, activeLevel, p).regs;
      && ModeField(r.pfMode, RstPin) == b.outputMode
      && ModeField(r.paMode, ClkPin) == b.outputMode && ModeField(r.paMode, DatPin) == b.outputMode
      && ModeField(r.paMode, Lv0Pin) == b.outputMode && ModeField(r.paMode, Lv1Pin) == b.outputMode
      && r.gpfMfpl * b.rstMask == b.rstGpio
      && r.gpaMfph * HighMask(b) == b.datGpio + b.clkGpio
      && r.gpaMfpl * LowMask(b) == b.lv0Gpio + b.lv1Gpio
  {
    PaModesSet(p.paMode, b.outputMode);
    ReplaceFieldFacts(p.gpfMfpl, b.rstMask, b.rstGpio);
    ReplaceFieldFacts(p.gpaMfph, HighMask(b), b.datGpio + b.clkGpio);
    ReplaceFieldFacts(p.gpaMfpl, LowMask(b), b.lv0Gpio + b.lv1Gpio);
  }

  /** `ICP_UnInit()`: put back the saved mode, level and multi-function
      selector of each managed pin into the current registers `q`. */
  function UnInit(b: Board, saved: Snapshot, q: Registers): (r: Registers)
    ensures r.levels == saved.levels
  {
    Registers(
      SetGpioMode(q.pfMode, RstPin, saved.rstMode),
      PaModes(q.paMode, saved.clkMode, saved.datMode, saved.lv0Mode, saved.lv1Mode),
      ReplaceField(q.gpfMfpl, b.rstMask, saved.rstMfp),
      ReplaceField(q.gpaMfph, HighMask(b), saved.clkMfp + saved.datMfp),
      ReplaceField(q.gpaMfpl, LowMask(b), saved.lv0Mfp + saved.lv1Mfp),
      saved.levels)
  }

  /** Whatever happens to the managed pins between `ICP_Init` and
      `ICP_UnInit`, the registers end up exactly as they were before
      `ICP_Init`, provided nothing else touched them. */
  lemma {:induction false} UnInitRestores(b: Board, activeLevel: u32, p: Registers, q: Registers)
    requires AgreeOutside(b, p, q)
    ensures UnInit(b, Init(b, activeLevel, p).saved, q) == p
  {
    var r := UnInit(b, Init(b, activeLevel, p).saved, q);
    SetGpioModeCopies(p.pfMode, q.pfMode, RstPin);
    PaModesRestore(p.paMode, q.paMode);
    ReplaceFieldRestore(p.gpfMfpl, q.gpfMfpl, b.rstMask);
    ReplaceFieldRestoreHalves(p.gpaMfph, q.gpaMfph, b.clkMask, b.datMask);
    ReplaceFieldRestoreHalves(p.gpaMfpl, q.gpaMfpl, b.lv1Mask, b.lv0Mask);
    assert r.pfMode == p.pfMode && r.paMode == p.paMode;
    assert r.gpfMfpl == p.gpfMfpl;
    assert r.gpaMfph == p.gpaMfph;
    assert r.gpaMfpl == p.gpaMfpl;
  }

  /** In particular `ICP_UnInit` right after `ICP_Init` undoes it. */
  lemma {:induction false} InitUnInit(b: Board, activeLevel: u32, p: Registers)
    requires WellFormed(b)
    ensures var s := Init(b, activeLevel, p); UnInit(b, s.saved, s.regs) == p
  {
    InitConfigures(b, activeLevel, p);
    UnInitRestores(b, activeLevel, p, Init(b, activeLevel, p).regs);
  }
}
