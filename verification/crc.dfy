/** The integrity engine: the nibble-table CRC-8 (`CRC8`) and the four-lane
    word checksum built on it (`GetCRCValue`). */
module Crc {
  import opened Arith
  import opened Lanes

  /** The 16-entry table of `CRC8`. */
  const CrcTable: seq<bv8> := [
    0x00, 0x07, 0x0E, 0x09,
    0x1C, 0x1B, 0x12, 0x15,
    0x38, 0x3F, 0x36, 0x31,
    0x24, 0x23, 0x2A, 0x2D]

  /** `u8CRC_Table[i]`. */
  function Lookup(i: bv8): bv8
    requires i < 16
  {
    CrcTable[i as int]
  }

  /** First statement of `CRC8`: the register advances by the high nibble of
      `crc ^ data`. The shift is truncated to eight bits by the assignment
      back to a `uint8_t`. */
  function HighNibble(data: bv8, crc: bv8): bv8
  {
    (crc << 4) ^ Lookup((crc ^ data) >> 4)
  }

  /** Second statement of `CRC8`: the register advances by the low nibble. */
  function LowNibble(data: bv8, c: bv8): bv8
  {
    (c << 4) ^ Lookup(((c >> 4) ^ data) & 0x0F)
  }

  /** `CRC8(data, crc)`: one table lookup per nibble. The result is the
      bit-at-a-time CRC-8 with polynomial 0x07, for every data byte and
      every register value. */
  function Crc8(data: bv8, crc: bv8): (r: bv8)
    ensures r == BitwiseCrc8(data, crc)
  {
    NibbleSteps(data, crc);
    LowNibble(data, HighNibble(data, crc))
  }

  /** Generator polynomial x^8 + x^2 + x + 1 without its leading term. */
  const Poly: bv8 := 0x07

  /** One MSB-first step of the CRC register: shift left, and fold the
      polynomial back in when a one falls out. */
  function CrcStep(c: bv8): bv8
  {
    if c & 0x80 != 0 then (c << 1) ^ Poly else c << 1
  }

  function CrcStep4(c: bv8): bv8
  {
    CrcStep(CrcStep(CrcStep(CrcStep(c))))
  }

  function CrcStep8(c: bv8): bv8
  {
    CrcStep4(CrcStep4(c))
  }

  /** The textbook bit-at-a-time CRC-8 of one data byte. */
  function BitwiseCrc8(data: bv8, crc: bv8): bv8
  {
    CrcStep8(crc ^ data)
  }

  /** Entry `i` of the table is the register after four steps from `i << 4`,
      that is the product of `i` and the polynomial over GF(2). */
  lemma TableEntries(i: bv8)
    requires i < 16
    ensures Lookup(i) == CrcStep4(i << 4)
  {
    if i == 0 {} else if i == 1 {} else if i == 2 {} else if i == 3 {}
    else if i == 4 {} else if i == 5 {} else if i == 6 {} else if i == 7 {}
    else if i == 8 {} else if i == 9 {} else if i == 10 {} else if i == 11 {}
    else if i == 12 {} else if i == 13 {} else if i == 14 {} else {}
  }

  /** Four steps move the low nibble up untouched; only the high nibble
      feeds the polynomial back. */
  lemma Step4Split(c: bv8)
    ensures CrcStep4(c) == (c << 4) ^ CrcStep4((c >> 4) << 4)
  {
  }

  lemma Step4ViaTable(x: bv8)
    ensures CrcStep4(x) == (x << 4) ^ Lookup(x >> 4)
  {
    TableEntries(x >> 4);
    Step4Split(x);
  }

  lemma HighNibbleStep(crc: bv8, data: bv8, fx: bv8, p: bv8)
    requires fx == ((crc ^ data) << 4) ^ p
    ensures (crc << 4) ^ p == fx ^ (data << 4)
  {
  }

  lemma LowNibbleIndex(y: bv8, data: bv8)
    ensures (((y ^ (data << 4)) >> 4) ^ data) & 0x0F == y >> 4
    ensures (y ^ (data << 4)) << 4 == y << 4
  {
  }

  lemma Crc8Algebra(data: bv8, crc: bv8, t1: bv8, y: bv8, t2: bv8)
    requires t1 == Lookup((crc ^ data) >> 4) && y == ((crc ^ data) << 4) ^ t1
    requires t2 == Lookup(y >> 4)
    ensures LowNibble(data, HighNibble(data, crc)) == (y << 4) ^ t2
  {
    HighNibbleStep(crc, data, y, t1);
    LowNibbleIndex(y, data);
  }

  /** The two table steps of `CRC8` are the eight shift-and-xor steps of the
      register started at `crc ^ data`. */
  lemma NibbleSteps(data: bv8, crc: bv8)
    ensures LowNibble(data, HighNibble(data, crc)) == BitwiseCrc8(data, crc)
  {
    var x := crc ^ data;
    Step4ViaTable(x);
    Step4ViaTable(CrcStep4(x));
    Crc8Algebra(data, crc, Lookup(x >> 4), CrcStep4(x), Lookup(CrcStep4(x) >> 4));
  }

  lemma StepInjective(a: bv8, b: bv8)
    ensures CrcStep(a) == CrcStep(b) ==> a == b
  {
  }

  lemma Step8Injective(a: bv8, b: bv8)
    ensures CrcStep8(a) == CrcStep8(b) ==> a == b
  {
    StepInjective(a, b);
    StepInjective(CrcStep(a), CrcStep(b));
    StepInjective(CrcStep(CrcStep(a)), CrcStep(CrcStep(b)));
    StepInjective(CrcStep(CrcStep(CrcStep(a))), CrcStep(CrcStep(CrcStep(b))));
    StepInjective(CrcStep4(a), CrcStep4(b));
    StepInjective(CrcStep(CrcStep4(a)), CrcStep(CrcStep4(b)));
    StepInjective(CrcStep(CrcStep(CrcStep4(a))), CrcStep(CrcStep(CrcStep4(b))));
    StepInjective(CrcStep(CrcStep(CrcStep(CrcStep4(a)))), CrcStep(CrcStep(CrcStep(CrcStep4(b)))));
  }

  /** One CRC-8 step loses nothing: with the register fixed, distinct data
      bytes give distinct results, and with the data byte fixed, distinct
      registers give distinct results. */
  lemma Crc8Injective(d1: bv8, d2: bv8, c1: bv8, c2: bv8)
    ensures Crc8(d1, c1) == Crc8(d2, c1) ==> d1 == d2
    ensures Crc8(d1, c1) == Crc8(d1, c2) ==> c1 == c2
  {
    Step8Injective(c1 ^ d1, c1 ^ d2);
    Step8Injective(c1 ^ d1, c2 ^ d1);
  }

  /** The register of lane `k` after `GetCRCValue` has folded byte `k` of
      each word in turn into it, starting from 0xFF. */
  function LaneCrc(words: seq<u32>, k: nat): bv8
    requires k < 4
    decreases |words|
  {
    if |words| == 0 then 0xFF
    else Crc8(ToBv8(LaneByte(words[|words| - 1], k)), LaneCrc(words[..|words| - 1], k))
  }

  /** The checksum word made of four lane registers, lane 0 in the low byte. */
  function RegistersWord(c0: bv8, c1: bv8, c2: bv8, c3: bv8): (r: u32)
    ensures LanesAre(r, ToByte(c0), ToByte(c1), ToByte(c2), ToByte(c3))
  {
    PackLanes(ToByte(c0), ToByte(c1), ToByte(c2), ToByte(c3))
  }

  /** The checksum word of a buffer: byte `k` holds the register of lane `k`. */
  function CrcWord(words: seq<u32>): (r: u32)
    ensures LanesAre(r, ToByte(LaneCrc(words, 0)), ToByte(LaneCrc(words, 1)),
                        ToByte(LaneCrc(words, 2)), ToByte(LaneCrc(words, 3)))
  {
    var c0, c1, c2, c3 := LaneCrc(words, 0), LaneCrc(words, 1), LaneCrc(words, 2), LaneCrc(words, 3);
    RegistersWord(c0, c1, c2, c3)
  }

  /** `GetCRCValue(buffer, count)`, with its four lane registers and loop. */
  method GetCrcValue(buffer: seq<u32>, count: u32) returns (r: u32)
    requires count <= |buffer|
    ensures r == CrcWord(buffer[..count])
  {
    var c0, c1, c2, c3: bv8 := 0xFF, 0xFF, 0xFF, 0xFF;
    var i := 0;
    while i < count
      invariant i <= count
      invariant c0 == LaneCrc(buffer[..i], 0) && c1 == LaneCrc(buffer[..i], 1)
      invariant c2 == LaneCrc(buffer[..i], 2) && c3 == LaneCrc(buffer[..i], 3)
    {
      assert buffer[..i + 1][..i] == buffer[..i];
      c0 := Crc8(ToBv8(LaneByte(buffer[i], 0)), c0);
      c1 := Crc8(ToBv8(LaneByte(buffer[i], 1)), c1);
      c2 := Crc8(ToBv8(LaneByte(buffer[i], 2)), c2);
      c3 := Crc8(ToBv8(LaneByte(buffer[i], 3)), c3);
      i := i + 1;
    }
    r := RegistersWord(c0, c1, c2, c3);
  }

  /** Lane `k` of the checksum depends on byte `k` of each word and on
      nothing else. */
  lemma {:induction false} LaneCrcDependsOnLane(a: seq<u32>, b: seq<u32>, k: nat)
    requires k < 4 && |a| == |b|
    requires forall i :: 0 <= i < |a| ==> LaneByte(a[i], k) == LaneByte(b[i], k)
    ensures LaneCrc(a, k) == LaneCrc(b, k)
    decreases |a|
  {
    if |a| > 0 {
      LaneCrcDependsOnLane(a[..|a| - 1], b[..|b| - 1], k);
    }
  }

  /** Changing byte `k` of one word changes lane `k` of the checksum. */
  lemma {:induction false} LaneCrcDetectsByte(a: seq<u32>, b: seq<u32>, j: nat, k: nat)
    requires k < 4 && |a| == |b| && j < |a|
    requires forall i :: 0 <= i < |a| && i != j ==> LaneByte(a[i], k) == LaneByte(b[i], k)
    requires LaneByte(a[j], k) != LaneByte(b[j], k)
    ensures LaneCrc(a, k) != LaneCrc(b, k)
    decreases |a|
  {
    var n := |a| - 1;
    var da, db := ToBv8(LaneByte(a[n], k)), ToBv8(LaneByte(b[n], k));
    if j == n {
      LaneCrcDependsOnLane(a[..n], b[..n], k);
      Crc8Injective(da, db, LaneCrc(a[..n], k), LaneCrc(a[..n], k));
    } else {
      LaneCrcDetectsByte(a[..n], b[..n], j, k);
      Crc8Injective(da, da, LaneCrc(a[..n], k), LaneCrc(b[..n], k));
    }
  }

  lemma RegistersWordLane(c0: bv8, c1: bv8, c2: bv8, c3: bv8, k: nat, c: bv8)
    requires k < 4 && (k == 0 ==> c == c0) && (k == 1 ==> c == c1)
    requires (k == 2 ==> c == c2) && (k == 3 ==> c == c3)
    ensures LaneByte(RegistersWord(c0, c1, c2, c3), k) == ToByte(c)
  {
  }

  /** Byte `k` of the checksum word is the register of lane `k`. */
  lemma CrcWordLane(words: seq<u32>, k: nat)
    requires k < 4
    ensures LaneByte(CrcWord(words), k) == ToByte(LaneCrc(words, k))
  {
    var c0, c1, c2, c3 := LaneCrc(words, 0), LaneCrc(words, 1), LaneCrc(words, 2), LaneCrc(words, 3);
    assert CrcWord(words) == RegistersWord(c0, c1, c2, c3);
    var c := LaneCrc(words, k);
    assert (k == 0 ==> c == c0) && (k == 1 ==> c == c1) && (k == 2 ==> c == c2) && (k == 3 ==> c == c3);
    RegistersWordLane(c0, c1, c2, c3, k, c);
  }

  /** Corrupting one byte of the buffer changes exactly the matching lane
      register: byte `k` of word `j` shows up in lane `k`, and the other
      three lanes stay as they were. */
  lemma SingleByteChange(a: seq<u32>, b: seq<u32>, j: nat, k: nat)
    requires k < 4 && |a| == |b| && j < |a|
    requires forall i :: 0 <= i < |a| && i != j ==> a[i] == b[i]
    requires LaneByte(a[j], k) != LaneByte(b[j], k)
    requires forall m :: 0 <= m < 4 && m != k ==> LaneByte(a[j], m) == LaneByte(b[j], m)
    ensures LaneCrc(a, k) != LaneCrc(b, k)
    ensures forall m :: 0 <= m < 4 && m != k ==> LaneCrc(a, m) == LaneCrc(b, m)
  {
    LaneCrcDetectsByte(a, b, j, k);
    forall m | 0 <= m < 4 && m != k
      ensures LaneCrc(a, m) == LaneCrc(b, m)
    {
      LaneCrcDependsOnLane(a, b, m);
    }
  }

  /** The same, read off the checksum word: byte `k` of the word changes and
      its other bytes do not. */
  lemma SingleByteChangeWord(a: seq<u32>, b: seq<u32>, j: nat, k: nat)
    requires k < 4 && |a| == |b| && j < |a|
    requires forall i :: 0 <= i < |a| && i != j ==> a[i] == b[i]
    requires LaneByte(a[j], k) != LaneByte(b[j], k)
    requires forall m :: 0 <= m < 4 && m != k ==> LaneByte(a[j], m) == LaneByte(b[j], m)
    ensures LaneByte(CrcWord(a), k) != LaneByte(CrcWord(b), k)
    ensures forall m :: 0 <= m < 4 && m != k ==> LaneByte(CrcWord(a), m) == LaneByte(CrcWord(b), m)
  {
    SingleByteChange(a, b, j, k);
    CrcWordLane(a, k);
    CrcWordLane(b, k);
    ToByteInjective(LaneCrc(a, k), LaneCrc(b, k));
    forall m | 0 <= m < 4 && m != k
      ensures LaneByte(CrcWord(a), m) == LaneByte(CrcWord(b), m)
    {
      CrcWordLane(a, m);
      CrcWordLane(b, m);
    }
  }
}
