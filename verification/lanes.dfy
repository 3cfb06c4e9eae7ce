/** The four bytes of a 32-bit word in memory order on the little-endian
    target, the word they make up, and the passage of a byte between the
    integer and the eight-bit-vector worlds. */
module Lanes {
  import opened Arith

  /** Byte `k` of a word: what `((uint8_t *)buffer)[4 * i + k]` reads from
      `buffer[i]` on a little-endian target. */
  function LaneByte(w: u32, k: nat): byte
    requires k < 4
  {
    if k == 0 then w % 0x100
    else if k == 1 then (w / 0x100) % 0x100
    else if k == 2 then (w / 0x1_0000) % 0x100
    else w / 0x100_0000
  }

  lemma UnpackLanes(l0: byte, l1: byte, l2: byte, l3: byte)
    ensures var r := l3 * 0x100_0000 + l2 * 0x1_0000 + l1 * 0x100 + l0;
      && 0 <= r < WordModulus
      && LaneByte(r, 0) == l0 && LaneByte(r, 1) == l1
      && LaneByte(r, 2) == l2 && LaneByte(r, 3) == l3
  {
    var r := l3 * 0x100_0000 + l2 * 0x1_0000 + l1 * 0x100 + l0;
    DivModUnique(r, 0x100, l3 * 0x1_0000 + l2 * 0x100 + l1, l0);
    DivModUnique(r / 0x100, 0x100, l3 * 0x100 + l2, l1);
    DivModUnique(r, 0x1_0000, l3 * 0x100 + l2, l1 * 0x100 + l0);
    DivModUnique(r / 0x1_0000, 0x100, l3, l2);
    DivModUnique(r, 0x100_0000, l3, l2 * 0x1_0000 + l1 * 0x100 + l0);
    DivModUnique(l3, 0x100, 0, l3);
  }

  /** The bytes of `w` in memory order are `l0`, `l1`, `l2`, `l3`. */
  predicate LanesAre(w: u32, l0: byte, l1: byte, l2: byte, l3: byte)
  {
    LaneByte(w, 0) == l0 && LaneByte(w, 1) == l1 && LaneByte(w, 2) == l2 && LaneByte(w, 3) == l3
  }

  /** Four bytes packed into a word, lane 3 in the high byte. The fields are
      disjoint, so the `|` of the source is an addition. */
  function PackLanes(l0: byte, l1: byte, l2: byte, l3: byte): (r: u32)
    ensures LanesAre(r, l0, l1, l2, l3)
  {
    UnpackLanes(l0, l1, l2, l3);
    l3 * 0x100_0000 + l2 * 0x1_0000 + l1 * 0x100 + l0
  }

  /** `x >> k`, one halving at a time. */
  function Halve(x: nat, k: nat): nat
  {
    if k == 0 then x else Halve(x, k - 1) / 2
  }

  /** Bit `k` of a byte, as a number. */
  function BitOf(x: byte, k: nat): nat
    requires k < 8
  {
    Halve(x, k) % 2
  }

  /** Eight bits as a vector, bit 7 first. */
  function Assemble(b7: bool, b6: bool, b5: bool, b4: bool, b3: bool, b2: bool, b1: bool, b0: bool): bv8
  {
    (if b7 then 0x80 else 0) | (if b6 then 0x40 else 0)
    | (if b5 then 0x20 else 0) | (if b4 then 0x10 else 0)
    | (if b3 then 0x08 else 0) | (if b2 then 0x04 else 0)
    | (if b1 then 0x02 else 0) | (if b0 then 0x01 else 0)
  }

  /** The weight of one bit: `w` when it is set. */
  function Weight(b: bool, w: nat): nat
  {
    if b then w else 0
  }

  /** The bits or-ed into a vector occupy distinct positions, so its value
      is the sum of their weights. */
  lemma AssembleValue(b7: bool, b6: bool, b5: bool, b4: bool, b3: bool, b2: bool, b1: bool, b0: bool)
    ensures Assemble(b7, b6, b5, b4, b3, b2, b1, b0) as int
      == Weight(b7, 0x80) + Weight(b6, 0x40) + Weight(b5, 0x20) + Weight(b4, 0x10)
         + Weight(b3, 8) + Weight(b2, 4) + Weight(b1, 2) + Weight(b0, 1)
  {
  }

  /** A byte is the sum of the weights of its set bits. */
  lemma BitWeights(x: byte)
    ensures x == Weight(BitOf(x, 7) == 1, 0x80) + Weight(BitOf(x, 6) == 1, 0x40)
               + Weight(BitOf(x, 5) == 1, 0x20) + Weight(BitOf(x, 4) == 1, 0x10)
               + Weight(BitOf(x, 3) == 1, 8) + Weight(BitOf(x, 2) == 1, 4)
               + Weight(BitOf(x, 1) == 1, 2) + Weight(BitOf(x, 0) == 1, 1)
  {
    ByteBits(x);
    assert Weight(BitOf(x, 7) == 1, 0x80) == 0x80 * BitOf(x, 7);
    assert Weight(BitOf(x, 6) == 1, 0x40) == 0x40 * BitOf(x, 6);
    assert Weight(BitOf(x, 5) == 1, 0x20) == 0x20 * BitOf(x, 5);
    assert Weight(BitOf(x, 4) == 1, 0x10) == 0x10 * BitOf(x, 4);
    assert Weight(BitOf(x, 3) == 1, 8) == 8 * BitOf(x, 3);
    assert Weight(BitOf(x, 2) == 1, 4) == 4 * BitOf(x, 2);
    assert Weight(BitOf(x, 1) == 1, 2) == 2 * BitOf(x, 1);
    assert Weight(BitOf(x, 0) == 1, 1) == BitOf(x, 0);
  }

  /** A byte as an eight-bit vector, assembled bit by bit: the vector holds
      the same number, so `CRC8` is fed the byte the buffer holds. */
  function ToBv8(x: byte): (v: bv8)
    ensures v as int == x
  {
    BitWeights(x);
    AssembleValue(BitOf(x, 7) == 1, BitOf(x, 6) == 1, BitOf(x, 5) == 1, BitOf(x, 4) == 1,
                  BitOf(x, 3) == 1, BitOf(x, 2) == 1, BitOf(x, 1) == 1, BitOf(x, 0) == 1);
    Assemble(BitOf(x, 7) == 1, BitOf(x, 6) == 1, BitOf(x, 5) == 1, BitOf(x, 4) == 1,
             BitOf(x, 3) == 1, BitOf(x, 2) == 1, BitOf(x, 1) == 1, BitOf(x, 0) == 1)
  }

  /** An eight-bit vector as a byte. */
  function ToByte(c: bv8): byte
  {
    c as int
  }

  /** A byte is the sum of its bits. */
  lemma ByteBits(x: byte)
    ensures x == 0x80 * BitOf(x, 7) + 0x40 * BitOf(x, 6) + 0x20 * BitOf(x, 5) + 0x10 * BitOf(x, 4)
               + 8 * BitOf(x, 3) + 4 * BitOf(x, 2) + 2 * BitOf(x, 1) + BitOf(x, 0)
  {
    assert Halve(x, 1) == x / 2;
    assert Halve(x, 2) == Halve(x, 1) / 2;
    assert Halve(x, 3) == Halve(x, 2) / 2;
    assert Halve(x, 4) == Halve(x, 3) / 2;
    assert Halve(x, 5) == Halve(x, 4) / 2;
    assert Halve(x, 6) == Halve(x, 5) / 2;
    assert Halve(x, 7) == Halve(x, 6) / 2 < 2;
  }

  lemma ToByteInjective(c: bv8, d: bv8)
    ensures ToByte(c) == ToByte(d) ==> c == d
  {
  }
}
