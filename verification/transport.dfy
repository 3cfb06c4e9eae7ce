/** Bit transport: `ICP_WriteBits` and `ICP_ReadBits`.

    Both move an n-bit unsigned value over DATA most significant bit first,
    one clock cycle per bit. A value is a natural number; bit `k` of `v` is
    `(v / 2^k) % 2`, which is what `(v >> k) & 1` computes on a `uint32_t`. */
module Transport {
  import opened Arith
  import opened Wire

  /** Bit `k` of `v`: `(v >> k) & 0x01`. */
  predicate Bit(v: nat, k: nat)
  {
    (v / Pow2(k)) % 2 == 1
  }

  /** The `n` low bits of `v`, most significant first. */
  function BitsOf(v: nat, n: nat): (bs: seq<bool>)
    ensures |bs| == n
  {
    seq(n, i requires 0 <= i < n => Bit(v, n - 1 - i))
  }

  /** `b << k` for a one-bit `b`. */
  function Place(b: bool, k: nat): nat
  {
    if b then Pow2(k) else 0
  }

  /** The events of bit slot `j` of a transport trace. */
  function Slot(t: seq<Event>, j: nat): seq<Event>
    requires SlotLength * j + SlotLength <= |t|
  {
    t[SlotLength * j .. SlotLength * j + SlotLength]
  }

  /** Iterations `i`, `i + 1`, ..., `n - 1` of the loop in `ICP_WriteBits`:
      iteration `i` drives bit `n - i - 1` of the value. */
  function WriteBitsFrom(v: nat, n: nat, i: nat): (t: seq<Event>)
    requires i <= n
    ensures |t| == SlotLength * (n - i)
    decreases n - i
  {
    if i == n then [] else WriteBitSlot(Bit(v, n - i - 1)) + WriteBitsFrom(v, n, i + 1)
  }

  /** `ICP_WriteBits(v, n)`: drives DATA with the `n` low bits of `v`, most
      significant first, and never samples it; every bit costs two
      microseconds of busy-wait and one rising clock edge. DATA must be an
      output throughout, and is left one. */
  function WriteBits(v: nat, n: nat): (t: seq<Event>)
    ensures |t| == SlotLength * n
    ensures Driven(t) == BitsOf(v, n) && Sampled(t) == []
    ensures Elapsed(t) == 2 * n && Pulses(t) == n
    ensures Keeps(t, Output) && (n > 0 ==> !Disciplined(t, Input))
  {
    WriteBitsFromObserved(v, n, 0);
    WriteBitsFromDirected(v, n, 0);
    assert BitsOf(v, n)[0..] == BitsOf(v, n);
    WriteBitsFrom(v, n, 0)
  }

  /** What a read returns, and the events it took. */
  datatype Sample = Sample(value: nat, trace: seq<Event>)

  /** Iterations `i`, ..., `n - 1` of the loop in `ICP_ReadBits`, reading the
      levels the target drives: the level sampled in iteration `i` is or-ed in
      at bit `n - i - 1`. The bits placed are pairwise distinct, so the `|=`
      of the source is the sum written here. */
  function ReadBitsFrom(n: nat, levels: seq<bool>, i: nat): (r: Sample)
    requires i <= n <= |levels|
    ensures r.value < Pow2(n - i)
    ensures |r.trace| == SlotLength * (n - i)
    decreases n - i
  {
    if i == n then Sample(0, [])
    else
      var rest := ReadBitsFrom(n, levels, i + 1);
      Sample(Place(levels[i], n - i - 1) + rest.value, ReadBitSlot(levels[i]) + rest.trace)
  }

  /** `ICP_ReadBits(n)` while the target drives `levels`: samples DATA
      exactly n times, in order, without driving it; every bit costs two
      microseconds and one rising clock edge. DATA must be an input
      throughout, and is left one. */
  function ReadBits(n: nat, levels: seq<bool>): (r: Sample)
    requires n <= |levels|
    ensures r.value < Pow2(n)
    ensures |r.trace| == SlotLength * n
    ensures Sampled(r.trace) == levels[..n] && Driven(r.trace) == []
    ensures Elapsed(r.trace) == 2 * n && Pulses(r.trace) == n
    ensures Keeps(r.trace, Input) && (n > 0 ==> !Disciplined(r.trace, Output))
  {
    ReadBitsFromObserved(n, levels, 0);
    ReadBitsFromDirected(n, levels, 0);
    assert levels[0..n] == levels[..n];
    ReadBitsFrom(n, levels, 0)
  }

  lemma {:induction false} SlotFirst(head: seq<Event>, rest: seq<Event>)
    requires |head| == SlotLength
    ensures Slot(head + rest, 0) == head
  {
  }

  lemma {:induction false} SlotNext(head: seq<Event>, rest: seq<Event>, j: nat)
    requires |head| == SlotLength && SlotLength * j + SlotLength <= |rest|
    ensures Slot(head + rest, j + 1) == Slot(rest, j)
  {
  }

  lemma {:induction false} WriteBitsFromSlot(v: nat, n: nat, i: nat, j: nat)
    requires i + j < n
    ensures Slot(WriteBitsFrom(v, n, i), j) == WriteBitSlot(Bit(v, n - 1 - i - j))
    decreases j
  {
    var head := WriteBitSlot(Bit(v, n - i - 1));
    var rest := WriteBitsFrom(v, n, i + 1);
    if j == 0 {
      SlotFirst(head, rest);
    } else {
      WriteBitsFromSlot(v, n, i + 1, j - 1);
      SlotNext(head, rest, j - 1);
    }
  }

  lemma {:induction false} WriteBitsFromObserved(v: nat, n: nat, i: nat)
    requires i <= n
    ensures Driven(WriteBitsFrom(v, n, i)) == BitsOf(v, n)[i..]
    ensures Sampled(WriteBitsFrom(v, n, i)) == []
    ensures Elapsed(WriteBitsFrom(v, n, i)) == 2 * (n - i)
    ensures Pulses(WriteBitsFrom(v, n, i)) == n - i
    decreases n - i
  {
    if i < n {
      WriteBitsFromObserved(v, n, i + 1);
      Observe(WriteBitSlot(Bit(v, n - i - 1)), WriteBitsFrom(v, n, i + 1));
      SlotObservations(Bit(v, n - i - 1));
      assert BitsOf(v, n)[i..] == [Bit(v, n - i - 1)] + BitsOf(v, n)[i + 1..];
    }
  }

  lemma {:induction false} WriteBitsFromDirected(v: nat, n: nat, i: nat)
    requires i <= n
    ensures Keeps(WriteBitsFrom(v, n, i), Output)
    ensures i < n ==> !Disciplined(WriteBitsFrom(v, n, i), Input)
    decreases n - i
  {
    if i < n {
      WriteBitsFromDirected(v, n, i + 1);
      SlotDirections(Bit(v, n - i - 1), Output);
      Directions(WriteBitSlot(Bit(v, n - i - 1)), WriteBitsFrom(v, n, i + 1), Output);
      Directions(WriteBitSlot(Bit(v, n - i - 1)), WriteBitsFrom(v, n, i + 1), Input);
    }
  }

  /** `ICP_WriteBits(v, n)` emits n bit slots; slot `j` drives bit `n - 1 - j`
      of `v` and then gives one clock cycle. */
  lemma {:induction false} WriteBitsSlots(v: nat, n: nat)
    ensures forall j :: 0 <= j < n ==> Slot(WriteBits(v, n), j) == WriteBitSlot(Bit(v, n - 1 - j))
  {
    forall j | 0 <= j < n
      ensures Slot(WriteBits(v, n), j) == WriteBitSlot(Bit(v, n - 1 - j))
    {
      WriteBitsFromSlot(v, n, 0, j);
    }
  }


  lemma {:induction false} ReadBitsFromSlot(n: nat, levels: seq<bool>, i: nat, j: nat)
    requires i + j < n <= |levels|
    ensures Slot(ReadBitsFrom(n, levels, i).trace, j) == ReadBitSlot(levels[i + j])
    decreases j
  {
    var head := ReadBitSlot(levels[i]);
    var rest := ReadBitsFrom(n, levels, i + 1).trace;
    if j == 0 {
      SlotFirst(head, rest);
    } else {
      ReadBitsFromSlot(n, levels, i + 1, j - 1);
      SlotNext(head, rest, j - 1);
    }
  }

  lemma {:induction false} ReadBitsFromObserved(n: nat, levels: seq<bool>, i: nat)
    requires i <= n <= |levels|
    ensures Sampled(ReadBitsFrom(n, levels, i).trace) == levels[i..n]
    ensures Driven(ReadBitsFrom(n, levels, i).trace) == []
    ensures Elapsed(ReadBitsFrom(n, levels, i).trace) == 2 * (n - i)
    ensures Pulses(ReadBitsFrom(n, levels, i).trace) == n - i
    decreases n - i
  {
    if i < n {
      ReadBitsFromObserved(n, levels, i + 1);
      Observe(ReadBitSlot(levels[i]), ReadBitsFrom(n, levels, i + 1).trace);
      SlotObservations(levels[i]);
      assert levels[i..n] == [levels[i]] + levels[i + 1..n];
    }
  }

  lemma {:induction false} ReadBitsFromDirected(n: nat, levels: seq<bool>, i: nat)
    requires i <= n <= |levels|
    ensures Keeps(ReadBitsFrom(n, levels, i).trace, Input)
    ensures i < n ==> !Disciplined(ReadBitsFrom(n, levels, i).trace, Output)
    decreases n - i
  {
    if i < n {
      ReadBitsFromDirected(n, levels, i + 1);
      SlotDirections(levels[i], Input);
      Directions(ReadBitSlot(levels[i]), ReadBitsFrom(n, levels, i + 1).trace, Input);
      Directions(ReadBitSlot(levels[i]), ReadBitsFrom(n, levels, i + 1).trace, Output);
    }
  }

  /** `ICP_ReadBits(n)` takes n read slots, slot `j` sampling the level the
      target drives for bit `n - 1 - j`. */
  lemma {:induction false} ReadBitsSlots(n: nat, levels: seq<bool>)
    requires n <= |levels|
    ensures forall j :: 0 <= j < n ==> Slot(ReadBits(n, levels).trace, j) == ReadBitSlot(levels[j])
  {
    forall j | 0 <= j < n
      ensures Slot(ReadBits(n, levels).trace, j) == ReadBitSlot(levels[j])
    {
      ReadBitsFromSlot(n, levels, 0, j);
    }
  }


  lemma {:induction false} ReadBitsFromOfBits(v: nat, n: nat, i: nat)
    requires i <= n
    ensures ReadBitsFrom(n, BitsOf(v, n), i).value == v % Pow2(n - i)
    decreases n - i
  {
    if i < n {
      var p := Pow2(n - i - 1);
      var bs := BitsOf(v, n);
      ReadBitsFromOfBits(v, n, i + 1);
      assert bs[i] == Bit(v, n - i - 1);
      assert Place(bs[i], n - i - 1) == ((v / p) % 2) * p;
      assert Pow2(n - i) == 2 * p;
      ModSplit(v, p);
    }
  }

  /** Reading back the bits of `v` yields `v` modulo 2^n. */
  lemma {:induction false} ReadBitsOfBits(v: nat, n: nat)
    ensures ReadBits(n, BitsOf(v, n)).value == v % Pow2(n)
  {
    ReadBitsFromOfBits(v, n, 0);
  }

  /** Loopback: with DATA wired back to itself, `ICP_ReadBits(n)` over what
      `ICP_WriteBits(v, n)` drove returns `v mod 2^n`. */
  lemma {:induction false} Loopback(v: nat, n: nat)
    ensures Driven(WriteBits(v, n)) == BitsOf(v, n)
    ensures ReadBits(n, Driven(WriteBits(v, n))).value == v % Pow2(n)
  {
    ReadBitsOfBits(v, n);
  }

  /** A 32-bit transfer of a `uint32_t` comes back unchanged. */
  lemma {:induction false} LoopbackWord(v: u32)
    ensures Driven(WriteBits(v, 32)) == BitsOf(v, 32)
    ensures ReadBits(32, Driven(WriteBits(v, 32))).value == v
  {
    Loopback(v, 32);
    Pow2Word();
    DivModUnique(v, WordModulus, 0, v);
  }

  lemma {:induction false} DivAddMultiple(a: nat, d: nat, rest: nat)
    requires d > 0
    ensures (a * d + rest) / d == a + rest / d
  {
    assert rest == (rest / d) * d + rest % d;
    assert a * d + rest == (a + rest / d) * d + rest % d;
    DivModUnique(a * d + rest, d, a + rest / d, rest % d);
  }

  lemma {:induction false} EvenPlus(c: nat, y: nat)
    ensures (2 * c + y) % 2 == y % 2
  {
    DivModUnique(2 * c + y, 2, c + y / 2, y % 2);
  }

  lemma {:induction false} Regroup(b: nat, p: nat, q: nat)
    ensures b * (p * (2 * q)) == (2 * (b * p)) * q
  {
  }

  lemma {:induction false} BitAboveIgnored(c: nat, d: nat, rest: nat)
    requires d > 0
    ensures (((2 * c) * d + rest) / d) % 2 == (rest / d) % 2
  {
    DivAddMultiple(2 * c, d, rest);
    EvenPlus(c, rest / d);
  }

  /** A high bit above position `k` does not change bit `k`. */
  lemma {:induction false} BitBelowHigh(x: nat, b: nat, m: nat, rest: nat, k: nat)
    requires k < m && x == b * Pow2(m) + rest
    ensures Bit(x, k) == Bit(rest, k)
  {
    var p, q := Pow2(m - k - 1), Pow2(k);
    Pow2Add(m - k - 1, k + 1);
    assert Pow2(m) == p * (2 * q);
    Regroup(b, p, q);
    BitAboveIgnored(b * p, q, rest);
  }

  /** The top bit of a value below 2^(m+1) is the bit placed there. */
  lemma {:induction false} BitAtTop(b: bool, m: nat, rest: nat)
    requires rest < Pow2(m)
    ensures Bit(Place(b, m) + rest, m) == b
  {
    var x := Place(b, m) + rest;
    var d := if b then 1 else 0;
    assert x == d * Pow2(m) + rest;
    DivModUnique(x, Pow2(m), d, rest);
  }

  lemma {:induction false} ReadBitsFromHead(n: nat, levels: seq<bool>, i: nat)
    requires i < n <= |levels|
    ensures var d := if levels[i] then 1 else 0;
      ReadBitsFrom(n, levels, i).value == d * Pow2(n - i - 1) + ReadBitsFrom(n, levels, i + 1).value
  {
  }

  lemma {:induction false} BitBelowReadBitsFrom(n: nat, levels: seq<bool>, i: nat, k: nat)
    requires i < n <= |levels| && k < n - i - 1
    ensures Bit(ReadBitsFrom(n, levels, i).value, k) == Bit(ReadBitsFrom(n, levels, i + 1).value, k)
  {
    var d := if levels[i] then 1 else 0;
    ReadBitsFromHead(n, levels, i);
    BitBelowHigh(ReadBitsFrom(n, levels, i).value, d, n - i - 1, ReadBitsFrom(n, levels, i + 1).value, k);
  }

  lemma {:induction false} BitOfReadBitsFrom(n: nat, levels: seq<bool>, i: nat, j: nat)
    requires i <= j < n <= |levels|
    ensures Bit(ReadBitsFrom(n, levels, i).value, n - 1 - j) == levels[j]
    decreases j - i
  {
    if j == i {
      BitAtTop(levels[i], n - i - 1, ReadBitsFrom(n, levels, i + 1).value);
    } else {
      BitBelowReadBitsFrom(n, levels, i, n - 1 - j);
      BitOfReadBitsFrom(n, levels, i + 1, j);
    }
  }

  /** The converse round trip: the value `ICP_ReadBits(n)` assembles has,
      most significant first, exactly the n levels it sampled. */
  lemma {:induction false} BitsOfReadBits(n: nat, levels: seq<bool>)
    requires n <= |levels|
    ensures BitsOf(ReadBits(n, levels).value, n) == levels[..n]
  {
    forall j | 0 <= j < n
      ensures BitsOf(ReadBits(n, levels).value, n)[j] == levels[j]
    {
      BitOfReadBitsFrom(n, levels, 0, j);
    }
  }
}
