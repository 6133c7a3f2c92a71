/** The 16-bit OVEN checksum: polynomial 0x8F57, most significant bit first, register
    initially zero, no final exclusive-or.

    `HashByte` and `Crc16Loop` are the source's loops; `HashBits` and `Crc16` are the
    functions they compute. The algebra below is about the stream of bits fed to the
    register, because both frame checksums (8 bits a symbol) and parameter-name hashes
    (7 bits a symbol) are such streams. */
module Crc {
  import opened Core

  const POLYNOMIAL: bv16 := 0x8F57

  /** One turn of the register: shift left, and subtract the polynomial when the bit that
      leaves the register differs from the message bit. */
  function BitStep(crc: bv16, bit: bool): bv16 {
    (crc << 1) ^ (if (crc & 0x8000 != 0) != bit then POLYNOMIAL else 0)
  }

  function HashBits(data: byte, bitCount: nat, crc: bv16): bv16
    decreases bitCount
  {
    if bitCount == 0 then crc
    else HashBits(data * 2 % 0x100, bitCount - 1, BitStep(crc, data >= 0x80))
  }

  method HashByte(data: byte, bitCount: nat, start: bv16) returns (crc: bv16)
    ensures crc == HashBits(data, bitCount, start)
  {
    crc := start;
    var window: byte := data;
    for i := 0 to bitCount
      invariant HashBits(window, bitCount - i, crc) == HashBits(data, bitCount, start)
    {
      crc := BitStep(crc, window >= 0x80);
      window := window * 2 % 0x100;
    }
  }

  function Register(data: seq<byte>, crc: bv16): bv16 {
    if data == [] then crc else Register(data[1..], HashBits(data[0], 8, crc))
  }

  /** The number the register holds after a message. */
  function Crc16(data: seq<byte>): word {
    RegisterValue(Register(data, 0))
  }

  method Crc16Loop(data: seq<byte>) returns (crc: bv16)
    ensures RegisterValue(crc) == Crc16(data)
  {
    crc := 0;
    for i := 0 to |data|
      invariant Register(data[i..], crc) == Register(data, 0)
    {
      crc := HashByte(data[i], 8, crc);
      assert data[i..][1..] == data[i + 1..];
    }
  }

  /* ---------- The register as a reader of bit streams ---------- */

  function Feed(bits: seq<bool>, crc: bv16): bv16 {
    if bits == [] then crc else Feed(bits[1..], BitStep(crc, bits[0]))
  }

  function MessageBits(data: seq<byte>): (bits: seq<bool>)
    ensures |bits| == 8 * |data|
  {
    if data == [] then [] else NumberBits(data[0], 8) + MessageBits(data[1..])
  }

  lemma {:induction false} FeedConcat(a: seq<bool>, b: seq<bool>, crc: bv16)
    ensures Feed(a + b, crc) == Feed(b, Feed(a, crc))
    decreases |a|
  {
    if a == [] {
      assert a + b == b;
    } else {
      assert (a + b)[1..] == a[1..] + b;
      FeedConcat(a[1..], b, BitStep(crc, a[0]));
    }
  }

  lemma {:induction false} ComplementaryPowers(k: nat, total: nat)
    requires k <= total
    ensures Pow2(k) * Pow2(total - k) == Pow2(total)
  {
    if k > 0 {
      ComplementaryPowers(k - 1, total - 1);
    }
  }

  /** A number left-aligned in a byte loses its top bit to the shift. */
  lemma ShiftLeftAligned(top: nat, low: nat, half: nat, scale: nat)
    requires top <= 1 && low < half && half * scale == 0x80
    ensures (top * half + low) * scale == top * 0x80 + low * scale
    ensures 0 <= low * scale < 0x80 && low * (2 * scale) == 2 * (low * scale)
  {
    assert low * scale <= (half - 1) * scale == half * scale - scale;
    assert scale != 0;
  }

  lemma NextWindow(top: nat, low: nat, width: nat, data: byte)
    requires 0 < width <= 8 && top <= 1 && low < Pow2(width - 1)
    requires data == (top * Pow2(width - 1) + low) * Pow2(8 - width)
    ensures data >= 0x80 <==> top == 1
    ensures data * 2 % 0x100 == low * Pow2(8 - (width - 1))
  {
    var half, scale := Pow2(width - 1), Pow2(8 - width);
    assert half * scale == 0x80 by { ComplementaryPowers(width - 1, 7); PowersOfTwo(); }
    ShiftLeftAligned(top, low, half, scale);
  }

  /** The loop that shifts a byte out to the left feeds the register the bits of the
      number left-aligned in that byte. */
  lemma {:induction false} HashBitsFeeds(n: nat, width: nat, data: byte, crc: bv16)
    requires width <= 8 && n < Pow2(width) && data == n * Pow2(8 - width)
    ensures HashBits(data, width, crc) == Feed(NumberBits(n, width), crc)
    decreases width
  {
    if width > 0 {
      var half := Pow2(width - 1);
      var top, low := if n >= half then 1 else 0, if n >= half then n - half else n;
      NextWindow(top, low, width, data);
      FeedTopBit(top, low, width, crc);
      HashBitsFeeds(low, width - 1, data * 2 % 0x100, BitStep(crc, top == 1));
    }
  }

  lemma FeedTopBit(top: nat, low: nat, width: nat, crc: bv16)
    requires 0 < width && top <= 1 && low < Pow2(width - 1)
    ensures Feed(NumberBits(top * Pow2(width - 1) + low, width), crc) ==
            Feed(NumberBits(low, width - 1), BitStep(crc, top == 1))
  {
    SplitBits(top, low, 1, width - 1);
    assert NumberBits(top, 1) == [top == 1] by { assert NumberBits(top / 2, 0) == []; }
    var bits := NumberBits(top * Pow2(width - 1) + low, width);
    assert bits[0] == (top == 1) && bits[1..] == NumberBits(low, width - 1);
  }

  lemma {:induction false} RegisterFeeds(data: seq<byte>, crc: bv16)
    ensures Register(data, crc) == Feed(MessageBits(data), crc)
    decreases |data|
  {
    if data != [] {
      PowersOfTwo();
      HashBitsFeeds(data[0], 8, data[0], crc);
      FeedConcat(NumberBits(data[0], 8), MessageBits(data[1..]), crc);
      RegisterFeeds(data[1..], HashBits(data[0], 8, crc));
    }
  }

  /* ---------- Every bit step is a bijection on the register ---------- */

  lemma StepInjective(x: bv16, y: bv16, bit: bool)
    requires BitStep(x, bit) == BitStep(y, bit)
    ensures x == y
  {
    if x & 0x8000 == 0 {
      if y & 0x8000 == 0 {} else {}
    } else {
      if y & 0x8000 == 0 {} else {}
    }
  }

  lemma {:induction false} FeedInjective(bits: seq<bool>, x: bv16, y: bv16)
    requires x != y
    ensures Feed(bits, x) != Feed(bits, y)
  {
    if bits != [] {
      if BitStep(x, bits[0]) == BitStep(y, bits[0]) {
        StepInjective(x, y, bits[0]);
      } else {
        FeedInjective(bits[1..], BitStep(x, bits[0]), BitStep(y, bits[0]));
      }
    }
  }

  /* ---------- A difference cannot leave the register in 16 steps ---------- */

  /** `low` can be doubled and refilled `steps` times before it reaches the top bit. */
  predicate HasRoom(low: bv16, steps: nat)
    decreases steps
  {
    steps == 0 || (low & 0x8000 == 0 && HasRoom((low << 1) | 1, steps - 1))
  }

  lemma {:induction false} HasRoomForFewer(low: bv16, steps: nat, fewer: nat)
    requires HasRoom(low, steps) && fewer <= steps
    ensures HasRoom(low, fewer)
    decreases steps
  {
    if fewer > 0 {
      HasRoomForFewer((low << 1) | 1, steps - 1, fewer - 1);
    }
  }

  lemma ShiftedDifference(x: bv16, y: bv16, low: bv16)
    requires low & 0x8000 == 0 && (x ^ y) & low != 0
    ensures ((x << 1) ^ (y << 1)) & ((low << 1) | 1) != 0
    ensures ((x << 1) ^ POLYNOMIAL ^ (y << 1)) & ((low << 1) | 1) != 0
    ensures ((x << 1) ^ ((y << 1) ^ POLYNOMIAL)) & ((low << 1) | 1) != 0
    ensures ((x << 1) ^ POLYNOMIAL ^ ((y << 1) ^ POLYNOMIAL)) & ((low << 1) | 1) != 0
  {}

  /** Two registers that differ in their low bits still do after a step, one bit higher:
      the shift moves the difference up, and the polynomial's constant term sets bit 0. */
  lemma DifferenceMoves(x: bv16, y: bv16, a: bool, b: bool, low: bv16)
    requires low & 0x8000 == 0 && (x ^ y) & low != 0
    ensures (BitStep(x, a) ^ BitStep(y, b)) & ((low << 1) | 1) != 0
  {
    ShiftedDifference(x, y, low);
    if (x & 0x8000 != 0) != a {
      if (y & 0x8000 != 0) != b {} else {}
    } else {
      if (y & 0x8000 != 0) != b {} else {}
    }
  }

  lemma MaskedDifference(x: bv16, y: bv16, low: bv16)
    requires (x ^ y) & low != 0
    ensures x != y
  {}

  lemma {:induction false} DifferenceStays(x: bv16, y: bv16, a: seq<bool>, b: seq<bool>, low: bv16)
    requires |a| == |b| && HasRoom(low, |a|)
    requires (x ^ y) & low != 0
    ensures Feed(a, x) != Feed(b, y)
    decreases |a|
  {
    hide BitStep;
    MaskedDifference(x, y, low);
    if a != [] {
      DifferenceMoves(x, y, a[0], b[0], low);
      DifferenceStays(BitStep(x, a[0]), BitStep(y, b[0]), a[1..], b[1..], (low << 1) | 1);
    }
  }

  lemma FirstDifference(crc: bv16)
    ensures (BitStep(crc, true) ^ BitStep(crc, false)) & 0x1 != 0
    ensures (BitStep(crc, false) ^ BitStep(crc, true)) & 0x1 != 0
  {
    if crc & 0x8000 != 0 {} else {}
  }

  /** At most 16 message bits are recovered from the register they leave behind. */
  lemma {:induction false} ShortMessagesInjective(a: seq<bool>, b: seq<bool>, crc: bv16)
    requires |a| == |b| <= 16 && a != b
    ensures Feed(a, crc) != Feed(b, crc)
    decreases |a|
  {
    if a[0] == b[0] {
      assert a[1..] != b[1..] by {
        assert a == [a[0]] + a[1..] && b == [b[0]] + b[1..];
      }
      ShortMessagesInjective(a[1..], b[1..], BitStep(crc, a[0]));
    } else {
      FirstDifference(crc);
      assert HasRoom(1, 15);
      HasRoomForFewer(1, 15, |a| - 1);
      DifferenceStays(BitStep(crc, a[0]), BitStep(crc, b[0]), a[1..], b[1..], 1);
    }
  }

  /** Every error burst of at most 16 bits changes the checksum, wherever it lies in a
      message of any length. */
  lemma BurstChangesRegister(head: seq<bool>, a: seq<bool>, b: seq<bool>, tail: seq<bool>, crc: bv16)
    requires |a| == |b| <= 16 && a != b
    ensures Feed(head + a + tail, crc) != Feed(head + b + tail, crc)
  {
    var x, y := Feed(a, Feed(head, crc)), Feed(b, Feed(head, crc));
    FeedConcat(head, a, crc);
    FeedConcat(head, b, crc);
    FeedConcat(head + a, tail, crc);
    FeedConcat(head + b, tail, crc);
    ShortMessagesInjective(a, b, Feed(head, crc));
    FeedInjective(tail, x, y);
  }

  /* ---------- The trailer: a register cancelled by its own 16 bits ---------- */

  function WordBits(word: bv16, bitCount: nat): (bits: seq<bool>)
    ensures |bits| == bitCount
    decreases bitCount
  {
    if bitCount == 0 then [] else [word & 0x8000 != 0] + WordBits(word << 1, bitCount - 1)
  }

  function ShiftedOut(word: bv16, count: nat): bv16
    decreases count
  {
    if count == 0 then word else ShiftedOut(word << 1, count - 1)
  }

  lemma FeedNothing(crc: bv16)
    ensures Feed([], crc) == crc
  {}

  lemma OwnTopBit(crc: bv16)
    ensures BitStep(crc, crc & 0x8000 != 0) == crc << 1
  {
    assert (crc << 1) ^ 0 == crc << 1;
  }

  lemma FeedOne(bit: bool, rest: seq<bool>, crc: bv16)
    ensures Feed([bit] + rest, crc) == Feed(rest, BitStep(crc, bit))
  {
    hide BitStep;
    assert ([bit] + rest)[1..] == rest;
  }

  lemma {:induction false} RegisterCancelsItself(crc: bv16, bitCount: nat)
    ensures Feed(WordBits(crc, bitCount), crc) == ShiftedOut(crc, bitCount)
    decreases bitCount
  {
    hide BitStep, Feed;
    if bitCount == 0 {
      assert Feed([], crc) == crc by { FeedNothing(crc); }
    } else {
      OwnTopBit(crc);
      FeedOne(crc & 0x8000 != 0, WordBits(crc << 1, bitCount - 1), crc);
      RegisterCancelsItself(crc << 1, bitCount - 1);
    }
  }

  lemma ShiftedOutFour(word: bv16, count: nat)
    requires count >= 4
    ensures ShiftedOut(word, count) == ShiftedOut(word << 4, count - 4)
  {
    assert ((word << 1) << 1) << 1 == word << 3;
    assert (word << 3) << 1 == word << 4;
    assert ShiftedOut(word << 2, count - 2) == ShiftedOut(word << 4, count - 4) by {
      assert (word << 2) << 1 == word << 3;
    }
    assert (word << 1) << 1 == word << 2;
  }

  lemma AllShiftedOut(word: bv16)
    ensures ShiftedOut(word, 16) == 0
  {
    ShiftedOutFour(word, 16);
    ShiftedOutFour(word << 4, 12);
    ShiftedOutFour((word << 4) << 4, 8);
    ShiftedOutFour(((word << 4) << 4) << 4, 4);
    assert (((word << 4) << 4) << 4) << 4 == 0;
  }

  function RegisterValue(crc: bv16): word {
    PowersOfTwo();
    BitsValue(WordBits(crc, 16))
  }

  lemma NumberOfRegister(crc: bv16, n: word)
    ensures n == RegisterValue(crc) <==> NumberBits(n, 16) == WordBits(crc, 16)
  {
    BitsOfValue(WordBits(crc, 16));
    PowersOfTwo();
    if NumberBits(n, 16) == WordBits(crc, 16) {
      ValueOfBits(n, 16);
    }
  }

  /** Feeding a message and then a 16-bit number clears the register exactly when the
      number is the message's checksum. */
  lemma ZeroResidue(data: seq<byte>, trailer: word)
    ensures Feed(MessageBits(data) + NumberBits(trailer, 16), 0) == 0 <==> trailer == Crc16(data)
  {
    var crc := Register(data, 0);
    RegisterFeeds(data, 0);
    FeedConcat(MessageBits(data), NumberBits(trailer, 16), 0);
    NumberOfRegister(crc, trailer);
    OwnBitsClear(crc, NumberBits(trailer, 16));
  }

  lemma OwnBitsClear(crc: bv16, bits: seq<bool>)
    requires |bits| == 16
    ensures Feed(bits, crc) == 0 <==> bits == WordBits(crc, 16)
  {
    RegisterCancelsItself(crc, 16);
    AllShiftedOut(crc);
    if bits != WordBits(crc, 16) {
      ShortMessagesInjective(bits, WordBits(crc, 16), crc);
    }
  }
}
