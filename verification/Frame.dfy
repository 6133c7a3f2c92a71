/** The OVEN frame: a packed header, a parameter hash, a payload and a checksum, written
    on the wire as ASCII nibbles between `#` and a carriage return. */
module Frame {
  import opened Core
  import opened Crc

  const START_MARKER: byte := 0x23
  const END_MARKER: byte := 0x0D
  const FIRST_SYMBOL: byte := 0x47
  const MAX_PAYLOAD := 15
  const MAX_FRAME_LENGTH := 44

  datatype OwenFrame = OwenFrame(address: int, request: bool, parameterHash: word, payload: seq<byte>)

  predicate Encodable(frame: OwenFrame) {
    0 <= frame.address <= 0x7FF && |frame.payload| <= MAX_PAYLOAD
  }

  /* ---------- Nibble coding ---------- */

  predicate IsSymbol(b: byte) {
    FIRST_SYMBOL <= b < FIRST_SYMBOL + 16
  }

  function NibbleOf(symbol: byte): (nibble: nat)
    requires IsSymbol(symbol)
    ensures nibble < 16
  {
    symbol as int - FIRST_SYMBOL as int
  }

  function SymbolOf(nibble: nat): (symbol: byte)
    requires nibble < 16
    ensures IsSymbol(symbol) && NibbleOf(symbol) == nibble
  {
    FIRST_SYMBOL as int + nibble
  }

  function NibbleEncode(body: seq<byte>): (encoded: seq<byte>)
    ensures |encoded| == 2 * |body|
    ensures forall i :: 0 <= i < |encoded| ==> IsSymbol(encoded[i])
  {
    if body == [] then []
    else [SymbolOf(body[0] / 16), SymbolOf(body[0] % 16)] + NibbleEncode(body[1..])
  }

  function Prepend(front: seq<byte>, rest: Result<seq<byte>>): Result<seq<byte>> {
    if rest.Ok? then Ok(front + rest.value) else rest
  }

  function NibbleDecode(encoded: seq<byte>): (decoded: Result<seq<byte>>)
    ensures decoded.Ok? ==> 2 * |decoded.value| == |encoded|
    ensures decoded.Err? ==> decoded.fault == ValueFault
    decreases |encoded|
  {
    if encoded == [] then Ok([])
    else if |encoded| == 1 || !IsSymbol(encoded[0]) || !IsSymbol(encoded[1]) then Err(ValueFault)
    else Prepend([NibbleOf(encoded[0]) * 16 + NibbleOf(encoded[1])], NibbleDecode(encoded[2..]))
  }

  method NibbleEncodeLoop(body: seq<byte>) returns (encoded: seq<byte>)
    ensures encoded == NibbleEncode(body)
  {
    encoded := [];
    for i := 0 to |body|
      invariant encoded + NibbleEncode(body[i..]) == NibbleEncode(body)
    {
      encoded := encoded + [SymbolOf(body[i] / 16), SymbolOf(body[i] % 16)];
      assert body[i..][1..] == body[i + 1..];
    }
    assert body[|body|..] == [];
  }

  lemma PrependTwice(a: seq<byte>, b: seq<byte>, rest: Result<seq<byte>>)
    ensures Prepend(a, Prepend(b, rest)) == Prepend(a + b, rest)
    ensures Prepend([], rest) == rest
  {
    if rest.Ok? {
      assert a + (b + rest.value) == a + b + rest.value;
      assert [] + rest.value == rest.value;
    }
  }

  /** The source checks the length first and stops at the first symbol it does not know. */
  method NibbleDecodeLoop(encoded: seq<byte>) returns (decoded: Result<seq<byte>>)
    ensures decoded == NibbleDecode(encoded)
  {
    NibbleDecodeOkExactlyWhen(encoded);
    if |encoded| % 2 != 0 {
      return Err(ValueFault);
    }
    var body: seq<byte> := [];
    var index := 0;
    assert encoded[0..] == encoded;
    PrependTwice([], [], NibbleDecode(encoded));
    while index < |encoded|
      invariant index <= |encoded| && index % 2 == 0
      invariant forall i :: 0 <= i < index ==> IsSymbol(encoded[i])
      invariant NibbleDecode(encoded) == Prepend(body, NibbleDecode(encoded[index..]))
    {
      if !IsSymbol(encoded[index]) || !IsSymbol(encoded[index + 1]) {
        return Err(ValueFault);
      }
      var next := [NibbleOf(encoded[index]) * 16 + NibbleOf(encoded[index + 1])];
      assert encoded[index..][2..] == encoded[index + 2..];
      PrependTwice(body, next, NibbleDecode(encoded[index + 2..]));
      body := body + next;
      index := index + 2;
    }
    assert encoded[index..] == [] && body + [] == body;
    decoded := Ok(body);
  }

  lemma {:induction false} NibbleDecodeOkExactlyWhen(encoded: seq<byte>)
    ensures NibbleDecode(encoded).Ok? <==>
            |encoded| % 2 == 0 && forall i :: 0 <= i < |encoded| ==> IsSymbol(encoded[i])
    decreases |encoded|
  {
    if |encoded| >= 2 {
      var rest := encoded[2..];
      NibbleDecodeOkExactlyWhen(rest);
      assert forall i :: 2 <= i < |encoded| ==> encoded[i] == rest[i - 2];
      assert forall i :: 0 <= i < |rest| ==> rest[i] == encoded[i + 2];
    }
  }

  lemma {:induction false} NibbleDecodeUndoesEncode(body: seq<byte>)
    ensures NibbleDecode(NibbleEncode(body)) == Ok(body)
  {
    if body != [] {
      NibbleDecodeUndoesEncode(body[1..]);
      assert NibbleEncode(body)[2..] == NibbleEncode(body[1..]);
      assert body == [body[0]] + body[1..];
    }
  }

  lemma {:induction false} NibbleEncodeUndoesDecode(encoded: seq<byte>)
    requires NibbleDecode(encoded).Ok?
    ensures NibbleEncode(NibbleDecode(encoded).value) == encoded
    decreases |encoded|
  {
    if encoded != [] {
      NibbleEncodeUndoesDecode(encoded[2..]);
      var body := NibbleDecode(encoded).value;
      assert body[1..] == NibbleDecode(encoded[2..]).value;
      assert encoded == encoded[..2] + encoded[2..];
    }
  }

  /* ---------- Whole frames ---------- */

  function WordBytes(n: word): (bytes: seq<byte>)
    ensures |bytes| == 2
  {
    [n / 0x100, n % 0x100]
  }

  function WordAt(bytes: seq<byte>, i: nat): word
    requires i + 2 <= |bytes|
  {
    bytes[i] as int * 0x100 + bytes[i + 1] as int
  }

  function Header(frame: OwenFrame): (header: seq<byte>)
    requires Encodable(frame)
    ensures |header| == 2
  {
    [frame.address / 8, frame.address % 8 * 32 + (if frame.request then 16 else 0) + |frame.payload|]
  }

  /** Header, hash and payload: what the checksum covers. */
  function Checked(frame: OwenFrame): seq<byte>
    requires Encodable(frame)
  {
    Header(frame) + WordBytes(frame.parameterHash) + frame.payload
  }

  function EncodeBody(frame: OwenFrame): seq<byte>
    requires Encodable(frame)
  {
    Checked(frame) + WordBytes(Crc16(Checked(frame)))
  }

  /** The bytes of an encodable frame on the wire. */
  function Wire(frame: OwenFrame): seq<byte>
    requires Encodable(frame)
  {
    [START_MARKER] + NibbleEncode(EncodeBody(frame)) + [END_MARKER]
  }

  function EncodeFrame(frame: OwenFrame): Result<seq<byte>> {
    if !(0 <= frame.address <= 0x7FF) then Err(ValueFault)
    else if |frame.payload| > MAX_PAYLOAD then Err(ValueFault)
    else Ok(Wire(frame))
  }

  predicate HasMarkers(raw: seq<byte>) {
    raw != [] && raw[0] == START_MARKER && raw[|raw| - 1] == END_MARKER
  }

  function Symbols(raw: seq<byte>): seq<byte>
    requires HasMarkers(raw)
  {
    raw[1..|raw| - 1]
  }

  /** Header, hash and payload read back from the bytes the checksum covers. */
  function Parse(checked: seq<byte>): Result<OwenFrame>
    requires |checked| >= 2
  {
    var block := checked[2..];
    if |block| != checked[1] % 16 + 2 then Err(ValueFault)
    else Ok(OwenFrame(
              checked[0] as int * 8 + checked[1] as int / 32,
              checked[1] / 16 % 2 == 1,
              WordAt(block, 0),
              block[2..]))
  }

  function DecodeBody(body: seq<byte>): Result<OwenFrame> {
    if |body| < 4 then Err(ValueFault)
    else if WordAt(body, |body| - 2) != Crc16(body[..|body| - 2]) then Err(ValueFault)
    else Parse(body[..|body| - 2])
  }

  function DecodeFrame(raw: seq<byte>): Result<OwenFrame> {
    if !HasMarkers(raw) then Err(ValueFault)
    else
      var body :- NibbleDecode(Symbols(raw));
      DecodeBody(body)
  }

  lemma ParseUndoesChecked(frame: OwenFrame)
    requires Encodable(frame)
    ensures Parse(Checked(frame)) == Ok(frame)
  {
    var checked := Checked(frame);
    var block := WordBytes(frame.parameterHash) + frame.payload;
    assert checked[..2] == Header(frame) && checked[2..] == block;
    assert block[2..] == frame.payload && WordAt(block, 0) == frame.parameterHash;
  }

  lemma CheckedUndoesParse(checked: seq<byte>)
    requires |checked| >= 2 && Parse(checked).Ok?
    ensures var frame := Parse(checked).value; Encodable(frame) && Checked(frame) == checked
  {
    var frame := Parse(checked).value;
    assert |frame.payload| == checked[1] % 16;
    assert frame.address / 8 == checked[0] && frame.address % 8 == checked[1] / 32;
    assert Header(frame) == checked[..2];
    assert WordBytes(frame.parameterHash) == checked[2..4];
    assert checked == checked[..2] + checked[2..4] + checked[4..];
  }

  lemma DecodeBodyUndoesEncode(frame: OwenFrame)
    requires Encodable(frame)
    ensures DecodeBody(EncodeBody(frame)) == Ok(frame)
  {
    var body, checked := EncodeBody(frame), Checked(frame);
    ParseUndoesChecked(frame);
    TrailerSplits(checked, Crc16(checked));
  }

  lemma TrailerSplits(checked: seq<byte>, crc: word)
    ensures var body := checked + WordBytes(crc);
            body[..|body| - 2] == checked && WordAt(body, |body| - 2) == crc
  {}

  lemma EncodeBodyUndoesDecode(body: seq<byte>)
    requires DecodeBody(body).Ok?
    ensures var frame := DecodeBody(body).value; Encodable(frame) && EncodeBody(frame) == body
  {
    hide Crc16, Parse, Checked;
    CheckedUndoesParse(body[..|body| - 2]);
    TrailerJoins(body);
  }

  lemma TrailerJoins(body: seq<byte>)
    requires |body| >= 2
    ensures body == body[..|body| - 2] + WordBytes(WordAt(body, |body| - 2))
  {}

  /** Decoding undoes encoding, for every 11-bit address, request flag, hash and payload
      of at most 15 bytes; any other frame is refused. */
  lemma DecodeUndoesEncode(frame: OwenFrame)
    ensures EncodeFrame(frame).Ok? <==> Encodable(frame)
    ensures Encodable(frame) ==> DecodeFrame(Wire(frame)) == Ok(frame)
  {
    if Encodable(frame) {
      var raw := Wire(frame);
      assert Symbols(raw) == NibbleEncode(EncodeBody(frame));
      NibbleDecodeUndoesEncode(EncodeBody(frame));
      DecodeBodyUndoesEncode(frame);
    }
  }

  /** Every byte string the decoder accepts is the encoding of what it decoded to, so the
      decoder accepts nothing but encodings. */
  lemma EncodeUndoesDecode(raw: seq<byte>)
    requires DecodeFrame(raw).Ok?
    ensures EncodeFrame(DecodeFrame(raw).value) == Ok(raw)
  {
    hide Crc16;
    NibbleEncodeUndoesDecode(Symbols(raw));
    EncodeBodyUndoesDecode(NibbleDecode(Symbols(raw)).value);
    assert raw == [raw[0]] + Symbols(raw) + [raw[|raw| - 1]];
  }

  /** A frame has 14 to 44 bytes: `#`, symbols `G` to `V`, and a carriage return, so neither
      terminator occurs before its last byte. */
  lemma FrameShape(frame: OwenFrame)
    requires Encodable(frame)
    ensures var raw := Wire(frame);
            && |raw| == 14 + 2 * |frame.payload| <= 44
            && raw[0] == 0x23 && raw[|raw| - 1] == 0x0D
            && forall i :: 0 < i < |raw| - 1 ==> 0x47 <= raw[i] <= 0x56
    ensures |frame.payload| <= 15 && 44 == MAX_FRAME_LENGTH
  {
    hide Crc16;
  }

  lemma {:induction false} NibblesAt(body: seq<byte>, k: nat)
    requires k < |body|
    ensures var encoded := NibbleEncode(body);
            0x47 <= encoded[2 * k] <= 0x56 && 0x47 <= encoded[2 * k + 1] <= 0x56
            && (encoded[2 * k] as int - 0x47) * 16 + (encoded[2 * k + 1] as int - 0x47) == body[k]
  {
    if k > 0 {
      NibblesAt(body[1..], k - 1);
      assert NibbleEncode(body)[2 * k] == NibbleEncode(body[1..])[2 * (k - 1)];
      assert NibbleEncode(body)[2 * k + 1] == NibbleEncode(body[1..])[2 * (k - 1) + 1];
    }
  }

  /** The byte that the symbols of pair `k` of a frame stand for, high nibble first. */
  function PairAt(raw: seq<byte>, k: nat): int
    requires 2 * k + 3 <= |raw|
  {
    var high: int, low: int := raw[2 * k + 1], raw[2 * k + 2];
    (high - 0x47) * 16 + (low - 0x47)
  }

  /** After the header a frame has the hash, the payload, and the checksum of everything
      before it, high bytes first. */
  lemma FrameLayout(frame: OwenFrame)
    requires Encodable(frame)
    ensures var raw, n := Wire(frame), |frame.payload|;
            && |raw| == 2 * (n + 6) + 2
            && PairAt(raw, 0) == frame.address / 8
            && PairAt(raw, 1) == frame.address % 8 * 32 + (if frame.request then 16 else 0) + n
            && PairAt(raw, 2) * 256 + PairAt(raw, 3) == frame.parameterHash
            && (forall k :: 0 <= k < n ==> PairAt(raw, k + 4) == frame.payload[k])
            && PairAt(raw, n + 4) * 256 + PairAt(raw, n + 5) == Crc16(Checked(frame))
  {
    hide Crc16, Wire, NibbleEncode;
    var raw, body, n := Wire(frame), EncodeBody(frame), |frame.payload|;
    assert raw == [0x23] + NibbleEncode(body) + [0x0D] by { WireIs(frame); }
    assert |body| == n + 6;
    forall k | 0 <= k < |body| ensures PairAt(raw, k) == body[k] {
      NibblesAt(body, k);
    }
    assert forall k :: 0 <= k < n ==> body[k + 4] == frame.payload[k];
    assert body[2] as int * 256 + body[3] as int == frame.parameterHash;
    assert body[n + 4] as int * 256 + body[n + 5] as int == Crc16(Checked(frame));
  }

  lemma WireIs(frame: OwenFrame)
    requires Encodable(frame)
    ensures Wire(frame) == [0x23] + NibbleEncode(EncodeBody(frame)) + [0x0D]
  {
    hide EncodeBody;
  }

  /** On the wire the address comes first with its eleven bits, most significant first, then
      the request flag, then the payload size in four bits. */
  lemma HeaderBits(frame: OwenFrame)
    requires Encodable(frame)
    ensures MessageBits(Header(frame)) ==
            NumberBits(frame.address, 11) + [frame.request] + NumberBits(|frame.payload|, 4)
  {
    hide MessageBits, NumberBits, Pow2;
    var high, low := frame.address / 8, frame.address % 8;
    var flag, size := if frame.request then 1 else 0, |frame.payload|;
    SmallPowers();
    assert frame.address == high * 8 + low && Header(frame) == [high, (low * 2 + flag) * 16 + size];
    BitsOfTwoBytes(high, (low * 2 + flag) * 16 + size);
    SplitBits(high, low, 8, 3);
    SplitBits(low * 2 + flag, size, 4, 4);
    FlagBit(low, frame.request);
  }

  lemma SmallPowers()
    ensures Pow2(3) == 8 && Pow2(4) == 16
  {
    assert Pow2(2) == 4;
  }

  lemma BitsOfTwoBytes(first: byte, second: byte)
    ensures MessageBits([first, second]) == NumberBits(first, 8) + NumberBits(second, 8)
  {
    hide NumberBits;
    assert [first, second][1..] == [second] && [second][1..] == [];
  }

  lemma FlagBit(n: nat, flag: bool)
    ensures NumberBits(n * 2 + (if flag then 1 else 0), 4) == NumberBits(n, 3) + [flag]
  {}

  /* ---------- Bursts are detected ---------- */

  function SymbolBits(symbols: seq<byte>): (bits: seq<bool>)
    requires forall i :: 0 <= i < |symbols| ==> IsSymbol(symbols[i])
    ensures |bits| == 4 * |symbols|
  {
    if symbols == [] then [] else NumberBits(NibbleOf(symbols[0]), 4) + SymbolBits(symbols[1..])
  }

  lemma {:induction false} SymbolBitsConcat(a: seq<byte>, b: seq<byte>)
    requires forall i :: 0 <= i < |a| ==> IsSymbol(a[i])
    requires forall i :: 0 <= i < |b| ==> IsSymbol(b[i])
    ensures SymbolBits(a + b) == SymbolBits(a) + SymbolBits(b)
    decreases |a|
  {
    if a == [] {
      assert a + b == b;
    } else {
      assert (a + b)[1..] == a[1..] + b;
      SymbolBitsConcat(a[1..], b);
    }
  }

  lemma {:induction false} SymbolBitsInjective(a: seq<byte>, b: seq<byte>)
    requires |a| == |b|
    requires forall i :: 0 <= i < |a| ==> IsSymbol(a[i]) && IsSymbol(b[i])
    requires SymbolBits(a) == SymbolBits(b)
    ensures a == b
  {
    if a != [] {
      var m, n := NibbleOf(a[0]), NibbleOf(b[0]);
      assert NumberBits(m, 4) == SymbolBits(a)[..4] == SymbolBits(b)[..4] == NumberBits(n, 4);
      PowersOfTwo();
      NumberBitsInjective(m, n, 4);
      assert SymbolBits(a[1..]) == SymbolBits(a)[4..] == SymbolBits(b)[4..] == SymbolBits(b[1..]);
      SymbolBitsInjective(a[1..], b[1..]);
      assert a == [a[0]] + a[1..] && b == [b[0]] + b[1..];
    }
  }

  lemma {:induction false} DecodedBits(symbols: seq<byte>)
    requires NibbleDecode(symbols).Ok?
    ensures forall i :: 0 <= i < |symbols| ==> IsSymbol(symbols[i])
    ensures SymbolBits(symbols) == MessageBits(NibbleDecode(symbols).value)
    decreases |symbols|
  {
    NibbleDecodeOkExactlyWhen(symbols);
    if symbols != [] {
      var high, low, rest := NibbleOf(symbols[0]), NibbleOf(symbols[1]), symbols[2..];
      DecodedBits(rest);
      PowersOfTwo();
      SplitBits(high, low, 4, 4);
      assert symbols[1..][1..] == rest;
      assert NibbleDecode(symbols).value[1..] == NibbleDecode(rest).value;
    }
  }

  lemma {:induction false} MessageBitsConcat(a: seq<byte>, b: seq<byte>)
    ensures MessageBits(a + b) == MessageBits(a) + MessageBits(b)
    decreases |a|
  {
    if a == [] {
      assert a + b == b;
    } else {
      assert (a + b)[1..] == a[1..] + b;
      MessageBitsConcat(a[1..], b);
    }
  }

  lemma TwoByteMessage(high: byte, low: byte)
    ensures MessageBits([high, low]) == NumberBits(high * 0x100 + low, 16)
  {
    PowersOfTwo();
    SplitBits(high, low, 8, 8);
    assert [high, low][1..] == [low] && [low][1..] == [];
  }

  /** An accepted body leaves the checksum register empty. */
  lemma AcceptedBodyClearsRegister(body: seq<byte>)
    requires DecodeBody(body).Ok?
    ensures Feed(MessageBits(body), 0) == 0
  {
    hide Crc16;
    var checked, trailer := body[..|body| - 2], [body[|body| - 2], body[|body| - 1]];
    assert body == checked + trailer;
    MessageBitsConcat(checked, trailer);
    TwoByteMessage(trailer[0], trailer[1]);
    ZeroResidue(checked, WordAt(body, |body| - 2));
  }

  lemma AcceptedSymbolsClearRegister(raw: seq<byte>)
    requires DecodeFrame(raw).Ok?
    ensures forall i :: 0 <= i < |Symbols(raw)| ==> IsSymbol(Symbols(raw)[i])
    ensures Feed(SymbolBits(Symbols(raw)), 0) == 0
  {
    DecodedBits(Symbols(raw));
    AcceptedBodyClearsRegister(NibbleDecode(Symbols(raw)).value);
  }

  lemma BurstBreaksResidue(head: seq<byte>, a: seq<byte>, b: seq<byte>, tail: seq<byte>)
    requires |a| == |b| <= 4 && a != b
    requires forall i :: 0 <= i < |head + a + tail| ==> IsSymbol((head + a + tail)[i])
    requires forall i :: 0 <= i < |head + b + tail| ==> IsSymbol((head + b + tail)[i])
    ensures Feed(SymbolBits(head + a + tail), 0) != Feed(SymbolBits(head + b + tail), 0)
  {
    assert forall i :: 0 <= i < |head| ==> head[i] == (head + a + tail)[i];
    assert forall i :: 0 <= i < |a| ==> a[i] == (head + a + tail)[|head| + i] && b[i] == (head + b + tail)[|head| + i];
    assert forall i :: 0 <= i < |tail| ==> tail[i] == (head + a + tail)[|head| + |a| + i];
    SymbolBitsConcat(head, a);
    SymbolBitsConcat(head, b);
    SymbolBitsConcat(head + a, tail);
    SymbolBitsConcat(head + b, tail);
    if SymbolBits(a) == SymbolBits(b) {
      SymbolBitsInjective(a, b);
    }
    BurstChangesRegister(SymbolBits(head), SymbolBits(a), SymbolBits(b), SymbolBits(tail), 0);
  }

  predicate DiffersOnlyIn(raw: seq<byte>, altered: seq<byte>, start: nat, end: nat) {
    && |altered| == |raw| && altered != raw
    && forall i :: 0 <= i < |raw| && !(start <= i < end) ==> altered[i] == raw[i]
  }

  lemma SplitAtWindow(raw: seq<byte>, altered: seq<byte>, start: nat)
    requires HasMarkers(raw) && 1 <= start && start + 4 <= |raw| - 1
    requires DiffersOnlyIn(raw, altered, start, start + 4)
    ensures HasMarkers(altered) && |altered| == |raw|
    ensures var head, tail := raw[1..start], raw[start + 4..|raw| - 1];
            && Symbols(raw) == head + raw[start..start + 4] + tail
            && Symbols(altered) == head + altered[start..start + 4] + tail
    ensures raw[start..start + 4] != altered[start..start + 4]
  {
    var a, b := raw[start..start + 4], altered[start..start + 4];
    assert raw == raw[..start] + a + raw[start + 4..];
    assert altered == raw[..start] + b + raw[start + 4..];
  }

  lemma DecodeFaults(raw: seq<byte>)
    ensures DecodeFrame(raw).Ok? ==> HasMarkers(raw)
    ensures DecodeFrame(raw).Err? ==> DecodeFrame(raw) == Err(ValueFault)
  {
    hide Crc16;
  }

  /** Altering symbols of an accepted frame only inside four consecutive positions between
      the markers, checksum and header symbols included, always makes it rejected. */
  lemma BurstDetected(raw: seq<byte>, altered: seq<byte>, start: nat)
    requires DecodeFrame(raw).Ok?
    requires 1 <= start && start + 4 <= |raw| - 1
    requires DiffersOnlyIn(raw, altered, start, start + 4)
    ensures DecodeFrame(altered) == Err(ValueFault)
  {
    hide *;
    DecodeFaults(raw);
    DecodeFaults(altered);
    if DecodeFrame(altered).Ok? {
      AcceptedSymbolsClearRegister(raw);
      AcceptedSymbolsClearRegister(altered);
      SplitAtWindow(raw, altered, start);
      BurstBreaksResidue(raw[1..start], raw[start..start + 4], altered[start..start + 4], raw[start + 4..|raw| - 1]);
    }
  }

  /* ---------- Truncations are rejected ---------- */

  lemma {:induction false} NibbleDecodePrefix(symbols: seq<byte>, pairs: nat)
    requires NibbleDecode(symbols).Ok? && 2 * pairs <= |symbols|
    ensures NibbleDecode(symbols[..2 * pairs]) == Ok(NibbleDecode(symbols).value[..pairs])
    decreases pairs
  {
    if pairs > 0 {
      NibbleDecodePrefix(symbols[2..], pairs - 1);
      assert symbols[..2 * pairs][2..] == symbols[2..][..2 * (pairs - 1)];
      assert symbols[..2 * pairs][0] == symbols[0] && symbols[..2 * pairs][1] == symbols[1];
      var first := [NibbleDecode(symbols).value[0]];
      assert NibbleDecode(symbols).value == first + NibbleDecode(symbols[2..]).value;
      assert NibbleDecode(symbols).value[..pairs] == first + NibbleDecode(symbols[2..]).value[..pairs - 1];
    }
  }

  lemma BodyPrefixRejected(body: seq<byte>, length: nat)
    requires DecodeBody(body).Ok? && length < |body|
    ensures DecodeBody(body[..length]) == Err(ValueFault)
  {
    hide Crc16, WordAt;
    if length >= 4 {
      var checked, cut := body[..|body| - 2], body[..length][..length - 2];
      assert cut[1] == checked[1];
      assert |cut| < |checked|;
    }
  }

  /** A frame cut short is never taken for another frame, even with its terminator
      restored: the size in the header no longer fits. */
  lemma TruncationRejected(raw: seq<byte>, length: nat)
    requires DecodeFrame(raw).Ok? && 1 <= length < |raw| - 1
    ensures DecodeFrame(raw[..length] + [END_MARKER]) == Err(ValueFault)
  {
    hide Crc16, DecodeBody;
    var cut := raw[..length] + [END_MARKER];
    var symbols, kept := Symbols(raw), Symbols(raw)[..length - 1];
    assert Symbols(cut) == kept;
    NibbleDecodeOkExactlyWhen(symbols);
    NibbleDecodeOkExactlyWhen(kept);
    if |kept| % 2 == 0 {
      var pairs := |kept| / 2;
      assert kept == symbols[..2 * pairs];
      NibbleDecodePrefix(symbols, pairs);
      BodyPrefixRejected(NibbleDecode(symbols).value, pairs);
    }
  }
}
