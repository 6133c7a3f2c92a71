/** Building the request of an exchange. */
module Requests {
  import opened Core
  import opened Crc
  import opened Frame
  import opened ParameterHash
  import opened Config

  /** Eight-bit addresses take the upper bits of the eleven on the wire. */
  function ExpandNetworkAddress(address: int, addressBits: int): Result<int> {
    if addressBits == 11 then (if 0 <= address <= 0x7FF then Ok(address) else Err(ValueFault))
    else if addressBits == 8 then (if 0 <= address <= 0xFF then Ok(address * 8) else Err(ValueFault))
    else Err(ValueFault)
  }

  function IndexBytes(index: Option<int>): Result<seq<byte>> {
    if index.None? then Ok([])
    else if 0 <= index.value <= 0xFFFF then Ok(WordBytes(index.value))
    else Err(ValueFault)
  }

  function BuildReadFrame(address: int, name: string, index: Option<int>): Result<seq<byte>> {
    var payload :- IndexBytes(index);
    var hash :- HashParameterName(name);
    EncodeFrame(OwenFrame(address, true, hash, payload))
  }

  function BuildWriteFrame(address: int, name: string, payload: seq<byte>, index: Option<int>): Result<seq<byte>> {
    var suffix :- IndexBytes(index);
    var hash :- HashParameterName(name);
    EncodeFrame(OwenFrame(address, false, hash, payload + suffix))
  }

  /** What a poll of a point puts on its line. */
  function PollRequest(p: PointConfig, addressBits: int): Result<seq<byte>> {
    var address :- ExpandNetworkAddress(p.address, addressBits);
    BuildReadFrame(address, p.parameter, p.parameterIndex)
  }

  function WriteRequest(p: PointConfig, addressBits: int, payload: seq<byte>): Result<seq<byte>> {
    var address :- ExpandNetworkAddress(p.address, addressBits);
    BuildWriteFrame(address, p.parameter, payload, p.parameterIndex)
  }

  /** Addresses stay within eleven bits, and no two of one width share a wire address. */
  lemma ExpandedAddress(a: int, b: int, addressBits: int)
    requires ExpandNetworkAddress(a, addressBits).Ok?
    ensures 0 <= ExpandNetworkAddress(a, addressBits).value <= 0x7FF
    ensures ExpandNetworkAddress(a, addressBits) == ExpandNetworkAddress(b, addressBits) ==> a == b
  {}

  /** On the wire an 8-bit address stands in the upper eight of the eleven address bits, the
      lower three being zero; an 11-bit address takes them all. */
  lemma AddressOnTheWire(p: PointConfig, addressBits: int)
    requires PollRequest(p, addressBits).Ok?
    ensures p.address >= 0 && HasMarkers(PollRequest(p, addressBits).value)
    ensures var symbols := Symbols(PollRequest(p, addressBits).value);
            && |symbols| >= 4 && (forall i :: 0 <= i < |symbols| ==> IsSymbol(symbols[i]))
            && SymbolBits(symbols)[..12] ==
               (if addressBits == 8 then NumberBits(p.address, 8) + [false, false, false] else NumberBits(p.address, 11)) + [true]
  {
    hide HashParameterName, Wire, DecodeFrame, IndexBytes, NumberBits, MessageBits, SymbolBits;
    RequestDecodes(p, addressBits);
    var raw := PollRequest(p, addressBits).value;
    var frame := OwenFrame(ExpandNetworkAddress(p.address, addressBits).value, true,
                           HashParameterName(p.parameter).value, IndexBytes(p.parameterIndex).value);
    FirstBits(frame);
    HeaderBits(frame);
    if addressBits == 8 {
      AddressTimesEight(p.address);
    }
  }

  /** The first sixteen bits of a frame are its header's. */
  lemma FirstBits(frame: OwenFrame)
    requires Encodable(frame)
    ensures HasMarkers(Wire(frame))
    ensures var symbols := Symbols(Wire(frame));
            && |symbols| >= 4 && (forall i :: 0 <= i < |symbols| ==> IsSymbol(symbols[i]))
            && |SymbolBits(symbols)| >= 16 && |MessageBits(Header(frame))| == 16
            && SymbolBits(symbols)[..16] == MessageBits(Header(frame))
  {
    hide Crc16, MessageBits, SymbolBits;
    var body := EncodeBody(frame);
    assert Symbols(Wire(frame)) == NibbleEncode(body);
    NibbleDecodeUndoesEncode(body);
    DecodedBits(NibbleEncode(body));
    assert body == body[..2] + body[2..] && body[..2] == Header(frame);
    MessageBitsConcat(Header(frame), body[2..]);
    BitsOfTwoBytes(Header(frame)[0], Header(frame)[1]);
  }

  lemma AddressTimesEight(address: nat)
    ensures NumberBits(address * 8, 11) == NumberBits(address, 8) + [false, false, false]
  {
    hide NumberBits, Pow2;
    SmallPowers();
    SplitBits(address, 0, 8, 3);
    ThreeZeros();
  }

  lemma ThreeZeros()
    ensures NumberBits(0, 3) == [false, false, false]
  {
    assert NumberBits(0, 1) == [false];
    assert NumberBits(0, 2) == [false, false];
  }

  lemma IndexIsReadBack(a: Option<int>, b: Option<int>)
    requires IndexBytes(a).Ok? && IndexBytes(a) == IndexBytes(b)
    ensures a == b
  {
    if a.Some? && b.Some? {
      assert WordAt(WordBytes(a.value), 0) == a.value && WordAt(WordBytes(b.value), 0) == b.value;
    }
  }

  /** A point accepted by the validator can be polled exactly when its address fits the
      line's address width and its name can be hashed; the validator checks neither. */
  lemma PollableExactlyWhen(config: GatewayConfig, i: nat, addressBits: int)
    requires Accepts(config) && i < |config.points| && (addressBits == 8 || addressBits == 11)
    ensures var p := config.points[i];
            PollRequest(p, addressBits).Ok? <==>
            HashParameterName(p.parameter).Ok? && (addressBits == 8 ==> p.address <= 0xFF)
  {
    hide HashParameterName, Wire;
    assert PointFieldsOk(BusNames(config.buses), config.points[i]);
    if IndexBytes(config.points[i].parameterIndex).Ok? {
      assert |IndexBytes(config.points[i].parameterIndex).value| <= 2;
    }
  }

  /** Requests are unambiguous: equal requests on one line ask for the same address, hash
      and index, and a read is never taken for a write. */
  lemma RequestsAreUnambiguous(p: PointConfig, q: PointConfig, addressBits: int, payload: seq<byte>)
    requires PollRequest(p, addressBits).Ok?
    ensures PollRequest(p, addressBits) == PollRequest(q, addressBits) ==>
              p.address == q.address && p.parameterIndex == q.parameterIndex
              && HashParameterName(p.parameter) == HashParameterName(q.parameter)
    ensures PollRequest(p, addressBits) != WriteRequest(q, addressBits, payload)
  {
    hide HashParameterName, Wire, DecodeFrame, ExpandNetworkAddress, IndexBytes;
    RequestDecodes(p, addressBits);
    if PollRequest(q, addressBits).Ok? {
      RequestDecodes(q, addressBits);
      ExpandedAddress(p.address, q.address, addressBits);
      if PollRequest(p, addressBits) == PollRequest(q, addressBits) {
        IndexIsReadBack(p.parameterIndex, q.parameterIndex);
      }
    }
    if WriteRequest(q, addressBits, payload).Ok? {
      WriteDecodes(q, addressBits, payload);
    }
  }

  /** An index is sent as two bytes, high byte first. */
  lemma IndexOnTheWire(index: Option<int>)
    ensures IndexBytes(index).Ok? <==> index.None? || 0 <= index.value <= 65535
    ensures IndexBytes(index).Ok? ==>
              IndexBytes(index).value == if index.None? then [] else [index.value / 256, index.value % 256]
  {}

  lemma RequestDecodes(p: PointConfig, addressBits: int)
    requires PollRequest(p, addressBits).Ok?
    ensures ExpandNetworkAddress(p.address, addressBits).Ok? && HashParameterName(p.parameter).Ok?
    ensures p.parameterIndex.Some? ==> 0 <= p.parameterIndex.value <= 65535
    ensures DecodeFrame(PollRequest(p, addressBits).value) ==
            Ok(OwenFrame(ExpandNetworkAddress(p.address, addressBits).value, true,
                         HashParameterName(p.parameter).value,
                         if p.parameterIndex.None? then [] else [p.parameterIndex.value / 256, p.parameterIndex.value % 256]))
  {
    hide HashParameterName, Wire, DecodeFrame, ExpandNetworkAddress, IndexBytes;
    IndexOnTheWire(p.parameterIndex);
    DecodeUndoesEncode(OwenFrame(ExpandNetworkAddress(p.address, addressBits).value, true,
                                 HashParameterName(p.parameter).value, IndexBytes(p.parameterIndex).value));
  }

  /** A write carries the payload and then the index, within the fifteen bytes of a frame. */
  lemma WriteDecodes(p: PointConfig, addressBits: int, payload: seq<byte>)
    requires WriteRequest(p, addressBits, payload).Ok?
    ensures ExpandNetworkAddress(p.address, addressBits).Ok? && HashParameterName(p.parameter).Ok?
    ensures p.parameterIndex.Some? ==> 0 <= p.parameterIndex.value <= 65535
    ensures |payload| + (if p.parameterIndex.None? then 0 else 2) <= 15
    ensures DecodeFrame(WriteRequest(p, addressBits, payload).value) ==
            Ok(OwenFrame(ExpandNetworkAddress(p.address, addressBits).value, false,
                         HashParameterName(p.parameter).value,
                         payload + if p.parameterIndex.None? then []
                                   else [p.parameterIndex.value / 256, p.parameterIndex.value % 256]))
  {
    hide HashParameterName, Wire, DecodeFrame, ExpandNetworkAddress, IndexBytes;
    IndexOnTheWire(p.parameterIndex);
    DecodeUndoesEncode(OwenFrame(ExpandNetworkAddress(p.address, addressBits).value, false,
                                 HashParameterName(p.parameter).value, payload + IndexBytes(p.parameterIndex).value));
  }
}
