/** Reassembly of a reply from the fragments a serial line delivers, and repair of a lost
    carriage return. */
module LineReader {
  import opened Core
  import opened Frame

  const SYN: byte := 0x16
  const READ_LIMIT := 128

  /** The port as the reader sees it: each read is answered from the next fragment, an
      empty fragment is a read that timed out, and after the last one the line is silent. */
  class SerialPort {
    var timeout: real
    var fragments: seq<seq<byte>>

    constructor (timeout: real, fragments: seq<seq<byte>>)
      ensures this.timeout == timeout && this.fragments == fragments
    {
      this.timeout, this.fragments := timeout, fragments;
    }

    function InWaiting(): nat
      reads this`fragments
    {
      if fragments == [] then 0 else |fragments[0]|
    }

    method Read(size: nat) returns (chunk: seq<byte>)
      requires size >= 1
      modifies this`fragments
      ensures chunk == FirstChunk(old(fragments), size)
      ensures fragments == AfterChunk(old(fragments), size)
    {
      chunk := FirstChunk(fragments, size);
      fragments := AfterChunk(fragments, size);
    }
  }

  function FirstChunk(fragments: seq<seq<byte>>, size: nat): seq<byte> {
    if fragments == [] then []
    else if |fragments[0]| <= size then fragments[0]
    else fragments[0][..size]
  }

  function AfterChunk(fragments: seq<seq<byte>>, size: nat): seq<seq<byte>> {
    if fragments == [] then []
    else if |fragments[0]| <= size then fragments[1..]
    else [fragments[0][size..]] + fragments[1..]
  }

  function Min(x: real, y: real): real { if x <= y then x else y }
  function Max(x: real, y: real): real { if x >= y then x else y }

  function InterByteTimeout(timeoutSeconds: real): real {
    if timeoutSeconds <= 0.0 then 0.05
    else Min(Max(timeoutSeconds / 5.0, 0.02), 0.2)
  }

  predicate Ended(response: seq<byte>) {
    response != [] && (response[|response| - 1] == END_MARKER || response[|response| - 1] == SYN)
  }

  /** What the loop returns from a state with `silences` empty reads in a row. */
  function Collected(response: seq<byte>, fragments: seq<seq<byte>>, silences: nat): seq<byte>
    decreases |fragments|
  {
    if |response| >= READ_LIMIT || Ended(response) || fragments == [] then response
    else if fragments[0] != [] then Collected(response + fragments[0], fragments[1..], 0)
    else if silences >= 1 then response
    else Collected(response, fragments[1..], silences + 1)
  }

  function Response(fragments: seq<seq<byte>>): seq<byte> {
    var first := FirstChunk(fragments, 1);
    if first == [] then [] else Collected(first, AfterChunk(fragments, 1), 0)
  }

  method ReadOvenResponse(port: SerialPort, timeoutSeconds: real) returns (response: seq<byte>)
    modifies port
    ensures response == Response(old(port.fragments))
    ensures port.timeout == old(port.timeout)
  {
    var originalTimeout := port.timeout;
    var interByteTimeout := InterByteTimeout(timeoutSeconds);
    var emptyReads := 0;
    port.timeout := timeoutSeconds;
    response := port.Read(1);
    if response == [] {
      port.timeout := originalTimeout;
      return;
    }
    port.timeout := interByteTimeout;
    while |response| < READ_LIMIT
      invariant emptyReads <= 1
      invariant Collected(response, port.fragments, emptyReads) == Response(old(port.fragments))
      decreases READ_LIMIT - |response|, 2 - emptyReads
    {
      if Ended(response) {
        port.timeout := originalTimeout;
        return;
      }
      var waiting := port.InWaiting();
      var chunk := port.Read(if waiting >= 1 then waiting else 1);
      if chunk != [] {
        response := response + chunk;
        emptyReads := 0;
      } else {
        emptyReads := emptyReads + 1;
        if emptyReads >= 2 {
          port.timeout := originalTimeout;
          return;
        }
      }
    }
    port.timeout := originalTimeout;
  }

  function NormalizeFrameResponse(response: seq<byte>): seq<byte> {
    if response != [] && response[0] == START_MARKER && response[|response| - 1] != END_MARKER
    then response + [END_MARKER]
    else response
  }

  /** The receiving half of an exchange. */
  function Receive(fragments: seq<seq<byte>>): Result<OwenFrame> {
    var response := Response(fragments);
    if response == [] then Err(Timeout) else DecodeFrame(NormalizeFrameResponse(response))
  }

  /** The receiving half of a write: a reply that is no frame is an opaque acknowledgement. */
  function ReceiveAck(fragments: seq<seq<byte>>): Result<Option<OwenFrame>> {
    var response := Response(fragments);
    if response == [] then Err(Timeout)
    else
      match DecodeFrame(NormalizeFrameResponse(response))
      case Ok(frame) => Ok(Some(frame))
      case Err(_) => Ok(None)
  }

  /** Only what starts like a frame and is not closed gets a carriage return; anything else
      is left as it is. */
  lemma ClosesOpenFrames(response: seq<byte>)
    ensures NormalizeFrameResponse(response) ==
            if |response| >= 1 && response[0] == 0x23 && response[|response| - 1] != 0x0D then response + [0x0D] else response
  {}

  /* ---------- Which deliveries of a frame are understood ---------- */

  function Flatten(fragments: seq<seq<byte>>): seq<byte> {
    if fragments == [] then [] else fragments[0] + Flatten(fragments[1..])
  }

  /** After `n` more fragments the reader has what it waits for: 128 bytes, a carriage return or
      0x16, a second empty read in a row, or nothing more to come. */
  predicate Stops(response: seq<byte>, fragments: seq<seq<byte>>, silences: nat, n: nat)
    requires n <= |fragments|
  {
    var soFar := response + Flatten(fragments[..n]);
    || |soFar| >= 128
    || (soFar != [] && soFar[|soFar| - 1] in {0x0D, 0x16})
    || n == |fragments|
    || (fragments[n] == [] && if n == 0 then silences >= 1 else fragments[n - 1] == [])
  }

  lemma StopsLater(response: seq<byte>, fragments: seq<seq<byte>>, silences: nat, n: nat)
    requires n < |fragments| && !Stops(response, fragments, silences, 0)
    ensures var next := if fragments[0] != [] then 0 else silences + 1;
            Stops(response + fragments[0], fragments[1..], next, n) == Stops(response, fragments, silences, n + 1)
  {
    var rest := fragments[1..];
    assert fragments[..n + 1] == [fragments[0]] + rest[..n];
    assert Flatten(fragments[..n + 1]) == fragments[0] + Flatten(rest[..n]);
    assert response + fragments[0] + Flatten(rest[..n]) == response + Flatten(fragments[..n + 1]);
  }

  /** Whatever is delivered, the reader takes whole fragments up to the first place at which it
      stops. */
  lemma {:induction false} CollectedExactly(response: seq<byte>, fragments: seq<seq<byte>>, silences: nat) returns (n: nat)
    requires silences <= 1
    ensures n <= |fragments| && Collected(response, fragments, silences) == response + Flatten(fragments[..n])
    ensures Stops(response, fragments, silences, n)
    ensures forall m :: 0 <= m < n ==> !Stops(response, fragments, silences, m)
    decreases |fragments|
  {
    assert fragments[..0] == [] && response + Flatten([]) == response;
    if Stops(response, fragments, silences, 0) {
      n := 0;
    } else {
      hide Stops;
      var next, rest := if fragments[0] != [] then 0 else silences + 1, fragments[1..];
      assert next <= 1 by { FirstSilence(response, fragments, silences); }
      var k := CollectedExactly(response + fragments[0], rest, next);
      n := k + 1;
      assert fragments[..n] == [fragments[0]] + rest[..k];
      StopsLater(response, fragments, silences, k);
      assert response + fragments[0] + Flatten(rest[..k]) == response + Flatten(fragments[..n]);
      assert Collected(response, fragments, silences) == Collected(response + fragments[0], rest, next) by {
        GoesOn(response, fragments, silences);
      }
      forall m | 0 <= m < n ensures !Stops(response, fragments, silences, m) {
        if m > 0 {
          StopsLater(response, fragments, silences, m - 1);
        }
      }
    }
  }

  lemma FirstSilence(response: seq<byte>, fragments: seq<seq<byte>>, silences: nat)
    requires !Stops(response, fragments, silences, 0)
    ensures fragments != [] && (fragments[0] == [] ==> silences == 0)
  {}

  lemma GoesOn(response: seq<byte>, fragments: seq<seq<byte>>, silences: nat)
    requires !Stops(response, fragments, silences, 0) && silences <= 1 && fragments != []
    ensures Collected(response, fragments, silences) ==
            Collected(response + fragments[0], fragments[1..], if fragments[0] != [] then 0 else silences + 1)
  {
    assert fragments[..0] == [] && response + Flatten([]) == response;
    assert fragments[0] == [] ==> response + fragments[0] == response;
  }

  /** Between bytes the reader waits a fifth of the timeout, but from 20 to 200 milliseconds. */
  lemma InterByteTimeoutIs(timeoutSeconds: real)
    requires timeoutSeconds > 0.0
    ensures var t := InterByteTimeout(timeoutSeconds);
            && 0.02 <= t <= 0.2
            && (0.1 <= timeoutSeconds <= 1.0 ==> 5.0 * t == timeoutSeconds)
            && (timeoutSeconds <= 0.1 ==> t == 0.02) && (timeoutSeconds >= 1.0 ==> t == 0.2)
  {}

  /** Two empty reads in a row, or the end of the delivery, come before `needed` bytes. */
  predicate Starved(fragments: seq<seq<byte>>, needed: int, silences: nat)
    decreases |fragments|
  {
    needed > 0 &&
    if fragments == [] then true
    else if fragments[0] != [] then Starved(fragments[1..], needed - |fragments[0]|, 0)
    else silences >= 1 || Starved(fragments[1..], needed, silences + 1)
  }

  predicate FrameShaped(raw: seq<byte>) {
    && 14 <= |raw| <= MAX_FRAME_LENGTH
    && raw[0] == START_MARKER && raw[|raw| - 1] == END_MARKER
    && forall i :: 0 < i < |raw| - 1 ==> IsSymbol(raw[i])
  }

  lemma PrefixOfFrameEnds(raw: seq<byte>, response: seq<byte>)
    requires FrameShaped(raw) && response != [] && response <= raw
    ensures Ended(response) <==> response == raw
    ensures |response| < READ_LIMIT
  {
    assert response[|response| - 1] == raw[|response| - 1];
  }

  /** From any prefix of a frame on, the loop returns a prefix of the frame: at least all
      its symbols exactly when it is not starved of them. */
  lemma {:induction false} CollectedFromFrame(raw: seq<byte>, response: seq<byte>, fragments: seq<seq<byte>>,
                                              silences: nat)
    requires FrameShaped(raw) && response != [] && response + Flatten(fragments) <= raw
    ensures var r := Collected(response, fragments, silences);
            && response <= r <= raw
            && (|r| >= |raw| - 1 <==> !Starved(fragments, |raw| - 1 - |response|, silences))
    decreases |fragments|
  {
    assert response <= raw by { assert response <= response + Flatten(fragments); }
    PrefixOfFrameEnds(raw, response);
    if response != raw && fragments != [] {
      var next := fragments[1..];
      if fragments[0] != [] {
        assert response + Flatten(fragments) == (response + fragments[0]) + Flatten(next);
        CollectedFromFrame(raw, response + fragments[0], next, 0);
        assert response <= response + fragments[0];
      } else if silences < 1 {
        assert Flatten(fragments) == Flatten(next);
        CollectedFromFrame(raw, response, next, silences + 1);
      }
    }
  }

  lemma NormalizedPrefix(raw: seq<byte>, response: seq<byte>)
    requires FrameShaped(raw) && response != [] && response <= raw
    ensures NormalizeFrameResponse(response) ==
            if |response| < |raw| then raw[..|response|] + [END_MARKER] else raw
  {
    assert response == raw[..|response|];
    assert response[|response| - 1] == raw[|response| - 1];
  }

  lemma DecodedPrefix(frame: OwenFrame, response: seq<byte>)
    requires Encodable(frame) && response != [] && response <= Wire(frame)
    ensures var raw := Wire(frame);
            DecodeFrame(NormalizeFrameResponse(response)) ==
            if |response| >= |raw| - 1 then Ok(frame) else Err(ValueFault)
  {
    hide DecodeFrame, Wire;
    var raw := Wire(frame);
    FrameShape(frame);
    DecodeUndoesEncode(frame);
    NormalizedPrefix(raw, response);
    if |response| == |raw| - 1 {
      assert raw[..|response|] + [END_MARKER] == raw;
    } else if |response| < |raw| - 1 {
      TruncationRejected(raw, |response|);
    }
  }

  lemma AfterFirstByte(fragments: seq<seq<byte>>)
    requires fragments != [] && fragments[0] != []
    ensures FirstChunk(fragments, 1) == [fragments[0][0]]
    ensures Flatten(fragments) == [fragments[0][0]] + Flatten(AfterChunk(fragments, 1))
  {
    var first := fragments[0];
    assert first == [first[0]] + first[1..];
    if |first| > 1 {
      assert AfterChunk(fragments, 1)[1..] == fragments[1..];
      assert Flatten(fragments) == [first[0]] + (first[1..] + Flatten(fragments[1..]));
    }
  }

  lemma StarvedAfterFirstByte(fragments: seq<seq<byte>>, needed: int)
    requires fragments != [] && fragments[0] != [] && needed > 1
    ensures Starved(AfterChunk(fragments, 1), needed - 1, 0) <==> Starved(fragments, needed, 0)
  {
    if |fragments[0]| > 1 {
      assert AfterChunk(fragments, 1)[1..] == fragments[1..];
      assert needed - 1 - |fragments[0][1..]| == needed - |fragments[0]|;
    }
  }

  /** However a frame, whole or cut short anywhere, is split into fragments: the exchange
      yields exactly that frame when its symbols arrive without two empty reads in a row,
      with or without the carriage return, and otherwise a fault, never another frame. */
  lemma ReceiveExactlyWhenNotStarved(frame: OwenFrame, fragments: seq<seq<byte>>)
    requires Encodable(frame) && Flatten(fragments) <= Wire(frame)
    ensures var raw := Wire(frame);
            Receive(fragments) ==
            if fragments == [] || fragments[0] == [] then Err(Timeout)
            else if Starved(fragments, |raw| - 1, 0) then Err(ValueFault)
            else Ok(frame)
  {
    hide Wire, DecodeFrame, NormalizeFrameResponse, Collected, Starved, Flatten, AfterChunk;
    var raw := Wire(frame);
    FrameShape(frame);
    if fragments != [] && fragments[0] != [] {
      AfterFirstByte(fragments);
      StarvedAfterFirstByte(fragments, |raw| - 1);
      CollectedFromFrame(raw, FirstChunk(fragments, 1), AfterChunk(fragments, 1), 0);
      DecodedPrefix(frame, Response(fragments));
    }
  }

  predicate Silent(fragments: seq<seq<byte>>) { fragments == [] || fragments[0] == [] }

  /** Whatever arrives, a write's reply is a fault exactly when the line stays silent, and a
      frame exactly when a read would have taken the same bytes for that frame; all else
      passes as a reply that is no frame. */
  lemma AckExactly(fragments: seq<seq<byte>>)
    ensures ReceiveAck(fragments).Err? <==> Silent(fragments)
    ensures ReceiveAck(fragments).Err? <==> Receive(fragments) == Err(Timeout)
    ensures forall frame :: ReceiveAck(fragments) == Ok(Some(frame)) <==> Receive(fragments) == Ok(frame)
  {
    hide Collected, NormalizeFrameResponse, AfterChunk;
    var first := FirstChunk(fragments, 1);
    if first != [] {
      CollectedGrows(first, AfterChunk(fragments, 1), 0);
      DecodingNeverTimesOut(NormalizeFrameResponse(Response(fragments)));
    }
  }

  lemma {:induction false} CollectedGrows(response: seq<byte>, fragments: seq<seq<byte>>, silences: nat)
    ensures |Collected(response, fragments, silences)| >= |response|
    decreases |fragments|
  {
    hide Ended;
    if fragments != [] {
      CollectedGrows(response + fragments[0], fragments[1..], 0);
      CollectedGrows(response, fragments[1..], silences + 1);
    }
  }

  lemma DecodingNeverTimesOut(raw: seq<byte>)
    ensures DecodeFrame(raw) != Err(Timeout)
  {}

  /** Of a write's reply frame the gateway sees all or nothing: the frame when its symbols
      arrive, and a reply without content when it is cut short. */
  lemma AckOfFrame(frame: OwenFrame, fragments: seq<seq<byte>>)
    requires Encodable(frame) && Flatten(fragments) <= Wire(frame)
    ensures ReceiveAck(fragments) ==
            if Silent(fragments) then Err(Timeout)
            else if Starved(fragments, |Wire(frame)| - 1, 0) then Ok(None)
            else Ok(Some(frame))
  {
    hide Wire, Receive, Starved, Flatten;
    AckExactly(fragments);
    ReceiveExactlyWhenNotStarved(frame, fragments);
    AckFaults(fragments);
  }

  lemma AckFaults(fragments: seq<seq<byte>>)
    ensures ReceiveAck(fragments).Err? ==> ReceiveAck(fragments) == Err(Timeout)
  {
    hide DecodeFrame, NormalizeFrameResponse, Response;
  }

  /** In particular a complete delivery with pauses of at most one empty read is understood
      whether or not the adapter drops the carriage return. */
  lemma CarriageReturnMayBeLost(frame: OwenFrame, fragments: seq<seq<byte>>)
    requires Encodable(frame)
    requires var raw := Wire(frame);
             Flatten(fragments) == raw || Flatten(fragments) == raw[..|raw| - 1]
    requires fragments != [] && fragments[0] != []
    requires forall i :: 0 <= i < |fragments| - 1 && fragments[i] == [] && fragments[i + 1] == [] ==>
               Flatten(fragments[i..]) == []
    ensures Receive(fragments) == Ok(frame)
  {
    hide Wire, DecodeFrame, Receive, Flatten, Starved;
    var raw := Wire(frame);
    FrameShape(frame);
    ReceiveExactlyWhenNotStarved(frame, fragments);
    NotStarvedByShortPauses(fragments, 0, |raw| - 1);
    assert fragments[0..] == fragments;
  }

  lemma {:induction false} NotStarvedByShortPauses(fragments: seq<seq<byte>>, from: nat, needed: int)
    requires from <= |fragments|
    requires forall i :: 0 <= i < |fragments| - 1 && fragments[i] == [] && fragments[i + 1] == [] ==>
               Flatten(fragments[i..]) == []
    requires |Flatten(fragments[from..])| >= needed
    ensures !Starved(fragments[from..], needed, 0)
    ensures from > 0 && fragments[from - 1] == [] && Flatten(fragments[from - 1..]) == Flatten(fragments[from..]) ==>
              !Starved(fragments[from..], needed, 1)
    decreases |fragments| - from
  {
    if from < |fragments| && needed > 0 {
      var rest := fragments[from..];
      assert rest[1..] == fragments[from + 1..];
      if rest[0] != [] {
        NotStarvedByShortPauses(fragments, from + 1, needed - |rest[0]|);
      } else {
        NotStarvedByShortPauses(fragments, from + 1, needed);
      }
    }
  }
}
