/** What makes a client's write take: said of the written registers, the acknowledgement and
    the read-backs alone. */
module Confirmation {
  import opened Core
  import opened Frame
  import opened ParameterHash
  import opened Payload
  import opened Registers
  import opened Config
  import opened Gateway

  /** Whole numbers confirm a written whole number if they are equal; where a float is
      involved they may be up to 51 thousandths apart. */
  predicate Near(written: Value, read: Value) {
    match (written, read)
    case (Int(m), Int(n)) => m == n
    case (Bytes(a), Bytes(b)) => a == b
    case (Bytes(_), _) => false
    case (_, Bytes(_)) => false
    case _ => -51.0 <= 1000.0 * (AsReal(written) - AsReal(read)) <= 51.0
  }

  /** A read-back that is a reply with a value near the written one. Its parameter is not
      looked at. */
  predicate Confirms(floats: Floats, p: PointConfig, written: Value, readBack: Result<OwenFrame>) {
    && readBack.Ok? && !readBack.value.request
    && DecodePayload(floats, readBack.value.payload, p.protocolFormat).Ok?
    && Near(written, DecodePayload(floats, readBack.value.payload, p.protocolFormat).value)
  }

  /** The value of the first read-back that confirms the written one. */
  function FirstConfirming(floats: Floats, p: PointConfig, written: Value, readBacks: seq<Result<OwenFrame>>): Option<Value> {
    if readBacks == [] then None
    else if Confirms(floats, p, written, readBacks[0])
    then Some(DecodePayload(floats, readBacks[0].value.payload, p.protocolFormat).value)
    else FirstConfirming(floats, p, written, readBacks[1..])
  }

  /** A reply that is no frame is taken for an acknowledgement; a frame must be a reply of the
      point's parameter and have content. */
  predicate Acknowledges(p: PointConfig, reply: Option<OwenFrame>) {
    match reply
    case None => true
    case Some(frame) =>
      !frame.request && HashParameterName(p.parameter) == Ok(frame.parameterHash) && |frame.payload| >= 1
  }

  /** The value a write is kept with, if it is kept. */
  function Taken(floats: Floats, p: PointConfig, words: seq<word>, ack: Result<Option<OwenFrame>>,
                 readBacks: seq<Result<OwenFrame>>): Option<Value>
  {
    var written := NumberIn(floats, words, p.modbusDataType);
    if written.Some? && EncodePayload(floats, written.value, p.protocolFormat).Ok? && ack.Ok? && Acknowledges(p, ack.value)
    then FirstConfirming(floats, p, written.value, readBacks)
    else None
  }

  lemma CheckConfirms(floats: Floats, p: PointConfig, written: Value, readBack: Result<OwenFrame>)
    ensures match CheckRead(floats, p, written, readBack)
            case Ok(value) =>
              && Confirms(floats, p, written, readBack)
              && DecodePayload(floats, readBack.value.payload, p.protocolFormat) == Ok(value)
            case Err(_) => !Confirms(floats, p, written, readBack)
  {
    hide DecodePayload;
  }

  lemma {:induction false} VerifyTakesFirst(floats: Floats, p: PointConfig, written: Value, readBacks: seq<Result<OwenFrame>>)
    ensures match Verify(floats, p, written, readBacks)
            case Ok(value) => FirstConfirming(floats, p, written, readBacks) == Some(value)
            case Err(_) => FirstConfirming(floats, p, written, readBacks) == None
  {
    hide CheckRead, Confirms, DecodePayload;
    if readBacks != [] {
      CheckConfirms(floats, p, written, readBacks[0]);
      VerifyTakesFirst(floats, p, written, readBacks[1..]);
    }
  }

  /** The outcome of a write is the value taken, or a fault. */
  lemma OutcomeIsTaken(floats: Floats, p: PointConfig, words: seq<word>, ack: Result<Option<OwenFrame>>,
                       readBacks: seq<Result<OwenFrame>>)
    ensures match WriteOutcome(floats, p, words, ack, readBacks)
            case Ok(value) => Taken(floats, p, words, ack, readBacks) == Some(value)
            case Err(_) => Taken(floats, p, words, ack, readBacks) == None
  {
    hide DecodeRegisters, NumberIn, EncodePayload, Verify, FirstConfirming, HashParameterName;
    RegistersSayTheirNumber(floats, words, p.modbusDataType);
    var written := NumberIn(floats, words, p.modbusDataType);
    if written.Some? {
      VerifyTakesFirst(floats, p, written.value, readBacks);
    }
  }

  /** The value is that of read-back `j`, the first that confirms. */
  ghost predicate FirstAt(floats: Floats, p: PointConfig, written: Value, readBacks: seq<Result<OwenFrame>>, j: int,
                          value: Value)
  {
    && 0 <= j < |readBacks| && Confirms(floats, p, written, readBacks[j])
    && DecodePayload(floats, readBacks[j].value.payload, p.protocolFormat) == Ok(value)
    && forall i :: 0 <= i < j ==> !Confirms(floats, p, written, readBacks[i])
  }

  lemma {:induction false} FirstConfirmingIs(floats: Floats, p: PointConfig, written: Value, readBacks: seq<Result<OwenFrame>>)
    ensures var first := FirstConfirming(floats, p, written, readBacks);
            && (first.Some? ==> exists j :: FirstAt(floats, p, written, readBacks, j, first.value))
            && (first.None? ==> forall j :: 0 <= j < |readBacks| ==> !Confirms(floats, p, written, readBacks[j]))
  {
    hide DecodePayload, Near;
    if readBacks != [] {
      var rest, value := readBacks[1..], FirstConfirming(floats, p, written, readBacks);
      if Confirms(floats, p, written, readBacks[0]) {
        assert value.Some? && FirstAt(floats, p, written, readBacks, 0, value.value);
      } else {
        FirstConfirmingIs(floats, p, written, rest);
        if value.Some? {
          var j :| FirstAt(floats, p, written, rest, j, value.value);
          assert readBacks[j + 1] == rest[j];
          assert forall i :: 0 < i <= j ==> readBacks[i] == rest[i - 1];
          assert FirstAt(floats, p, written, readBacks, j + 1, value.value);
        } else {
          assert forall j :: 0 < j < |readBacks| ==> readBacks[j] == rest[j - 1];
        }
      }
    }
  }
}
