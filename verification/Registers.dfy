/** Values as Modbus registers: big-endian 16-bit words, one or two a value. */
module Registers {
  import opened Core
  import opened Frame
  import opened Payload

  datatype DataType =
    | BoolType | Uint16Type | Int16Type | Uint32Type | Int32Type | Float32Type
    | StoredDotType | UnknownType(text: string)

  /** Only these types have a register form; the configuration accepts one more. */
  predicate HasRegisters(t: DataType) {
    !t.StoredDotType? && !t.UnknownType?
  }

  function RegisterWidth(t: DataType): Result<nat> {
    match t
    case BoolType | Uint16Type | Int16Type => Ok(1)
    case Uint32Type | Int32Type | Float32Type => Ok(2)
    case StoredDotType | UnknownType(_) => Err(ValueFault)
  }

  function SplitWords(n: int): (words: seq<word>)
    requires 0 <= n <= 0xFFFF_FFFF
    ensures |words| == 2
  {
    [n / 0x1_0000, n % 0x1_0000]
  }

  function JoinWords(words: seq<word>): int
    requires |words| == 2
  {
    words[0] as int * 0x1_0000 + words[1] as int
  }

  function Truth(v: Value): bool {
    match v
    case Int(n) => n != 0
    case Float(x) => x != 0.0
    case Bytes(data) => data != []
  }

  function EncodeRegisters(floats: Floats, value: Value, t: DataType): (words: Result<seq<word>>)
    ensures words.Ok? ==> RegisterWidth(t) == Ok(|words.value|)
  {
    match t
    case BoolType => Ok([if Truth(value) then 1 else 0])
    case Uint16Type =>
      var n :- AsInt(value);
      if 0 <= n <= 0xFFFF then Ok([n]) else Err(ValueFault)
    case Int16Type =>
      var n :- AsInt(value);
      if -0x8000 <= n <= 0x7FFF then Ok([UnsignedWord(n)]) else Err(ValueFault)
    case Uint32Type =>
      var n :- AsInt(value);
      if 0 <= n <= 0xFFFF_FFFF then Ok(SplitWords(n)) else Err(ValueFault)
    case Int32Type =>
      var n :- AsInt(value);
      if -0x8000_0000 <= n <= 0x7FFF_FFFF then Ok(SplitWords(n % 0x1_0000_0000)) else Err(ValueFault)
    case Float32Type =>
      if value.Bytes? then Err(ValueFault)
      else
        (match floats.pack(AsReal(value))
         case Some(pair) => Ok([pair.0, pair.1])
         case None => Err(OtherFault))
    case StoredDotType => Err(ValueFault)
    case UnknownType(_) => Err(ValueFault)
  }

  function DecodeRegisters(floats: Floats, words: seq<word>, t: DataType): Result<Value> {
    match t
    case BoolType => if |words| != 1 then Err(ValueFault) else Ok(Int(if words[0] != 0 then 1 else 0))
    case Uint16Type => if |words| != 1 then Err(ValueFault) else Ok(Int(words[0]))
    case Int16Type => if |words| != 1 then Err(ValueFault) else Ok(Int(SignedWord(words[0])))
    case Uint32Type => if |words| != 2 then Err(ValueFault) else Ok(Int(JoinWords(words)))
    case Int32Type =>
      if |words| != 2 then Err(ValueFault)
      else
        var n := JoinWords(words);
        Ok(Int(if n >= 0x8000_0000 then n - 0x1_0000_0000 else n))
    case Float32Type =>
      if |words| != 2 then Err(ValueFault) else Ok(Float(floats.unpack(words[0], words[1])))
    case StoredDotType => Err(ValueFault)
    case UnknownType(_) => Err(ValueFault)
  }

  /** What is used of the platform's single-precision conversions: a value read from a
      single, and any value in the range of 32-bit integers, can be packed, and packing a
      value read from a single does not change it. */
  ghost predicate Lawful(floats: Floats) {
    && (forall h: word, l: word ::
          var packed := floats.pack(floats.unpack(h, l));
          packed.Some? && floats.unpack(packed.value.0, packed.value.1) == floats.unpack(h, l))
    && (forall x: real :: -4_294_967_296.0 <= x <= 4_294_967_296.0 ==> floats.pack(x).Some?)
  }

  /** Zero and one as IEEE singles. */
  predicate SinglesOk(floats: Floats) {
    && floats.unpack(0, 0) == 0.0 && floats.unpack(0x3F80, 0) == 1.0
    && floats.pack(0.0) == Some((0, 0)) && floats.pack(1.0) == Some((0x3F80, 0))
  }

  /** Conversions that know four singles, in their IEEE codes, and take every number for the
      nearest of them towards zero. */
  const FOUR_SINGLES := Floats(
    (h, l) =>
      if (h, l) == (0x3F80, 0) then 1.0
      else if (h, l) == (0x4F80, 0) then 4_294_967_296.0
      else if (h, l) == (0xC800, 0) then -131_072.0
      else 0.0,
    x =>
      if x >= 4_294_967_296.0 then Some((0x4F80, 0))
      else if x >= 1.0 then Some((0x3F80, 0))
      else if x <= -131_072.0 then Some((0xC800, 0))
      else Some((0, 0)),
    _ => Decimal(false, 0, 0))

  /** What is asked of the conversions can be met, all of it at once. */
  lemma ConversionsExist()
    ensures Lawful(FOUR_SINGLES) && SinglesOk(FOUR_SINGLES)
    ensures FOUR_SINGLES.unpack(0xC800, 0) <= -65537.0 && FOUR_SINGLES.unpack(0x4F80, 0) >= 4_294_967_296.0
  {}

  /** Registers read back as the value that was published. */
  lemma RegistersRoundTrip(floats: Floats, n: int, t: DataType)
    requires t.Uint16Type? || t.Int16Type? || t.Uint32Type? || t.Int32Type?
    requires EncodeRegisters(floats, Int(n), t).Ok?
    ensures DecodeRegisters(floats, EncodeRegisters(floats, Int(n), t).value, t) == Ok(Int(n))
  {}

  /** The number a client's registers say: words high one first, negative numbers in two's
      complement, a single as the same four bytes of a reply would say it. */
  function NumberIn(floats: Floats, words: seq<word>, t: DataType): Option<Value> {
    if |words| == 1 then
      var n: int := words[0];
      match t
      case BoolType => Some(Int(if n == 0 then 0 else 1))
      case Uint16Type => Some(Int(n))
      case Int16Type => Some(Int((n + 0x8000) % 0x1_0000 - 0x8000))
      case _ => None
    else if |words| == 2 then
      var high: int, low: int := words[0], words[1];
      match t
      case Uint32Type => Some(Int(0x1_0000 * high + low))
      case Int32Type => Some(Int((0x1_0000 * high + low + 0x8000_0000) % 0x1_0000_0000 - 0x8000_0000))
      case Float32Type =>
        var payload: seq<byte> := [high / 256, high % 256, low / 256, low % 256];
        Some(DecodePayload(floats, payload, Float32Format).value)
      case _ => None
    else None
  }

  /** Registers are decoded exactly if they say a number, which is the number they say. */
  lemma RegistersSayTheirNumber(floats: Floats, words: seq<word>, t: DataType)
    ensures DecodeRegisters(floats, words, t) ==
            match NumberIn(floats, words, t)
            case Some(value) => Ok(value)
            case None => Err(ValueFault)
  {
    if |words| == 2 && t.Float32Type? {
      var payload: seq<byte> := [words[0] / 256, words[0] % 256, words[1] / 256, words[1] % 256];
      assert WordAt(payload, 0) == words[0] && WordAt(payload, 2) == words[1];
    }
  }

  /** A value read from a single is published as registers that decode back to it, and the
      same holds of its truth. */
  lemma SinglesRoundTrip(floats: Floats, payload: seq<byte>)
    requires Lawful(floats) && DecodePayload(floats, payload, Float32Format).Ok?
    ensures var value := DecodePayload(floats, payload, Float32Format).value;
            && EncodeRegisters(floats, value, Float32Type).Ok?
            && DecodeRegisters(floats, EncodeRegisters(floats, value, Float32Type).value, Float32Type) == Ok(value)
  {}

  /** A published truth value is one register, which reads back as 0 for a zero and as 1 for
      any other number. */
  lemma TruthRoundTrip(floats: Floats, value: Value)
    ensures var words := EncodeRegisters(floats, value, BoolType);
            && words.Ok?
            && DecodeRegisters(floats, words.value, BoolType) ==
               Ok(Int(if value == Int(0) || value == Float(0.0) || value == Bytes([]) then 0 else 1))
  {}

  /** Which values a type can hold: an integer type those that are in its range without their
      fraction, a single those the platform can pack, and only that failure is not one of the
      value. */
  lemma PublishableExactly(floats: Floats, value: Value, t: DataType)
    ensures EncodeRegisters(floats, value, t).Ok? <==>
            match t
            case BoolType => true
            case Uint16Type => !value.Bytes? && -1.0 < AsReal(value) < 65536.0
            case Int16Type => !value.Bytes? && -32769.0 < AsReal(value) < 32768.0
            case Uint32Type => !value.Bytes? && -1.0 < AsReal(value) < 4_294_967_296.0
            case Int32Type => !value.Bytes? && -2_147_483_649.0 < AsReal(value) < 2_147_483_648.0
            case Float32Type => !value.Bytes? && floats.pack(AsReal(value)).Some?
            case _ => false
    ensures var words := EncodeRegisters(floats, value, t);
            words.Err? ==>
              words == Err(if t.Float32Type? && !value.Bytes? && floats.pack(AsReal(value)) == None then OtherFault
                           else ValueFault)
  {}

  /** A float published as an integer loses its fraction towards zero. */
  lemma FloatsAreTruncated(floats: Floats, x: real, t: DataType)
    requires t.Uint16Type? || t.Int16Type? || t.Uint32Type? || t.Int32Type?
    requires EncodeRegisters(floats, Float(x), t).Ok?
    ensures var n := DecodeRegisters(floats, EncodeRegisters(floats, Float(x), t).value, t);
            && n.Ok? && n.value.Int?
            && (x >= 0.0 ==> n.value.n as real <= x < n.value.n as real + 1.0)
            && (x <= 0.0 ==> n.value.n as real - 1.0 < x <= n.value.n as real)
  {
    RegistersRoundTrip(floats, Truncate(x), t);
  }

  /** Two-word integers go high word first, negative ones in two's complement. */
  lemma BigEndianWords(floats: Floats, n: int, t: DataType)
    requires t.Uint32Type? || t.Int32Type?
    requires EncodeRegisters(floats, Int(n), t).Ok?
    ensures var words := EncodeRegisters(floats, Int(n), t).value;
            |words| == 2 && words[0] as int * 0x1_0000 + words[1] as int == if n >= 0 then n else n + 0x1_0000_0000
  {}

  /** Every register content of an integer type is the form of exactly the value it reads as. */
  lemma RegistersAreCanonical(floats: Floats, words: seq<word>, t: DataType)
    requires t.Uint16Type? || t.Int16Type? || t.Uint32Type? || t.Int32Type?
    requires RegisterWidth(t) == Ok(|words|)
    ensures DecodeRegisters(floats, words, t).Ok?
    ensures EncodeRegisters(floats, DecodeRegisters(floats, words, t).value, t) == Ok(words)
  {
    if |words| == 2 {
      var n := JoinWords(words);
      assert SplitWords(n) == words;
    } else {
      assert [words[0]] == words;
    }
  }

  /* ---------- Which type pairs never fail ---------- */

  predicate WritablePair(format: ProtocolFormat, t: DataType) {
    || (format.Float32Format? && t.Float32Type?)
    || (format.StoredDotFormat? && t.Float32Type?)
    || (format.Int16Format? && t.Int16Type?)
    || (format.Uint16Format? && t.Uint16Type?)
    || (format.Uint32Format? && t.Uint32Type?)
  }

  /** Every value the protocol format can decode to fits the register type. */
  predicate AlwaysPublishes(format: ProtocolFormat, t: DataType) {
    match format
    case Float32Format => t.Float32Type? || t.BoolType?
    case StoredDotFormat => t.Float32Type? || t.Int32Type? || t.BoolType?
    case Int16Format => t.Float32Type? || t.Int16Type? || t.Int32Type? || t.BoolType?
    case Uint16Format => t.Float32Type? || t.Uint16Type? || t.Uint32Type? || t.Int32Type? || t.BoolType?
    case Uint32Format => t.Float32Type? || t.Uint32Type? || t.BoolType?
    case RawFormat => t.BoolType?
    case UnknownFormat(_) => HasRegisters(t)
  }

  lemma StoredDotRange(payload: seq<byte>)
    requires DecodeStoredDot(payload).Ok?
    ensures -65535.0 <= DecodeStoredDot(payload).value <= 65535.0
  {
    hide Scaled;
    var d := ReadStoredDot(payload).value;
    ScaledDown(d.mantissa, d.exponent);
  }

  /** Publishing a decoded reply cannot fail for these pairs, the writable ones included. */
  lemma DecodedValuesPublish(floats: Floats, payload: seq<byte>, format: ProtocolFormat, t: DataType)
    requires Lawful(floats) && AlwaysPublishes(format, t)
    requires DecodePayload(floats, payload, format).Ok?
    ensures EncodeRegisters(floats, DecodePayload(floats, payload, format).value, t).Ok?
  {
    hide DecodeStoredDot;
    if format.StoredDotFormat? {
      StoredDotRange(payload);
    }
  }

  lemma WritablePairsPublish(format: ProtocolFormat, t: DataType)
    requires WritablePair(format, t)
    ensures AlwaysPublishes(format, t)
  {}

  /** For every other pair of a known format there is a reply that decodes but does not fit,
      at least when singles reach below -65536 and past the 32-bit range. */
  lemma OtherPairsCanFail(floats: Floats, format: ProtocolFormat, t: DataType, low: (word, word), high: (word, word))
    requires !AlwaysPublishes(format, t) && !format.UnknownFormat?
    requires floats.unpack(low.0, low.1) <= -65537.0 && floats.unpack(high.0, high.1) >= 4_294_967_296.0
    ensures exists payload ::
              && DecodePayload(floats, payload, format).Ok?
              && EncodeRegisters(floats, DecodePayload(floats, payload, format).value, t).Err?
  {
    hide DecodeStoredDot;
    var payload: seq<byte> := WitnessOfMisfit(format, t, low, high);
    if format.StoredDotFormat? {
      MisfitStoredDot();
    }
    assert DecodePayload(floats, payload, format).Ok?;
  }

  function WitnessOfMisfit(format: ProtocolFormat, t: DataType, low: (word, word), high: (word, word)): seq<byte> {
    match format
    case Float32Format =>
      var w := if t.Int32Type? then high else low;
      WordBytes(w.0) + WordBytes(w.1)
    case StoredDotFormat => if t.Int16Type? then [0x00, 0xFF, 0xFF] else [0x80, 0xFF, 0xFF]
    case Int16Format => [0xFF]
    case Uint16Format => [0xFF, 0xFF]
    case _ => [0xFF, 0xFF, 0xFF, 0xFF]
  }

  lemma MisfitStoredDot()
    ensures DecodeStoredDot([0x00, 0xFF, 0xFF]) == Ok(65535.0)
    ensures DecodeStoredDot([0x80, 0xFF, 0xFF]) == Ok(-65535.0)
  {
    ScaledUnit(65535);
    assert ReadStoredDot([0x00, 0xFF, 0xFF]) == Ok(Decimal(false, 65535, 0));
    assert ReadStoredDot([0x80, 0xFF, 0xFF]) == Ok(Decimal(true, 65535, 0));
  }

  /* ---------- Write, echo, verify ---------- */

  /** The registers a client writes to a writable point, sent to a device that stores and
      echoes the payload, pass verification: always for integers and singles, and through
      `stored_dot` exactly when the text form of the value survives. */
  lemma EchoedWriteVerifies(floats: Floats, words: seq<word>, format: ProtocolFormat, t: DataType, magnitude: int)
    requires Lawful(floats) && WritablePair(format, t) && RegisterWidth(t) == Ok(|words|)
    requires var value := DecodeRegisters(floats, words, t).value;
             && EncodePayload(floats, value, format).Ok?
             && (format.StoredDotFormat? ==> TextForm(AsReal(value), floats.decimal(AsReal(value)), magnitude))
    ensures var value := DecodeRegisters(floats, words, t).value;
            var echoed := DecodePayload(floats, EncodePayload(floats, value, format).value, format);
            && echoed.Ok?
            && (ValuesMatch(value, echoed.value) <==>
                (format.StoredDotFormat? ==> Survives(floats.decimal(AsReal(value)))))
            && (!t.Float32Type? ==> echoed.value == value)
            && Some(value) == NumberIn(floats, words, t)
  {
    hide DecodeStoredDot, EncodeStoredDot, TextForm, NumberIn;
    RegistersSayTheirNumber(floats, words, t);
    var value := DecodeRegisters(floats, words, t).value;
    var payload := EncodePayload(floats, value, format).value;
    match format {
      case StoredDotFormat =>
        EchoPassesExactlyWhenSurviving(AsReal(value), floats.decimal(AsReal(value)), magnitude);
      case Float32Format =>
        var packed := floats.pack(floats.unpack(words[0], words[1])).value;
        assert WordAt(payload, 0) == packed.0 && WordAt(payload, 2) == packed.1;
      case Uint32Format =>
        assert WordAt(payload, 0) == words[0] && WordAt(payload, 2) == words[1];
      case Int16Format =>
        assert payload == WordBytes(words[0]);
      case Uint16Format =>
        assert payload == WordBytes(words[0]);
      case _ =>
    }
  }
}
