/** Payload formats: what a reply's bytes mean and which bytes a written value becomes. */
module Payload {
  import opened Core
  import opened Frame

  datatype ProtocolFormat =
    | Float32Format | Int16Format | StoredDotFormat | Uint16Format | Uint32Format | RawFormat
    | UnknownFormat(text: string)

  datatype Value = Int(n: int) | Float(x: real) | Bytes(data: seq<byte>)

  /** A decimal as its digits and exponent: mantissa * 10^exponent, negated or not. */
  datatype Decimal = Decimal(negative: bool, mantissa: nat, exponent: int)

  /** The platform's float conversions, which the gateway only calls: IEEE single precision
      to and from two big-endian words (packing fails on overflow), and the text form that
      `stored_dot` writes go through. */
  datatype Floats = Floats(
    unpack: (word, word) -> real,
    pack: real -> Option<(word, word)>,
    decimal: real -> Decimal)

  function Truncate(x: real): int {
    if x >= 0.0 then x.Floor else -((-x).Floor)
  }

  function SignedWord(n: word): int {
    if n >= 0x8000 then n - 0x1_0000 else n
  }

  function SignedByte(n: byte): int {
    if n >= 0x80 then n - 0x100 else n
  }

  function Pow10(k: nat): (p: real)
    ensures p >= 1.0
  {
    if k == 0 then 1.0 else 10.0 * Pow10(k - 1)
  }

  /* ---------- stored_dot ---------- */

  function Abs(n: int): nat { if n < 0 then -n else n }

  function Signed(negative: bool, x: real): real {
    if negative then -x else x
  }

  function Scaled(mantissa: nat, exponent: int): (x: real)
    ensures x >= 0.0
  {
    if exponent >= 0 then mantissa as real * Pow10(exponent)
    else mantissa as real / Pow10(-exponent)
  }

  function DecimalValue(d: Decimal): real {
    Signed(d.negative, Scaled(d.mantissa, d.exponent))
  }

  /** Sign, decimal places and mantissa as they are read back from a payload. */
  function ReadStoredDot(payload: seq<byte>): Result<Decimal> {
    if |payload| == 3 then
      Ok(Decimal(payload[0] >= 0x80, WordAt(payload, 1), -(payload[0] as int / 16 % 8)))
    else if |payload| == 1 || |payload| == 2 then
      var raw: int := if |payload| == 1 then payload[0] as int else WordAt(payload, 0);
      Ok(Decimal(raw >= 0x8000, raw % 0x1000, -(raw / 0x1000 % 8)))
    else Err(ValueFault)
  }

  function DecodeStoredDot(payload: seq<byte>): Result<real> {
    match ReadStoredDot(payload)
    case Err(fault) => Err(fault)
    case Ok(d) => Ok(DecimalValue(d))
  }

  /** The packed sign, decimal places and mantissa of the one-byte form. */
  function OneByte(d: Decimal): (raw: nat)
    requires d.mantissa < 0x10 && Abs(d.exponent) <= 7
    ensures raw < 0x100
  {
    (if d.negative then 0x80 else 0) + Abs(d.exponent) * 0x10 + d.mantissa
  }

  function EncodeStoredDot(d: Decimal): Result<seq<byte>> {
    var sign, places := if d.negative then 1 else 0, Abs(d.exponent);
    if places > 7 then Err(ValueFault)
    else if d.mantissa < 0x10 then Ok([OneByte(d)])
    else if d.mantissa < 0x1000 then Ok(WordBytes(sign * 0x8000 + places * 0x1000 + d.mantissa))
    else if d.mantissa < 0x1_0000 then Ok([sign * 0x80 + places * 0x10] + WordBytes(d.mantissa))
    else Err(ValueFault)
  }

  /** The decimals that survive: no positive exponent, and none of the sign and exponent
      bits that the one-byte form loses. */
  predicate Survives(d: Decimal) {
    if d.mantissa >= 0x10 then d.exponent <= 0 else !d.negative && d.exponent == 0
  }

  /** Two and three bytes give back sign, decimal places and mantissa; one byte gives back
      its raw value. A mantissa below 4096 never takes the third byte. */
  lemma StoredDotFields(d: Decimal)
    requires EncodeStoredDot(d).Ok?
    ensures ReadStoredDot(EncodeStoredDot(d).value) ==
            Ok(if d.mantissa >= 0x10 then Decimal(d.negative, d.mantissa, 0 - Abs(d.exponent))
               else Decimal(false, OneByte(d), 0))
    ensures |EncodeStoredDot(d).value| == if d.mantissa < 0x10 then 1 else if d.mantissa < 0x1000 then 2 else 3
  {
    if d.mantissa >= 0x10 {
      if d.mantissa < 0x1000 {
        TwoByteFields(d);
      } else {
        ThreeByteFields(d);
      }
    }
  }

  lemma TwoByteFields(d: Decimal)
    requires 0x10 <= d.mantissa < 0x1000 && Abs(d.exponent) <= 7
    ensures ReadStoredDot(EncodeStoredDot(d).value) == Ok(Decimal(d.negative, d.mantissa, 0 - Abs(d.exponent)))
  {
    var top := (if d.negative then 8 else 0) + Abs(d.exponent);
    var raw: word := top * 0x1000 + d.mantissa;
    assert raw / 0x1000 == top && raw % 0x1000 == d.mantissa;
    assert EncodeStoredDot(d).value == WordBytes(raw) && WordAt(WordBytes(raw), 0) == raw;
  }

  lemma ThreeByteFields(d: Decimal)
    requires 0x1000 <= d.mantissa < 0x1_0000 && Abs(d.exponent) <= 7
    ensures ReadStoredDot(EncodeStoredDot(d).value) == Ok(Decimal(d.negative, d.mantissa, 0 - Abs(d.exponent)))
  {
    var first: byte := (if d.negative then 0x80 else 0) + Abs(d.exponent) * 0x10;
    var payload := [first] + WordBytes(d.mantissa);
    assert EncodeStoredDot(d).value == payload && WordAt(payload, 1) == d.mantissa;
  }

  lemma Pow10Exceeds(k: nat)
    requires k > 0
    ensures Pow10(k) >= 10.0
  {
    assert Pow10(k) == 10.0 * Pow10(k - 1);
  }

  lemma TenthAtMost(x: real, p: real)
    requires x >= 0.0 && p >= 10.0
    ensures x / p <= x / 10.0
  {
    var q := x / p;
    assert q * p == x && q >= 0.0;
    assert q * p >= q * 10.0;
  }

  lemma ScaledUp(m: nat, e: nat)
    requires e > 0
    ensures Scaled(m, e) >= 10.0 * m as real && Scaled(m, 0 - e) <= m as real / 10.0
  {
    Pow10Exceeds(e);
    var x, p := m as real, Pow10(e);
    assert x * p >= x * 10.0;
    TenthAtMost(x, p);
  }

  /** Decoding an encoded decimal gives its value back exactly when it survives. */
  lemma StoredDotRoundTrip(d: Decimal)
    requires EncodeStoredDot(d).Ok?
    ensures DecodeStoredDot(EncodeStoredDot(d).value) == Ok(DecimalValue(d)) <==> Survives(d)
  {
    hide ReadStoredDot, Scaled;
    StoredDotFields(d);
    if d.mantissa >= 0x10 {
      if d.exponent > 0 {
        ScaledUp(d.mantissa, d.exponent);
      }
    } else {
      ScaledUnit(OneByte(d));
      OneByteValue(d);
    }
  }

  lemma ScaledUnit(m: nat)
    ensures Scaled(m, 0) == m as real
  {
    assert Pow10(0) == 1.0;
  }

  lemma OneByteValue(d: Decimal)
    requires d.mantissa < 0x10 && Abs(d.exponent) <= 7
    ensures OneByte(d) as real == DecimalValue(d) <==> Survives(d)
  {
    hide Pow10;
    var e, m := Abs(d.exponent), d.mantissa;
    if e > 0 {
      ScaledUp(m, e);
      TenPowerIsNoByte(m, e);
    } else {
      assert Pow10(0) == 1.0 by { PowersOfTen(); }
    }
  }

  lemma TenPowerIsNoByte(m: nat, e: nat)
    requires m < 0x10 && 0 < e <= 7
    ensures Scaled(m, e) != (e * 0x10 + m) as real
  {
    PowersOfTen();
    var x := m as real;
    if e == 1 { assert Scaled(m, e) == x * 10.0; }
    else if e == 2 { assert Scaled(m, e) == x * 100.0; }
    else {
      Pow10Grows(3, e);
      if m > 0 { assert Scaled(m, e) == x * Pow10(e) >= 1.0 * Pow10(e); }
    }
  }

  lemma {:induction false} Pow10Grows(j: nat, k: nat)
    requires j <= k
    ensures Pow10(j) <= Pow10(k)
    decreases k
  {
    if j < k {
      Pow10Grows(j, k - 1);
    }
  }

  lemma PowersOfTen()
    ensures Pow10(0) == 1.0 && Pow10(1) == 10.0 && Pow10(2) == 100.0 && Pow10(3) == 1000.0
    ensures Pow10(4) == 10000.0 && Pow10(5) == 100000.0 && Pow10(6) == 1000000.0 && Pow10(7) == 10000000.0
  {
    assert Pow10(1) == 10.0 * Pow10(0) && Pow10(2) == 10.0 * Pow10(1) && Pow10(3) == 10.0 * Pow10(2);
    assert Pow10(4) == 10.0 * Pow10(3) && Pow10(5) == 10.0 * Pow10(4);
    assert Pow10(6) == 10.0 * Pow10(5) && Pow10(7) == 10.0 * Pow10(6);
  }

  /* ---------- From a float through its text to the device and back ---------- */

  const FLOAT_VERIFY_TOLERANCE := 0.051

  predicate ValuesMatch(expected: Value, actual: Value) {
    if expected.Bytes? || actual.Bytes? then expected == actual
    else if expected.Float? || actual.Float? then
      -FLOAT_VERIFY_TOLERANCE <= AsReal(expected) - AsReal(actual) <= FLOAT_VERIFY_TOLERANCE
    else expected == actual
  }

  function AsReal(v: Value): real
    requires !v.Bytes?
  {
    match v case Int(n) => n as real case Float(x) => x
  }

  function AbsReal(x: real): real { if x < 0.0 then -x else x }

  function Ten(e: int): (p: real)
    ensures p > 0.0
  {
    if e >= 0 then Pow10(e) else 1.0 / Pow10(-e)
  }

  predicate IsInteger(x: real) { x == x.Floor as real }

  /** `d` is the text form of `x` that `stored_dot` is packed from: one decimal place for an
      integer; otherwise seven significant digits, trailing zeros dropped, in scientific
      notation (a positive exponent) from ten million on. `magnitude` is the power of ten
      of the leading digit of `x`. */
  predicate TextForm(x: real, d: Decimal, magnitude: int) {
    if IsInteger(x) then
      d.negative == (x < 0.0) && d.exponent == -1 && d.mantissa as real == 10.0 * AbsReal(x)
    else
      && d.negative == (x < 0.0)
      && 0 < d.mantissa < 10_000_000
      && Ten(magnitude) <= AbsReal(x) < Ten(magnitude + 1)
      && AbsReal(DecimalValue(d) - x) <= Ten(magnitude - 6) / 2.0
      && (d.exponent != 0 ==> d.mantissa % 10 != 0)
      && (d.exponent > 0 ==> AbsReal(DecimalValue(d)) >= 10_000_000.0)
  }

  lemma {:induction false} TenStep(e: int)
    ensures Ten(e + 1) == 10.0 * Ten(e)
  {
    if e < 0 {
      assert Pow10(-e) == 10.0 * Pow10(-e - 1);
    }
  }

  lemma {:induction false} TenGrows(e: int, f: int)
    requires e <= f
    ensures Ten(e) <= Ten(f)
    decreases f - e
  {
    if e < f {
      TenGrows(e, f - 1);
      TenStep(f - 1);
    }
  }

  lemma TenDrop6(e: int)
    ensures Ten(e) == 1_000_000.0 * Ten(e - 6)
  {
    TenStep(e - 6);
    TenStep(e - 5);
    TenStep(e - 4);
    TenStep(e - 3);
    TenStep(e - 2);
    TenStep(e - 1);
  }

  lemma TenValues()
    ensures Ten(5) == 100_000.0 && Ten(-2) == 0.01
  {
    PowersOfTen();
  }

  lemma RoundingError(x: real, d: Decimal, magnitude: int)
    requires TextForm(x, d, magnitude) && !IsInteger(x)
    ensures AbsReal(DecimalValue(d) - x) * 2_000_000.0 <= AbsReal(x)
    ensures AbsReal(DecimalValue(d)) < 99_999.0 ==> AbsReal(DecimalValue(d) - x) <= 0.005
  {
    hide Ten, DecimalValue;
    TenDrop6(magnitude);
    TenValues();
    if magnitude >= 5 {
      TenGrows(5, magnitude);
    } else {
      TenGrows(magnitude - 6, -2);
    }
  }

  lemma ScaledDown(m: nat, e: int)
    requires e <= 0
    ensures Scaled(m, e) <= m as real
    ensures e == -1 ==> Scaled(m, e) == m as real / 10.0
  {
    if e < 0 {
      ScaledUp(m, -e);
      assert Pow10(1) == 10.0;
    } else {
      ScaledUnit(m);
    }
  }

  lemma SurvivorIsClose(x: real, d: Decimal, magnitude: int)
    requires TextForm(x, d, magnitude) && Survives(d) && d.mantissa < 0x1_0000
    ensures AbsReal(DecimalValue(d) - x) <= 0.005
  {
    hide Scaled, Ten;
    ScaledDown(d.mantissa, d.exponent);
    if !IsInteger(x) {
      RoundingError(x, d, magnitude);
    }
  }

  lemma LostFieldsAreFar(x: real, d: Decimal, magnitude: int)
    requires TextForm(x, d, magnitude) && !Survives(d) && EncodeStoredDot(d).Ok?
    ensures var read := if d.mantissa >= 0x10 then Signed(d.negative, Scaled(d.mantissa, 0 - Abs(d.exponent)))
                        else OneByte(d) as real;
            AbsReal(read - x) > 14.0
  {
    hide Scaled, Ten;
    if !IsInteger(x) {
      RoundingError(x, d, magnitude);
    }
    if d.exponent <= 0 {
      ScaledDown(d.mantissa, d.exponent);
      if d.exponent < 0 {
        ScaledUp(d.mantissa, -d.exponent);
      } else {
        ScaledUnit(d.mantissa);
      }
    } else {
      ScaledDown(d.mantissa, 0 - Abs(d.exponent));
    }
  }

  /** The read-back check takes floats for equal exactly up to 51 thousandths apart, also
      when only one side is a float; integers only if they are equal. */
  lemma MatchesWithin51Thousandths(expected: Value, actual: Value)
    requires !expected.Bytes? && !actual.Bytes?
    ensures ValuesMatch(expected, actual) <==>
            if expected.Int? && actual.Int? then expected.n == actual.n
            else -51.0 <= 1000.0 * AsReal(expected) - 1000.0 * AsReal(actual) <= 51.0
  {}

  /** A device that echoes a written `stored_dot` payload passes the read-back check exactly
      when its text form survives: then the echo is within 0.005 of the float that was
      written, else farther than 14 from it. */
  lemma EchoPassesExactlyWhenSurviving(x: real, d: Decimal, magnitude: int)
    requires TextForm(x, d, magnitude) && EncodeStoredDot(d).Ok?
    ensures DecodeStoredDot(EncodeStoredDot(d).value).Ok?
    ensures var echoed := DecodeStoredDot(EncodeStoredDot(d).value).value;
            && (ValuesMatch(Float(x), Float(echoed)) <==> Survives(d))
            && (Survives(d) ==> -0.005 <= echoed - x <= 0.005)
            && (!Survives(d) ==> echoed - x > 14.0 || echoed - x < -14.0)
  {
    hide ReadStoredDot, Scaled, Ten, TextForm;
    StoredDotFields(d);
    StoredDotRoundTrip(d);
    if Survives(d) {
      SurvivorIsClose(x, d, magnitude);
    } else {
      LostFieldsAreFar(x, d, magnitude);
      if d.mantissa < 0x10 {
        ScaledUnit(OneByte(d));
      }
    }
  }

  /** Zero is written as one byte with one decimal place, and read back as sixteen. */
  lemma ZeroIsNotReadBack()
    ensures TextForm(0.0, Decimal(false, 0, -1), 0)
    ensures EncodeStoredDot(Decimal(false, 0, -1)) == Ok([0x10])
    ensures DecodeStoredDot([0x10]) == Ok(16.0)
  {
    ScaledUnit(16);
  }

  /** A value from a device: -10.38 as two bytes. */
  lemma KnownStoredDot()
    ensures TextForm(-10.38, Decimal(true, 1038, -2), 1)
    ensures EncodeStoredDot(Decimal(true, 1038, -2)) == Ok([164, 14])
    ensures DecodeStoredDot([164, 14]) == Ok(-10.38)
  {
    PowersOfTen();
    assert DecimalValue(Decimal(true, 1038, -2)) == -10.38;
    assert ReadStoredDot([164, 14]) == Ok(Decimal(true, 1038, -2));
    assert (-10.38).Floor == -11;
  }

  /** Which whole numbers can be written through `stored_dot`: from 2 to 6553 in size they
      survive, 0 and 1 are read back as something else, larger ones are refused. */
  lemma WholeNumbers(n: int, d: Decimal, magnitude: int)
    requires TextForm(n as real, d, magnitude)
    ensures EncodeStoredDot(d).Ok? <==> Abs(n) <= 6553
    ensures Survives(d) <==> Abs(n) >= 2
  {
    assert (n as real).Floor == n;
    assert d.mantissa == 10 * Abs(n);
  }

  /* ---------- All formats ---------- */

  function FloatAt(floats: Floats, payload: seq<byte>): Value
    requires |payload| >= 4
  {
    Float(floats.unpack(WordAt(payload, 0), WordAt(payload, 2)))
  }

  function DecodePayload(floats: Floats, payload: seq<byte>, format: ProtocolFormat): Result<Value> {
    match format
    case Float32Format =>
      if |payload| == 4 || |payload| == 6 then Ok(FloatAt(floats, payload)) else Err(ValueFault)
    case Int16Format =>
      if |payload| == 1 then Ok(Int(SignedByte(payload[0])))
      else if |payload| == 2 || |payload| == 4 then Ok(Int(SignedWord(WordAt(payload, 0))))
      else Err(ValueFault)
    case StoredDotFormat =>
      (match DecodeStoredDot(payload)
       case Ok(x) => Ok(Float(x))
       case Err(fault) => Err(fault))
    case Uint16Format =>
      if |payload| == 1 then Ok(Int(payload[0]))
      else if |payload| == 2 || |payload| == 4 then Ok(Int(WordAt(payload, 0)))
      else Err(ValueFault)
    case Uint32Format =>
      if |payload| == 4 || |payload| == 6 then Ok(Int(WordAt(payload, 0) as int * 0x1_0000 + WordAt(payload, 2) as int))
      else Err(ValueFault)
    case RawFormat => Ok(Bytes(payload))
    case UnknownFormat(_) => Err(ValueFault)
  }

  /** `int(value)`; the text readings of byte strings are not modelled. */
  function AsInt(v: Value): Result<int> {
    match v
    case Int(n) => Ok(n)
    case Float(x) => Ok(Truncate(x))
    case Bytes(_) => Err(ValueFault)
  }

  function UnsignedWord(n: int): word
    requires -0x8000 <= n < 0x1_0000
  {
    if n < 0 then n + 0x1_0000 else n
  }

  function EncodePayload(floats: Floats, value: Value, format: ProtocolFormat): Result<seq<byte>> {
    match format
    case Float32Format =>
      if value.Bytes? then Err(ValueFault)
      else
        (match floats.pack(AsReal(value))
         case Some(words) => Ok(WordBytes(words.0) + WordBytes(words.1))
         case None => Err(OtherFault))
    case Int16Format =>
      var n :- AsInt(value);
      if -0x8000 <= n <= 0x7FFF then Ok(WordBytes(UnsignedWord(n))) else Err(ValueFault)
    case StoredDotFormat =>
      if value.Bytes? then Err(ValueFault) else EncodeStoredDot(floats.decimal(AsReal(value)))
    case Uint16Format =>
      var n :- AsInt(value);
      if 0 <= n <= 0xFFFF then Ok(WordBytes(n)) else Err(ValueFault)
    case Uint32Format =>
      var n :- AsInt(value);
      if 0 <= n <= 0xFFFF_FFFF then Ok(WordBytes(n / 0x1_0000) + WordBytes(n % 0x1_0000)) else Err(ValueFault)
    case RawFormat =>
      if value.Bytes? then Ok(value.data) else Err(ValueFault)
    case UnknownFormat(_) => Err(ValueFault)
  }

  /** Which payloads decode depends on their length only. */
  lemma AcceptedLengths(floats: Floats, payload: seq<byte>, format: ProtocolFormat)
    ensures DecodePayload(floats, payload, format).Ok? <==>
            match format
            case Float32Format => |payload| in {4, 6}
            case Uint32Format => |payload| in {4, 6}
            case Int16Format => |payload| in {1, 2, 4}
            case Uint16Format => |payload| in {1, 2, 4}
            case StoredDotFormat => |payload| in {1, 2, 3}
            case RawFormat => true
            case UnknownFormat(_) => false
  {
    hide Scaled;
  }

  /** The number of a byte string, high bytes first. */
  function BigEndian(bytes: seq<byte>): nat {
    if bytes == [] then 0 else 256 * BigEndian(bytes[..|bytes| - 1]) + bytes[|bytes| - 1]
  }

  lemma BigEndianOf(bytes: seq<byte>)
    ensures |bytes| == 1 ==> BigEndian(bytes) == bytes[0]
    ensures |bytes| == 2 ==> BigEndian(bytes) == WordAt(bytes, 0)
    ensures |bytes| == 4 ==> BigEndian(bytes) == WordAt(bytes, 0) as int * 0x1_0000 + WordAt(bytes, 2) as int
  {
    if |bytes| == 2 {
      BigEndianOf(bytes[..1]);
    } else if |bytes| == 4 {
      BigEndianOf(bytes[..2]);
      assert BigEndian(bytes[..3]) == 256 * BigEndian(bytes[..3][..2]) + bytes[2];
      assert bytes[..3][..2] == bytes[..2];
    }
  }

  /** Integers are the number of their one, two or four bytes, signed ones in two's complement;
      a single is given by its two words; raw payloads are themselves, both ways. */
  lemma PayloadsSay(floats: Floats, payload: seq<byte>, format: ProtocolFormat)
    requires DecodePayload(floats, payload, format).Ok?
    ensures var value, size := DecodePayload(floats, payload, format).value, |payload|;
            match format
            case Uint16Format => size >= 1 && value == Int(BigEndian(payload[..if size == 1 then 1 else 2]))
            case Int16Format =>
              size >= 1 && value == Int(if size == 1 then (BigEndian(payload[..1]) + 128) % 256 - 128
                                        else (BigEndian(payload[..2]) + 32768) % 65536 - 32768)
            case Uint32Format => size >= 4 && value == Int(BigEndian(payload[..4]))
            case Float32Format =>
              && size >= 4 && BigEndian(payload[..2]) < 65536 && BigEndian(payload[2..4]) < 65536
              && value == Float(floats.unpack(BigEndian(payload[..2]), BigEndian(payload[2..4])))
            case RawFormat => value == Bytes(payload) && EncodePayload(floats, value, format) == Ok(payload)
            case _ => true
  {
    hide DecodeStoredDot, BigEndian;
    if |payload| >= 1 {
      BigEndianOf(payload[..1]);
    }
    if |payload| >= 2 {
      BigEndianOf(payload[..2]);
    }
    if |payload| >= 4 {
      BigEndianOf(payload[2..4]);
      BigEndianOf(payload[..4]);
    }
  }

  /** Replies of devices: 75, 279, 30.1, 94.5 and 95 degrees. */
  lemma KnownReplies()
    ensures DecodeStoredDot([0x00, 0x4B]) == Ok(75.0)
    ensures DecodeStoredDot([0x01, 0x17]) == Ok(279.0)
    ensures DecodeStoredDot([0x2B, 0xC2]) == Ok(30.1)
    ensures DecodeStoredDot([0x20, 0x24, 0xEA]) == Ok(94.5)
    ensures DecodeStoredDot([0x20, 0x25, 0x1C]) == Ok(95.0)
  {
    PowersOfTen();
    assert ReadStoredDot([0x00, 0x4B]) == Ok(Decimal(false, 75, 0));
    assert ReadStoredDot([0x01, 0x17]) == Ok(Decimal(false, 279, 0));
    assert ReadStoredDot([0x2B, 0xC2]) == Ok(Decimal(false, 3010, -2));
    assert ReadStoredDot([0x20, 0x24, 0xEA]) == Ok(Decimal(false, 9450, -2));
    assert ReadStoredDot([0x20, 0x25, 0x1C]) == Ok(Decimal(false, 9500, -2));
  }

  /** An index or a time mark behind a value of two or four bytes does not change it. */
  lemma ServiceBytesIgnored(floats: Floats, payload: seq<byte>, suffix: seq<byte>, format: ProtocolFormat)
    requires |suffix| == 2
    requires |payload| == if format.Float32Format? || format.Uint32Format? then 4 else 2
    requires !format.StoredDotFormat? && !format.RawFormat?
    ensures DecodePayload(floats, payload + suffix, format) == DecodePayload(floats, payload, format)
  {
    assert forall i :: 0 <= i < |payload| ==> (payload + suffix)[i] == payload[i];
  }

  /** Integers are encoded exactly when they fit, and decode back to themselves. */
  lemma IntegerPayloads(floats: Floats, n: int, format: ProtocolFormat)
    requires format.Int16Format? || format.Uint16Format? || format.Uint32Format?
    ensures var payload := EncodePayload(floats, Int(n), format);
            && (payload.Ok? <==>
                  match format
                  case Int16Format => -0x8000 <= n < 0x8000
                  case Uint16Format => 0 <= n < 0x1_0000
                  case _ => 0 <= n < 0x1_0000_0000)
            && (payload.Ok? ==> DecodePayload(floats, payload.value, format) == Ok(Int(n)))
  {
    if format.Uint32Format? && EncodePayload(floats, Int(n), format).Ok? {
      var payload := EncodePayload(floats, Int(n), format).value;
      assert WordAt(payload, 0) == n / 0x1_0000 && WordAt(payload, 2) == n % 0x1_0000;
    }
  }
}
