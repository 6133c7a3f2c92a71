/** Parameter names and the 16-bit hash that stands for them in a frame. */
module ParameterHash {
  import opened Core
  import opened Crc

  const NAME_SYMBOLS := 4
  const SPACE_CODE := 39 * 2

  /** `str.upper` on ASCII text. */
  function Upper(c: char): char {
    if 'a' <= c <= 'z' then c - 'a' + 'A' else c
  }

  function BaseCode(c: char): (code: Option<nat>)
    ensures code.Some? ==> code.value < 40
  {
    var u := Upper(c);
    if '0' <= u <= '9' then Some(u as int - '0' as int)
    else if 'A' <= u <= 'Z' then Some(u as int - 'A' as int + 10)
    else if u == '-' then Some(36)
    else if u == '_' then Some(37)
    else if u == '/' then Some(38)
    else if u == ' ' then Some(39)
    else None
  }

  predicate DotFollows(name: string, index: nat) {
    index + 1 < |name| && name[index + 1] == '.'
  }

  /** The symbol at `index`, with a dot after it folded into the code. */
  function SymbolCode(name: string, index: nat): (code: Option<nat>)
    requires index < |name|
    ensures code.Some? ==> code.value < 80
  {
    match BaseCode(name[index])
    case None => None
    case Some(base) => Some(base * 2 + (if DotFollows(name, index) then 1 else 0))
  }

  function NormalizeFrom(name: string, index: nat): (codes: Result<seq<nat>>)
    requires index <= |name|
    ensures codes.Ok? ==> forall i :: 0 <= i < |codes.value| ==> codes.value[i] < 80
    ensures codes.Err? ==> codes.fault == ValueFault
    decreases |name| - index
  {
    if index == |name| then Ok([])
    else
      match SymbolCode(name, index)
      case None => Err(ValueFault)
      case Some(code) =>
        match NormalizeFrom(name, index + (if DotFollows(name, index) then 2 else 1))
        case Err(fault) => Err(fault)
        case Ok(rest) => Ok([code] + rest)
  }

  function NormalizeName(name: string): Result<seq<nat>> {
    NormalizeFrom(name, 0)
  }

  method NormalizeNameLoop(name: string) returns (codes: Result<seq<nat>>)
    ensures codes == NormalizeName(name)
  {
    var result: seq<nat> := [];
    var index := 0;
    WithFrontTwice([], 0, NormalizeName(name));
    while index < |name|
      invariant index <= |name|
      invariant NormalizeName(name) == WithFront(result, NormalizeFrom(name, index))
      decreases |name| - index
    {
      var hasDot := DotFollows(name, index);
      match SymbolCode(name, index) {
        case None =>
          return Err(ValueFault);
        case Some(code) =>
          WithFrontTwice(result, code, NormalizeFrom(name, index + (if hasDot then 2 else 1)));
          result := result + [code];
      }
      index := index + (if hasDot then 2 else 1);
    }
    assert result + [] == result;
    codes := Ok(result);
  }

  function WithFront(front: seq<nat>, rest: Result<seq<nat>>): Result<seq<nat>> {
    if rest.Ok? then Ok(front + rest.value) else rest
  }

  lemma WithFrontTwice(front: seq<nat>, code: nat, rest: Result<seq<nat>>)
    ensures WithFront(front, WithFront([code], rest)) == WithFront(front + [code], rest)
    ensures WithFront([], rest) == rest
  {
    if rest.Ok? {
      assert [] + rest.value == rest.value;
      assert front + ([code] + rest.value) == front + [code] + rest.value;
    }
  }

  function Padded(codes: seq<nat>): (padded: seq<nat>)
    requires |codes| <= NAME_SYMBOLS
    requires forall i :: 0 <= i < |codes| ==> codes[i] < 80
    ensures |padded| == NAME_SYMBOLS
    ensures forall i :: 0 <= i < NAME_SYMBOLS ==> padded[i] < 80
    decreases NAME_SYMBOLS - |codes|
  {
    if |codes| == NAME_SYMBOLS then codes else Padded(codes + [SPACE_CODE])
  }

  /** The fixed-width field that is hashed, or the fault the name is refused with. */
  function HashedCodes(name: string): (codes: Result<seq<nat>>)
    ensures codes.Ok? ==> |codes.value| == NAME_SYMBOLS && forall i :: 0 <= i < NAME_SYMBOLS ==> codes.value[i] < 80
  {
    match NormalizeName(name)
    case Err(fault) => Err(fault)
    case Ok(codes) =>
      if 1 <= |codes| <= NAME_SYMBOLS then Ok(Padded(codes)) else Err(ValueFault)
  }

  function HashCodes(codes: seq<nat>, crc: bv16): bv16
    requires forall i :: 0 <= i < |codes| ==> codes[i] < 80
  {
    if codes == [] then crc
    else HashCodes(codes[1..], HashBits(codes[0] * 2 % 0x100, 7, crc))
  }

  function HashParameterName(name: string): Result<word> {
    match HashedCodes(name)
    case Err(fault) => Err(fault)
    case Ok(codes) => Ok(RegisterValue(HashCodes(codes, 0)))
  }

  method HashParameterNameLoop(name: string) returns (hash: Result<word>)
    ensures hash == HashParameterName(name)
  {
    var normalized := NormalizeNameLoop(name);
    if normalized.Err? {
      return Err(normalized.fault);
    }
    var codes: seq<nat> := normalized.value;
    if !(1 <= |codes| <= NAME_SYMBOLS) {
      return Err(ValueFault);
    }
    while |codes| < NAME_SYMBOLS
      invariant |codes| <= NAME_SYMBOLS
      invariant forall i :: 0 <= i < |codes| ==> codes[i] < 80
      invariant Padded(codes) == Padded(normalized.value)
    {
      codes := codes + [SPACE_CODE];
    }
    var crc: bv16 := 0;
    for i := 0 to |codes|
      invariant HashCodes(codes[i..], crc) == HashCodes(codes, 0)
    {
      assert codes[i..][1..] == codes[i + 1..];
      crc := HashByte(codes[i] * 2 % 0x100, 7, crc);
    }
    hash := Ok(RegisterValue(crc));
  }

  /* ---------- What the hash tells apart ---------- */

  function NameBits(codes: seq<nat>): (bits: seq<bool>)
    ensures |bits| == 7 * |codes|
  {
    if codes == [] then [] else NumberBits(codes[0], 7) + NameBits(codes[1..])
  }

  lemma {:induction false} NameBitsConcat(a: seq<nat>, b: seq<nat>)
    ensures NameBits(a + b) == NameBits(a) + NameBits(b)
    decreases |a|
  {
    if a == [] {
      assert a + b == b;
    } else {
      assert (a + b)[1..] == a[1..] + b;
      NameBitsConcat(a[1..], b);
    }
  }

  lemma {:induction false} NameBitsInjective(a: seq<nat>, b: seq<nat>)
    requires |a| == |b| && NameBits(a) == NameBits(b)
    requires forall i :: 0 <= i < |a| ==> a[i] < 80 && b[i] < 80
    ensures a == b
    decreases |a|
  {
    if a != [] {
      PowersOfTwo();
      assert NumberBits(a[0], 7) == NameBits(a)[..7] == NameBits(b)[..7] == NumberBits(b[0], 7);
      NumberBitsInjective(a[0], b[0], 7);
      assert NameBits(a[1..]) == NameBits(a)[7..] == NameBits(b)[7..] == NameBits(b[1..]);
      NameBitsInjective(a[1..], b[1..]);
      assert a == [a[0]] + a[1..] && b == [b[0]] + b[1..];
    }
  }

  lemma {:induction false} HashCodesFeeds(codes: seq<nat>, crc: bv16)
    requires forall i :: 0 <= i < |codes| ==> codes[i] < 80
    ensures HashCodes(codes, crc) == Feed(NameBits(codes), crc)
    decreases |codes|
  {
    hide BitStep;
    if codes != [] {
      PowersOfTwo();
      assert Pow2(1) == 2;
      HashBitsFeeds(codes[0], 7, codes[0] * 2 % 0x100, crc);
      FeedConcat(NumberBits(codes[0], 7), NameBits(codes[1..]), crc);
      HashCodesFeeds(codes[1..], HashBits(codes[0] * 2 % 0x100, 7, crc));
    }
  }

  lemma DistinctRegistersDistinctValues(x: bv16, y: bv16)
    requires x != y
    ensures RegisterValue(x) != RegisterValue(y)
  {
    if RegisterValue(x) == RegisterValue(y) {
      NumberOfRegister(x, RegisterValue(x));
      NumberOfRegister(y, RegisterValue(x));
      RegisterCancelsItself(x, 16);
      RegisterCancelsItself(y, 16);
      AllShiftedOut(x);
      AllShiftedOut(y);
      FeedInjective(WordBits(x, 16), x, y);
    }
  }

  lemma CodesInWindowSeparate(head: seq<nat>, a: seq<nat>, b: seq<nat>, tail: seq<nat>)
    requires |a| == |b| == 2 && a != b
    requires forall i :: 0 <= i < |head + a + tail| ==> (head + a + tail)[i] < 80
    requires forall i :: 0 <= i < |head + b + tail| ==> (head + b + tail)[i] < 80
    ensures HashCodes(head + a + tail, 0) != HashCodes(head + b + tail, 0)
  {
    HashCodesFeeds(head + a + tail, 0);
    HashCodesFeeds(head + b + tail, 0);
    NameBitsConcat(head, a);
    NameBitsConcat(head, b);
    NameBitsConcat(head + a, tail);
    NameBitsConcat(head + b, tail);
    if NameBits(a) == NameBits(b) {
      assert forall i :: 0 <= i < 2 ==> a[i] == (head + a + tail)[|head| + i] && b[i] == (head + b + tail)[|head| + i];
      NameBitsInjective(a, b);
    }
    BurstChangesRegister(NameBits(head), NameBits(a), NameBits(b), NameBits(tail), 0);
  }

  /** Names whose four-symbol fields differ, but only in two adjacent symbols, never share
      a hash: a reply to one is never taken for a reply to the other. */
  lemma AdjacentSymbolsSeparateNames(m: string, n: string, start: nat)
    requires HashedCodes(m).Ok? && HashedCodes(n).Ok? && HashedCodes(m) != HashedCodes(n)
    requires start + 2 <= NAME_SYMBOLS
    requires forall i :: 0 <= i < NAME_SYMBOLS && !(start <= i < start + 2) ==>
               HashedCodes(m).value[i] == HashedCodes(n).value[i]
    ensures HashParameterName(m) != HashParameterName(n)
  {
    hide HashedCodes, HashCodes, RegisterValue;
    var p, q := HashedCodes(m).value, HashedCodes(n).value;
    var a, b := p[start..start + 2], q[start..start + 2];
    var head, tail := p[..start], p[start + 2..];
    assert p == head + a + tail;
    assert q == head + b + tail;
    CodesInWindowSeparate(head, a, b, tail);
    DistinctRegistersDistinctValues(HashCodes(p, 0), HashCodes(q, 0));
  }

  lemma SameSymbol(m: string, n: string, index: nat)
    requires |m| == |n| && index < |m|
    requires forall i :: 0 <= i < |m| ==> Upper(m[i]) == Upper(n[i])
    ensures DotFollows(m, index) == DotFollows(n, index)
    ensures SymbolCode(m, index) == SymbolCode(n, index)
  {}

  lemma {:induction false} CaseDoesNotMatterFrom(m: string, n: string, index: nat)
    requires |m| == |n| && index <= |m|
    requires forall i :: 0 <= i < |m| ==> Upper(m[i]) == Upper(n[i])
    ensures NormalizeFrom(m, index) == NormalizeFrom(n, index)
    decreases |m| - index
  {
    hide SymbolCode;
    if index < |m| {
      SameSymbol(m, n, index);
      CaseDoesNotMatterFrom(m, n, index + (if DotFollows(m, index) then 2 else 1));
    }
  }

  /** Letter case never changes a hash. */
  lemma CaseDoesNotMatter(m: string, n: string)
    requires |m| == |n|
    requires forall i :: 0 <= i < |m| ==> Upper(m[i]) == Upper(n[i])
    ensures HashParameterName(m) == HashParameterName(n)
  {
    CaseDoesNotMatterFrom(m, n, 0);
  }

  lemma {:induction false} SpaceAppended(name: string, index: nat)
    requires index <= |name|
    ensures NormalizeFrom(name + " ", index) ==
            (match NormalizeFrom(name, index)
             case Err(fault) => Err(fault)
             case Ok(codes) => Ok(codes + [SPACE_CODE]))
    decreases |name| - index
  {
    if index == |name| {
      assert SymbolCode(name + " ", index) == Some(SPACE_CODE);
      assert [SPACE_CODE] + [] == [SPACE_CODE] == [] + [SPACE_CODE];
      assert NormalizeFrom(name + " ", index + 1) == Ok([]);
    } else {
      assert DotFollows(name + " ", index) == DotFollows(name, index);
      var next := index + (if DotFollows(name, index) then 2 else 1);
      SpaceAppended(name, next);
      if SymbolCode(name, index).Some? && NormalizeFrom(name, next).Ok? {
        var code, rest := SymbolCode(name, index).value, NormalizeFrom(name, next).value;
        assert [code] + (rest + [SPACE_CODE]) == [code] + rest + [SPACE_CODE];
      }
    }
  }

  /** Neither do trailing spaces, as long as the name still fits its field. */
  lemma TrailingSpaceDoesNotMatter(name: string)
    requires HashedCodes(name).Ok? && |NormalizeName(name).value| < NAME_SYMBOLS
    ensures HashParameterName(name + " ") == HashParameterName(name)
  {
    hide HashCodes, RegisterValue;
    SpaceAppended(name, 0);
  }

  /* ---------- A name whose hash is known ---------- */

  lemma Turn(data: byte, bitCount: nat, crc: bv16, next: bv16)
    requires 0 < bitCount && next == BitStep(crc, data >= 0x80)
    ensures HashBits(data, bitCount, crc) ==
            if bitCount == 1 then next else HashBits(data * 2 % 0x100, bitCount - 1, next)
  {}

  lemma HashOfSymbol1()
    ensures HashBits(26 * 2, 7, 0x0000) == 0x6489
  {
    hide HashBits;
    Turn(0x34, 7, 0x0000, 0x0000);
    Turn(0x68, 6, 0x0000, 0x0000);
    Turn(0xD0, 5, 0x0000, 0x8F57);
    Turn(0xA0, 4, 0x8F57, 0x1EAE);
    Turn(0x40, 3, 0x1EAE, 0x3D5C);
    Turn(0x80, 2, 0x3D5C, 0xF5EF);
    Turn(0x00, 1, 0xF5EF, 0x6489);
  }

  lemma HashOfSymbol2()
    ensures HashBits(28 * 2, 7, 0x6489) == 0xE91B
  {
    hide HashBits;
    Turn(0x38, 7, 0x6489, 0xC912);
    Turn(0x70, 6, 0xC912, 0x1D73);
    Turn(0xE0, 5, 0x1D73, 0xB5B1);
    Turn(0xC0, 4, 0xB5B1, 0x6B62);
    Turn(0x80, 3, 0x6B62, 0x5993);
    Turn(0x00, 2, 0x5993, 0xB326);
    Turn(0x00, 1, 0xB326, 0xE91B);
  }

  lemma HashOfSymbol3()
    ensures HashBits(62 * 2, 7, 0xE91B) == 0x47D0
  {
    hide HashBits;
    Turn(0x7C, 7, 0xE91B, 0x5D61);
    Turn(0xF8, 6, 0x5D61, 0x3595);
    Turn(0xF0, 5, 0x3595, 0xE47D);
    Turn(0xE0, 4, 0xE47D, 0xC8FA);
    Turn(0xC0, 3, 0xC8FA, 0x91F4);
    Turn(0x80, 2, 0x91F4, 0x23E8);
    Turn(0x00, 1, 0x23E8, 0x47D0);
  }

  lemma HashOfSymbol4()
    ensures HashBits(78 * 2, 7, 0x47D0) == 0xD681
  {
    hide HashBits;
    Turn(0x9C, 7, 0x47D0, 0x00F7);
    Turn(0x38, 6, 0x00F7, 0x01EE);
    Turn(0x70, 5, 0x01EE, 0x03DC);
    Turn(0xE0, 4, 0x03DC, 0x88EF);
    Turn(0xC0, 3, 0x88EF, 0x11DE);
    Turn(0x80, 2, 0x11DE, 0xACEB);
    Turn(0x00, 1, 0xACEB, 0xD681);
  }

  lemma CodesOfDev()
    ensures HashedCodes("dev") == Ok([26, 28, 62, 78])
  {
    assert SymbolCode("dev", 0) == Some(26) && SymbolCode("dev", 1) == Some(28) && SymbolCode("dev", 2) == Some(62);
    assert [62] + [] == [62] && [28] + [62] == [28, 62] && [26] + [28, 62] == [26, 28, 62];
    assert NormalizeFrom("dev", 3) == Ok([]);
    assert NormalizeFrom("dev", 2) == Ok([62]);
    assert NormalizeFrom("dev", 1) == Ok([28, 62]);
    assert NormalizeFrom("dev", 0) == Ok([26, 28, 62]);
    assert [26, 28, 62] + [SPACE_CODE] == [26, 28, 62, 78];
  }

  /** The polynomial, the symbol table, the padding and the bit order together: `dev`
      leaves 0xD681 in the register. */
  lemma HashOfDev()
    ensures HashParameterName("dev") == Ok(RegisterValue(0xD681))
  {
    hide HashBits;
    hide RegisterValue, HashedCodes;
    CodesOfDev();
    HashOfSymbol1();
    HashOfSymbol2();
    HashOfSymbol3();
    HashOfSymbol4();
    assert [26, 28, 62, 78][1..] == [28, 62, 78] && [28, 62, 78][1..] == [62, 78] && [62, 78][1..] == [78];
  }
}
