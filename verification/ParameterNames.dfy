/** Which parameter names are the same field on the wire, and what a dot in a name does. */
module ParameterNames {
  import opened Core
  import opened Crc
  import opened ParameterHash

  /* ---------- Codes and the names they spell ---------- */

  /** The forty symbols in the order of their codes: digits, letters, and four more. */
  function Symbol(place: nat): char
    requires place < 40
  {
    if place < 10 then '0' + place as char
    else if place < 36 then 'A' + (place - 10) as char
    else if place == 36 then '-'
    else if place == 37 then '_'
    else if place == 38 then '/'
    else ' '
  }

  predicate AreCodes(codes: seq<nat>) { forall i :: 0 <= i < |codes| ==> codes[i] < 80 }

  /** A symbol's code is twice its place, and one more with a dot after it. */
  function Sign(code: nat): string
    requires code < 80
  {
    if code % 2 == 1 then [Symbol(code / 2)] + "." else [Symbol(code / 2)]
  }

  function Spelled(codes: seq<nat>): string
    requires AreCodes(codes)
  {
    if codes == [] then "" else Sign(codes[0]) + Spelled(codes[1..])
  }

  /** A name in capital letters. */
  function Capitals(name: string): (r: string)
    ensures |r| == |name|
    ensures forall i :: 0 <= i < |name| ==> r[i] == if 'a' <= name[i] <= 'z' then name[i] - 'a' + 'A' else name[i]
  {
    seq(|name|, i requires 0 <= i < |name| => Upper(name[i]))
  }

  function Spaces(k: nat): (r: string)
    ensures |r| == k && forall i :: 0 <= i < k ==> r[i] == ' '
  {
    seq(k, i => ' ')
  }

  lemma PlaceOf(c: char)
    ensures BaseCode(c).Some? ==> Symbol(BaseCode(c).value) == Upper(c)
  {}

  lemma SymbolPlace(place: nat)
    requires place < 40
    ensures BaseCode(Symbol(place)) == Some(place) && Symbol(place) != '.'
  {}

  /* ---------- A name and its codes determine each other ---------- */

  lemma SpelledFront(code: nat, rest: seq<nat>)
    requires code < 80 && AreCodes(rest)
    ensures AreCodes([code] + rest) && Spelled([code] + rest) == Sign(code) + Spelled(rest)
  {
    assert ([code] + rest)[1..] == rest;
  }

  /** Where the next symbol of a name starts. */
  function Next(name: string, index: nat): nat { index + (if DotFollows(name, index) then 2 else 1) }

  lemma SignOfSymbol(name: string, index: nat)
    requires index < |name| && SymbolCode(name, index).Some?
    ensures Next(name, index) <= |name| && Sign(SymbolCode(name, index).value) == Capitals(name)[index..Next(name, index)]
  {
    hide Upper, Symbol, BaseCode;
    PlaceOf(name[index]);
  }

  lemma FirstOfNormal(name: string, index: nat)
    requires index < |name| && NormalizeFrom(name, index).Ok?
    ensures SymbolCode(name, index).Some? && Next(name, index) <= |name| && NormalizeFrom(name, Next(name, index)).Ok?
    ensures NormalizeFrom(name, index).value == [SymbolCode(name, index).value] + NormalizeFrom(name, Next(name, index)).value
  {
    hide SymbolCode;
  }

  /** The codes of a name spell it in capitals. */
  lemma {:induction false} CodesSpell(name: string, index: nat)
    requires index <= |name| && NormalizeFrom(name, index).Ok?
    ensures Spelled(NormalizeFrom(name, index).value) == Capitals(name)[index..]
    decreases |name| - index
  {
    if index < |name| {
      hide Capitals, Spelled, SymbolCode, NormalizeFrom, Sign, Next;
      var next := Next(name, index);
      FirstOfNormal(name, index);
      assert next > index by { NextIsLater(name, index); }
      CodesSpell(name, next);
      SpelledFront(SymbolCode(name, index).value, NormalizeFrom(name, next).value);
      SignOfSymbol(name, index);
      assert Capitals(name)[index..] == Capitals(name)[index..next] + Capitals(name)[next..] by {
        SliceTwice(Capitals(name), index, next);
      }
    }
  }

  lemma SliceTwice(s: string, i: nat, j: nat)
    requires i <= j <= |s|
    ensures s[i..] == s[i..j] + s[j..]
  {}

  lemma NextIsLater(name: string, index: nat)
    ensures Next(name, index) > index
  {}

  lemma {:induction false} Shifted(x: string, y: string, index: nat)
    requires index <= |y|
    ensures NormalizeFrom(x + y, |x| + index) == NormalizeFrom(y, index)
    decreases |y| - index
  {
    hide BaseCode;
    if index < |y| {
      assert DotFollows(x + y, |x| + index) == DotFollows(y, index);
      Shifted(x, y, index + (if DotFollows(y, index) then 2 else 1));
    }
  }

  /** One symbol's code, with and without a dot, in front of the rest. */
  lemma OneSymbol(c: char, b: string)
    requires c != '.' && (b != "" ==> b[0] != '.')
    ensures match BaseCode(c)
            case None => NormalizeName([c] + b).Err? && NormalizeName([c] + "." + b).Err?
            case Some(base) =>
              && NormalizeName([c] + b) == WithFront([2 * base], NormalizeName(b))
              && NormalizeName([c] + "." + b) == WithFront([2 * base + 1], NormalizeName(b))
  {
    hide BaseCode;
    Shifted([c], b, 0);
    Shifted([c] + ".", b, 0);
    assert DotFollows([c] + "." + b, 0) && !DotFollows([c] + b, 0);
  }

  lemma SignInFront(code: nat, rest: string)
    requires code < 80 && (rest != "" ==> rest[0] != '.')
    ensures NormalizeName(Sign(code) + rest) == WithFront([code], NormalizeName(rest))
    ensures |Sign(code)| >= 1 && Sign(code)[0] != '.'
  {
    hide Symbol, BaseCode, NormalizeName, WithFront;
    SymbolPlace(code / 2);
    OneSymbol(Symbol(code / 2), rest);
  }

  /** What codes spell has these codes. */
  lemma {:induction false} SpellingNormalizes(codes: seq<nat>)
    requires AreCodes(codes)
    ensures NormalizeName(Spelled(codes)) == Ok(codes)
    ensures codes != [] ==> Spelled(codes) != "" && Spelled(codes)[0] != '.'
  {
    hide Sign, NormalizeFrom;
    if codes == [] {
      assert NormalizeName("") == Ok([]) by { EmptyName(); }
    } else {
      hide NormalizeName;
      SpellingNormalizes(codes[1..]);
      SignInFront(codes[0], Spelled(codes[1..]));
      assert codes == [codes[0]] + codes[1..];
    }
  }

  lemma EmptyName()
    ensures NormalizeName("") == Ok([])
  {}

  lemma {:induction false} SpelledConcat(a: seq<nat>, b: seq<nat>)
    requires AreCodes(a) && AreCodes(b)
    ensures AreCodes(a + b) && Spelled(a + b) == Spelled(a) + Spelled(b)
  {
    hide Symbol;
    if a == [] {
      assert a + b == b;
    } else {
      assert (a + b)[1..] == a[1..] + b;
      SpelledConcat(a[1..], b);
    }
  }

  /** The codes of spaces. */
  function Blanks(k: nat): (codes: seq<nat>)
    ensures |codes| == k && AreCodes(codes)
  {
    seq(k, i => 78)
  }

  lemma {:induction false} BlanksSpell(k: nat)
    ensures Spelled(Blanks(k)) == Spaces(k)
  {
    if k > 0 {
      assert Blanks(k)[1..] == Blanks(k - 1);
      BlanksSpell(k - 1);
      assert Spaces(k) == " " + Spaces(k - 1);
    }
  }

  lemma {:induction false} PaddedWithBlanks(codes: seq<nat>)
    requires AreCodes(codes) && |codes| <= 4
    ensures Padded(codes) == codes + Blanks(4 - |codes|)
    decreases 4 - |codes|
  {
    if |codes| < 4 {
      PaddedWithBlanks(codes + [78]);
      assert codes + [78] + Blanks(3 - |codes|) == codes + Blanks(4 - |codes|);
    }
  }

  lemma CapitalsNormalize(name: string)
    ensures NormalizeName(Capitals(name)) == NormalizeName(name)
  {
    CaseDoesNotMatterFrom(Capitals(name), name, 0);
  }

  /** Exactly the names of one to four symbols, each with or without a dot after it, can be
      hashed, in capital or small letters. */
  lemma HashableExactly(name: string)
    ensures HashParameterName(name).Ok? <==>
            exists codes :: AreCodes(codes) && 1 <= |codes| <= 4 && Spelled(codes) == Capitals(name)
  {
    hide Spelled, HashCodes, NormalizeFrom;
    if NormalizeName(name).Ok? {
      CodesSpell(name, 0);
      assert Spelled(NormalizeName(name).value) == Capitals(name);
    }
    if codes :| AreCodes(codes) && 1 <= |codes| <= 4 && Spelled(codes) == Capitals(name) {
      SpellingNormalizes(codes);
      CapitalsNormalize(name);
    }
  }

  /* ---------- Names that are one field ---------- */

  /** A name without the spaces at its end. */
  function Trimmed(name: string): string {
    if name != "" && name[|name| - 1] == ' ' then Trimmed(name[..|name| - 1]) else name
  }

  lemma {:induction false} TrimmedIs(name: string)
    ensures |Trimmed(name)| <= |name| && name == Trimmed(name) + Spaces(|name| - |Trimmed(name)|)
  {
    if name != "" && name[|name| - 1] == ' ' {
      TrimmedIs(name[..|name| - 1]);
    }
  }

  lemma {:induction false} SpacesTrimmed(name: string, k: nat)
    ensures Trimmed(name + Spaces(k)) == Trimmed(name)
  {
    if k == 0 {
      assert name + Spaces(k) == name;
    } else {
      assert (name + Spaces(k))[..|name| + k - 1] == name + Spaces(k - 1);
      SpacesTrimmed(name, k - 1);
    }
  }

  lemma FieldSpells(name: string) returns (pad: nat)
    requires HashedCodes(name).Ok?
    ensures Spelled(HashedCodes(name).value) == Capitals(name) + Spaces(pad)
  {
    hide Spelled, Padded;
    var codes := NormalizeName(name).value;
    pad := 4 - |codes|;
    CodesSpell(name, 0);
    PaddedWithBlanks(codes);
    SpelledConcat(codes, Blanks(pad));
    BlanksSpell(pad);
  }

  lemma EqualSpellings(a: seq<nat>, b: seq<nat>)
    requires AreCodes(a) && AreCodes(b) && Spelled(a) == Spelled(b)
    ensures a == b
  {
    hide Spelled, NormalizeName;
    SpellingNormalizes(a);
    SpellingNormalizes(b);
  }

  lemma PaddedAlike(a: seq<nat>, b: seq<nat>, name: string, j: nat, k: nat)
    requires AreCodes(a) && AreCodes(b) && |a| == |b| && j <= k
    requires Spelled(a) == name + Spaces(j) && Spelled(b) == name + Spaces(k)
    ensures a == b
  {
    hide Spelled;
    assert name + Spaces(k) == name + Spaces(j) + Spaces(k - j);
    SpelledConcat(a, Blanks(k - j));
    BlanksSpell(k - j);
    EqualSpellings(b, a + Blanks(k - j));
  }

  lemma SpacesJoin(name: string, j: nat, k: nat)
    ensures name + Spaces(j) + Spaces(k) == name + Spaces(j + k)
  {}

  lemma AlikeExactly(a: seq<nat>, b: seq<nat>, x: string, y: string, i: nat, j: nat)
    requires AreCodes(a) && AreCodes(b) && |a| == |b|
    requires Spelled(a) == x + Spaces(i) && Spelled(b) == y + Spaces(j)
    ensures a == b <==> Trimmed(x) == Trimmed(y)
  {
    hide Spelled, Trimmed, AreCodes, Spaces;
    SpacesTrimmed(x, i);
    SpacesTrimmed(y, j);
    if Trimmed(x) == Trimmed(y) {
      var name := Trimmed(x);
      TrimmedIs(x);
      TrimmedIs(y);
      SpacesJoin(name, |x| - |name|, i);
      SpacesJoin(name, |y| - |name|, j);
      if |x| + i <= |y| + j {
        PaddedAlike(a, b, name, |x| - |name| + i, |y| - |name| + j);
      } else {
        PaddedAlike(b, a, name, |y| - |name| + j, |x| - |name| + i);
      }
    }
  }

  /** Two names are the same field on the wire exactly if they are equal up to letter case and
      spaces at the end. */
  lemma SameFieldExactly(m: string, n: string)
    requires HashParameterName(m).Ok? && HashParameterName(n).Ok?
    ensures HashedCodes(m) == HashedCodes(n) <==> Trimmed(Capitals(m)) == Trimmed(Capitals(n))
  {
    hide Spelled, Trimmed, HashedCodes, HashCodes, Capitals, Spaces;
    assert HashedCodes(m).Ok? && HashedCodes(n).Ok?;
    var i := FieldSpells(m);
    var j := FieldSpells(n);
    AlikeExactly(HashedCodes(m).value, HashedCodes(n).value, Capitals(m), Capitals(n), i, j);
  }

  /* ---------- Dots ---------- */

  lemma {:induction false} Joined(a: string, b: string, index: nat)
    requires index <= |a| && (b != "" ==> b[0] != '.')
    ensures NormalizeFrom(a + b, index) ==
            match NormalizeFrom(a, index)
            case Err(fault) => Err(fault)
            case Ok(codes) => WithFront(codes, NormalizeName(b))
    decreases |a| - index
  {
    hide BaseCode;
    if index == |a| {
      Shifted(a, b, 0);
      WithFrontTwice([], 0, NormalizeName(b));
    } else {
      assert DotFollows(a + b, index) == DotFollows(a, index);
      var next := index + (if DotFollows(a, index) then 2 else 1);
      Joined(a, b, next);
      if NormalizeFrom(a, next).Ok? && SymbolCode(a, index).Some? && NormalizeName(b).Ok? {
        var code, rest := SymbolCode(a, index).value, NormalizeFrom(a, next).value;
        assert [code] + (rest + NormalizeName(b).value) == [code] + rest + NormalizeName(b).value;
      }
    }
  }

  /** Adding the dot after one symbol of a name, or removing it, leaves a name that can be
      hashed and always changes the hash. */
  lemma DotsSeparateNames(a: string, c: char, b: string)
    requires c != '.' && (b != "" ==> b[0] != '.')
    ensures var plain, dotted := HashParameterName(a + [c] + b), HashParameterName(a + [c] + "." + b);
            && (plain.Ok? <==> dotted.Ok?)
            && (plain.Ok? ==> plain != dotted)
  {
    hide NormalizeFrom, BaseCode, HashCodes, Padded;
    var plain, dotted := a + [c] + b, a + [c] + "." + b;
    assert plain == a + ([c] + b) && dotted == a + ([c] + "." + b);
    Joined(a, [c] + b, 0);
    Joined(a, [c] + "." + b, 0);
    OneSymbol(c, b);
    if NormalizeName(a).Ok? && NormalizeName(b).Ok? && BaseCode(c).Some? {
      var front, rest, base := NormalizeName(a).value, NormalizeName(b).value, BaseCode(c).value;
      var k := |front|;
      assert NormalizeName(plain).value == front + ([2 * base] + rest);
      assert NormalizeName(dotted).value == front + ([2 * base + 1] + rest);
      if HashedCodes(plain).Ok? {
        PaddedWithBlanks(NormalizeName(plain).value);
        PaddedWithBlanks(NormalizeName(dotted).value);
        var p, q := HashedCodes(plain).value, HashedCodes(dotted).value;
        assert p[k] == 2 * base && q[k] == 2 * base + 1;
        assert forall i :: 0 <= i < 4 && i != k ==> p[i] == q[i];
        AdjacentSymbolsSeparateNames(plain, dotted, if k < 2 then k else 2);
      }
    }
  }

  /* ---------- A name with a dot whose hash is known ---------- */

  lemma HashOfSymbol1()
    ensures HashBits(21 * 2, 7, 0x0000) == 0x009F
  {
    hide HashBits;
    Turn(0x2A, 7, 0x0000, 0x0000);
    Turn(0x54, 6, 0x0000, 0x0000);
    Turn(0xA8, 5, 0x0000, 0x8F57);
    Turn(0x50, 4, 0x8F57, 0x91F9);
    Turn(0xA0, 3, 0x91F9, 0x23F2);
    Turn(0x40, 2, 0x23F2, 0x47E4);
    Turn(0x80, 1, 0x47E4, 0x009F);
  }

  lemma HashOfSymbol2()
    ensures HashBits(42 * 2, 7, 0x009F) == 0x4EBE
  {
    hide HashBits;
    Turn(0x54, 7, 0x009F, 0x013E);
    Turn(0xA8, 6, 0x013E, 0x8D2B);
    Turn(0x50, 5, 0x8D2B, 0x9501);
    Turn(0xA0, 4, 0x9501, 0x2A02);
    Turn(0x40, 3, 0x2A02, 0x5404);
    Turn(0x80, 2, 0x5404, 0x275F);
    Turn(0x00, 1, 0x275F, 0x4EBE);
  }

  lemma HashOfSymbol3()
    ensures HashBits(28 * 2, 7, 0x4EBE) == 0xF204
  {
    hide HashBits;
    Turn(0x38, 7, 0x4EBE, 0x9D7C);
    Turn(0x70, 6, 0x9D7C, 0xB5AF);
    Turn(0xE0, 5, 0xB5AF, 0x6B5E);
    Turn(0xC0, 4, 0x6B5E, 0x59EB);
    Turn(0x80, 3, 0x59EB, 0x3C81);
    Turn(0x00, 2, 0x3C81, 0x7902);
    Turn(0x00, 1, 0x7902, 0xF204);
  }

  lemma HashOfSymbol4()
    ensures HashBits(46 * 2, 7, 0xF204) == 0x1ED2
  {
    hide HashBits;
    Turn(0x5C, 7, 0xF204, 0x6B5F);
    Turn(0xB8, 6, 0x6B5F, 0x59E9);
    Turn(0x70, 5, 0x59E9, 0xB3D2);
    Turn(0xE0, 4, 0xB3D2, 0x67A4);
    Turn(0xC0, 3, 0x67A4, 0x401F);
    Turn(0x80, 2, 0x401F, 0x0F69);
    Turn(0x00, 1, 0x0F69, 0x1ED2);
  }

  /** The dot is folded into the first symbol: `A.Len` is hashed to 0x1ED2. */
  lemma HashOfALen()
    ensures HashParameterName("A.Len") == Ok(0x1ED2)
  {
    hide HashBits, RegisterValue, HashedCodes, WordBits, NumberBits;
    CodesOfALen();
    HashOfSymbol1();
    HashOfSymbol2();
    HashOfSymbol3();
    HashOfSymbol4();
    assert [21, 42, 28, 46][1..] == [42, 28, 46] && [42, 28, 46][1..] == [28, 46] && [28, 46][1..] == [46];
    assert RegisterValue(0x1ED2) == 0x1ED2 by { HoldsItself(); }
  }

  lemma HoldsItself()
    ensures RegisterValue(0x1ED2) == 0x1ED2
  {
    hide WordBits, BitsValue;
    ValueOf1ED2();
  }

  lemma CodesOfALen()
    ensures HashedCodes("A.Len") == Ok([21, 42, 28, 46])
  {
    assert SymbolCode("A.Len", 0) == Some(21) && SymbolCode("A.Len", 2) == Some(42);
    assert SymbolCode("A.Len", 3) == Some(28) && SymbolCode("A.Len", 4) == Some(46);
    assert [46] + [] == [46] && [28] + [46] == [28, 46] && [42] + [28, 46] == [42, 28, 46];
    assert [21] + [42, 28, 46] == [21, 42, 28, 46];
    assert NormalizeFrom("A.Len", 5) == Ok([]);
    assert NormalizeFrom("A.Len", 4) == Ok([46]);
    assert NormalizeFrom("A.Len", 3) == Ok([28, 46]);
    assert NormalizeFrom("A.Len", 2) == Ok([42, 28, 46]);
    assert NormalizeFrom("A.Len", 0) == Ok([21, 42, 28, 46]);
  }

  lemma {:induction false} FrontBit(bit: bool, rest: seq<bool>)
    ensures BitsValue([bit] + rest) == (if bit then Pow2(|rest|) else 0) + BitsValue(rest)
  {
    if rest != [] {
      var last := |rest| - 1;
      assert ([bit] + rest)[..|rest|] == [bit] + rest[..last];
      FrontBit(bit, rest[..last]);
    } else {
      assert [bit][..0] == [] && [bit] + [] == [bit];
    }
  }

  /** What the top bit of a register is worth. */
  lemma TopBit(register: bv16, width: nat, next: bv16)
    requires width > 0 && next == register << 1
    ensures BitsValue(WordBits(register, width)) ==
            (if register & 0x8000 != 0 then Pow2(width - 1) else 0) + BitsValue(WordBits(next, width - 1))
  {
    hide BitsValue, Pow2;
    FrontBit(register & 0x8000 != 0, WordBits(next, width - 1));
  }

  lemma PowersUpTo12()
    ensures Pow2(1) == 2 && Pow2(4) == 16 && Pow2(6) == 64 && Pow2(7) == 128 && Pow2(9) == 512 && Pow2(10) == 1024
    ensures Pow2(11) == 2048 && Pow2(12) == 4096
  {
    assert Pow2(3) == 8;
    assert Pow2(6) == 64;
    assert Pow2(9) == 512;
  }

  lemma ValueOf1ED2()
    ensures BitsValue(WordBits(0x1ED2, 16)) == 0x1ED2
  {
    hide WordBits, BitsValue, Pow2;
    PowersUpTo12();
    TopBit(0x1ED2, 16, 0x3DA4);
    TopBit(0x3DA4, 15, 0x7B48);
    TopBit(0x7B48, 14, 0xF690);
    TopBit(0xF690, 13, 0xED20);
    TopBit(0xED20, 12, 0xDA40);
    TopBit(0xDA40, 11, 0xB480);
    TopBit(0xB480, 10, 0x6900);
    TopBit(0x6900, 9, 0xD200);
    TopBit(0xD200, 8, 0xA400);
    TopBit(0xA400, 7, 0x4800);
    TopBit(0x4800, 6, 0x9000);
    TopBit(0x9000, 5, 0x2000);
    TopBit(0x2000, 4, 0x4000);
    TopBit(0x4000, 3, 0x8000);
    TopBit(0x8000, 2, 0x0000);
    TopBit(0x0000, 1, 0x0000);
    assert BitsValue(WordBits(0, 0)) == 0 by { NoBitsLeft(); }
  }

  lemma NoBitsLeft()
    ensures BitsValue(WordBits(0, 0)) == 0
  {}
}
