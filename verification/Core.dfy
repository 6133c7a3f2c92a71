/** Results, faults, bytes and bit strings shared by the whole model. */
module Core {
  type byte = n: int | 0 <= n < 0x100
  type word = n: int | 0 <= n < 0x1_0000

  datatype Option<+T> = None | Some(value: T)

  /** The exception families the gateway tells apart: `TimeoutError`, `ValueError` and
      `RuntimeError` have handlers of their own, everything else is an I/O failure. */
  datatype Fault = Timeout | ValueFault | RuntimeFault | OtherFault

  datatype Result<+T> = Ok(value: T) | Err(fault: Fault) {
    predicate IsFailure() { Err? }
    function PropagateFailure<U>(): Result<U>
      requires Err?
    {
      Err(fault)
    }
    function Extract(): T
      requires Ok?
    {
      value
    }
  }

  function Pow2(k: nat): (p: int)
    ensures p >= 1
  {
    if k == 0 then 1 else 2 * Pow2(k - 1)
  }

  lemma PowersOfTwo()
    ensures Pow2(4) == 0x10 && Pow2(7) == 0x80 && Pow2(8) == 0x100 && Pow2(16) == 0x1_0000
  {
    assert Pow2(4) == 0x10;
    assert Pow2(8) == 0x100;
    assert Pow2(12) == 0x1000;
  }

  lemma SomeElement<T>(elements: set<T>) returns (element: T)
    requires elements != {}
    ensures element in elements
  {
    element :| element in elements;
  }

  /* ---------- Numbers as bit strings, most significant bit first ---------- */

  function NumberBits(n: nat, width: nat): (bits: seq<bool>)
    ensures |bits| == width
  {
    if width == 0 then [] else NumberBits(n / 2, width - 1) + [n % 2 == 1]
  }

  function BitsValue(bits: seq<bool>): (n: nat)
    ensures n < Pow2(|bits|)
  {
    if bits == [] then 0
    else 2 * BitsValue(bits[..|bits| - 1]) + (if bits[|bits| - 1] then 1 else 0)
  }

  lemma {:induction false} BitsOfValue(bits: seq<bool>)
    ensures NumberBits(BitsValue(bits), |bits|) == bits
  {
    if bits != [] {
      var last := |bits| - 1;
      BitsOfValue(bits[..last]);
      assert bits == bits[..last] + [bits[last]];
    }
  }

  lemma {:induction false} ValueOfBits(n: nat, width: nat)
    requires n < Pow2(width)
    ensures BitsValue(NumberBits(n, width)) == n
  {
    if width > 0 {
      ValueOfBits(n / 2, width - 1);
      assert NumberBits(n, width)[..width - 1] == NumberBits(n / 2, width - 1);
    }
  }

  lemma NumberBitsInjective(m: nat, n: nat, width: nat)
    requires m < Pow2(width) && n < Pow2(width) && NumberBits(m, width) == NumberBits(n, width)
    ensures m == n
  {
    ValueOfBits(m, width);
    ValueOfBits(n, width);
  }

  /** A number's bits are those of its high part followed by those of its low part. */
  lemma {:induction false} SplitBits(high: nat, low: nat, highWidth: nat, lowWidth: nat)
    requires low < Pow2(lowWidth)
    ensures NumberBits(high * Pow2(lowWidth) + low, highWidth + lowWidth) ==
            NumberBits(high, highWidth) + NumberBits(low, lowWidth)
  {
    if lowWidth > 0 {
      var n := high * Pow2(lowWidth) + low;
      assert n == 2 * (high * Pow2(lowWidth - 1)) + low;
      assert n / 2 == high * Pow2(lowWidth - 1) + low / 2 && n % 2 == low % 2;
      SplitBits(high, low / 2, highWidth, lowWidth - 1);
    }
  }
}
