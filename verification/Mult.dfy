/** The multiplier of the simulated processor: 64 bits by shifting and adding
    32-bit words. Words are integers, and every wrap-around is written out. */
module Multiplication {
  import opened Common
  import opened Bytes

  /** The bits of an `int` read as an `unsigned int`, and back. */
  function Unsigned(x: int32): word {
    if x < 0 then x + 0x1_0000_0000 else x
  }

  function Signed(w: word): int32 {
    if w >= 0x8000_0000 then w - 0x1_0000_0000 else w
  }

  /** Negation of an `int`, which leaves the most negative one alone. */
  function Negated(x: int32): int32 {
    if x == -0x8000_0000 then x else -x
  }

  function Join(hi: word, lo: word): (r: int)
    ensures 0 <= r < 0x1_0000_0000_0000_0000
  {
    0x1_0000_0000 * hi + lo
  }

  /** A shift right keeps the sign. */
  function HalfDown(x: int32): int32 {
    x / 2
  }

  /** The loop's arithmetic: `rest` are the bits of `a` still to come. */
  ghost predicate Balanced(sum: int, shifted: int, rest: int, product: int) {
    sum + shifted * rest == product
  }

  lemma AddStep(sum: int, shifted: int, rest: int, product: int)
    requires Balanced(sum, shifted, rest, product) && rest >= 0 && shifted >= 0
    ensures Balanced(if rest % 2 == 1 then sum + shifted else sum, 2 * shifted, rest / 2, product)
    ensures rest % 2 == 1 ==> sum + shifted <= product
  {
    var q, r := rest / 2, rest % 2;
    assert rest == 2 * q + r;
    assert shifted * rest == (2 * shifted) * q + shifted * r;
    assert shifted * r == if r == 1 then shifted else 0;
    assert (2 * shifted) * q >= 0;
  }

  /** The addition of two double words, with the carry out of the low one. */
  method AddDouble(hi: word, lo: word, bHi: word, bLo: word) returns (hi': word, lo': word)
    requires Join(hi, lo) + Join(bHi, bLo) < 0x1_0000_0000_0000_0000
    ensures Join(hi', lo') == Join(hi, lo) + Join(bHi, bLo)
  {
    lo' := (lo + bLo) % 0x1_0000_0000;
    hi' := hi;
    if lo' < bLo {
      hi' := (hi' + 1) % 0x1_0000_0000;
    }
    hi' := (hi' + bHi) % 0x1_0000_0000;
  }

  /** The shift left of a double word. */
  method ShiftDouble(bHi: word, bLo: word) returns (bHi': word, bLo': word)
    requires 2 * Join(bHi, bLo) < 0x1_0000_0000_0000_0000
    ensures Join(bHi', bLo') == 2 * Join(bHi, bLo)
  {
    Doubled(bHi);
    Doubled(bLo);
    bHi' := (2 * bHi) % 0x1_0000_0000;
    if bLo >= 0x8000_0000 {
      bHi' := bHi' + 1;
    }
    bLo' := (2 * bLo) % 0x1_0000_0000;
  }

  lemma Doubled(w: word)
    ensures (2 * w) % 0x1_0000_0000 == if w >= 0x8000_0000 then 2 * w - 0x1_0000_0000 else 2 * w
  {
  }

  /** Two's complement of a double word. */
  method NegateDouble(hi: word, lo: word) returns (hi': word, lo': word)
    requires Join(hi, lo) > 0
    ensures Join(hi', lo') == 0x1_0000_0000_0000_0000 - Join(hi, lo)
  {
    hi' := 0xffff_ffff - hi;
    lo' := 0xffff_ffff - lo;
    lo' := (lo' + 1) % 0x1_0000_0000;
    if lo' == 0 {
      hi' := (hi' + 1) % 0x1_0000_0000;
    }
  }

  /** `i` shifts so far: `b` has moved up as far as `a` has moved down, and the
      bits of `a`, sign and all, agree with its value as an unsigned word as far
      as they will be looked at. */
  ghost predicate InStep(i: nat, a: int, rest: int, b: int, shifted: int, negative: bool) {
    && i <= 32 && 0 <= rest < Pow2(32 - i)
    && shifted * Pow2(32 - i) == b * 0x1_0000_0000
    && a == rest - (if negative then Pow2(32 - i) else 0)
  }

  lemma ShiftStep(i: nat, a: int, rest: int, b: int, shifted: int, negative: bool)
    requires InStep(i, a, rest, b, shifted, negative) && i < 32 && 0 <= b < 0x1_0000_0000 && shifted >= 0
    ensures InStep(i + 1, a / 2, rest / 2, b, 2 * shifted, negative)
    ensures a % 2 == rest % 2 && 2 * shifted < 0x1_0000_0000_0000_0000 && (a == 1 ==> rest == 1)
  {
    var p := Pow2(32 - i - 1);
    assert Pow2(32 - i) == 2 * p && p >= 1;
    hide Pow2;
    Regroup(shifted, p);
    Grows(2 * shifted, p);
  }

  lemma Regroup(x: int, p: int)
    ensures x * (2 * p) == (2 * x) * p
  {
  }

  lemma Grows(x: int, p: nat)
    requires x >= 0 && p >= 1
    ensures x <= x * p
  {
  }

  lemma ProductFits(x: word, y: word)
    ensures 0 <= x * y < 0x1_0000_0000_0000_0000
  {
    Bounded(x, y, 0x1_0000_0000);
  }

  lemma Bounded(x: int, y: int, n: int)
    requires 0 <= x < n && 0 <= y < n
    ensures 0 <= x * y < n * n
  {
    assert x * y <= x * n <= n * n;
    assert x * n < n * n;
  }

  /** The product of two unsigned words, one of them held as an `int`. */
  method MultUnsigned(a0: int32, b: word) returns (hi: word, lo: word)
    ensures Join(hi, lo) == Unsigned(a0) * b
  {
    var a := a0;
    var bLo: word, bHi: word := b, 0;
    lo, hi := 0, 0;
    ghost var rest, product := Unsigned(a0), Unsigned(a0) * b;
    ProductFits(Unsigned(a0), b);
    Start(a0, b);
    hide InStep, Balanced;
    var i := 0;
    while i < 32
      invariant 0 <= i <= 32 && rest >= 0
      invariant InStep(i, a, rest, b, Join(bHi, bLo), a0 < 0)
      invariant Balanced(Join(hi, lo), Join(bHi, bLo), rest, product)
    {
      ShiftStep(i, a, rest, b, Join(bHi, bLo), a0 < 0);
      AddStep(Join(hi, lo), Join(bHi, bLo), rest, product);
      if a % 2 == 1 {
        hi, lo := AddDouble(hi, lo, bHi, bLo);
        if a == 1 {
          Last(Join(hi, lo), 2 * Join(bHi, bLo), rest / 2, product);
          return;
        }
      }
      bHi, bLo := ShiftDouble(bHi, bLo);
      a := HalfDown(a);
      rest := rest / 2;
      i := i + 1;
    }
    assert rest == 0 by { Finished(a, rest, b, Join(bHi, bLo), a0 < 0); }
    Last(Join(hi, lo), Join(bHi, bLo), rest, product);
  }

  lemma Start(a0: int32, b: word)
    ensures InStep(0, a0, Unsigned(a0), b, Join(0, b), a0 < 0)
    ensures Balanced(Join(0, 0), Join(0, b), Unsigned(a0), Unsigned(a0) * b)
  {
    Pow2Is32();
  }

  lemma Last(sum: int, shifted: int, rest: int, product: int)
    requires Balanced(sum, shifted, rest, product) && rest == 0
    ensures sum == product
  {
  }

  lemma Finished(a: int, rest: int, b: int, shifted: int, negative: bool)
    requires InStep(32, a, rest, b, shifted, negative)
    ensures rest == 0
  {
  }

  /** The product of two words, as the processor's 64-bit result. */
  function Product64(a: int32, b: int32, signedArith: bool): (r: int)
    ensures 0 <= r < 0x1_0000_0000_0000_0000
  {
    (if signedArith then a * b else Unsigned(a) * Unsigned(b)) % 0x1_0000_0000_0000_0000
  }

  /** The exact product, signed or unsigned, for every pair of words. */
  method Mult(a0: int32, b0: int32, signedArith: bool) returns (hiPtr: int32, loPtr: int32)
    ensures signedArith ==> 0x1_0000_0000 * hiPtr + Unsigned(loPtr) == a0 * b0
    ensures !signedArith ==> 0x1_0000_0000 * Unsigned(hiPtr) + Unsigned(loPtr) == Unsigned(a0) * Unsigned(b0)
    ensures Join(Unsigned(hiPtr), Unsigned(loPtr)) == Product64(a0, b0, signedArith)
  {
    hide Product64;
    if a0 == 0 || b0 == 0 {
      ProductOfZero(a0, b0, signedArith);
      return 0, 0;
    }
    var a, b := a0, b0;
    var negative := false;
    if signedArith {
      if a < 0 {
        negative := !negative;
        a := Negated(a);
      }
      if b < 0 {
        negative := !negative;
        b := Negated(b);
      }
    }
    var hi, lo := MultUnsigned(a, Unsigned(b));
    assert signedArith ==> Join(hi, lo) == (if negative then -(a0 * b0) else a0 * b0) && 0 < Join(hi, lo) <= 0x4000_0000_0000_0000 by {
      if signedArith {
        Magnitudes(a0, b0);
      }
    }
    if negative {
      hi, lo := NegateDouble(hi, lo);
    }
    hiPtr, loPtr := Signed(hi), Signed(lo);
    ProductIs(a0, b0, signedArith, hiPtr, loPtr);
  }

  lemma ProductOfZero(a: int32, b: int32, signedArith: bool)
    requires a == 0 || b == 0
    ensures Product64(a, b, signedArith) == 0
  {
  }

  lemma ProductIs(a: int32, b: int32, signedArith: bool, hi: int32, lo: int32)
    requires signedArith ==> 0x1_0000_0000 * hi + Unsigned(lo) == a * b
    requires !signedArith ==> 0x1_0000_0000 * Unsigned(hi) + Unsigned(lo) == Unsigned(a) * Unsigned(b)
    ensures Join(Unsigned(hi), Unsigned(lo)) == Product64(a, b, signedArith)
  {
    Wraps(if signedArith then a * b else Unsigned(a) * Unsigned(b), hi, lo);
  }

  /** The double word read as signed or as unsigned is the same modulo 2^64. */
  lemma Wraps(p: int, hi: int32, lo: int32)
    requires p == 0x1_0000_0000 * hi + Unsigned(lo) || p == 0x1_0000_0000 * Unsigned(hi) + Unsigned(lo)
    ensures Join(Unsigned(hi), Unsigned(lo)) == p % 0x1_0000_0000_0000_0000
  {
  }

  lemma SignOfProduct(a: int, b: int)
    ensures Magnitude(a) * Magnitude(b) == if (a < 0) != (b < 0) then -(a * b) else a * b
  {
    assert (-a) * b == -(a * b) && a * (-b) == -(a * b) && (-a) * (-b) == a * b;
  }

  lemma BoundedAbove(x: int, y: int, n: int)
    requires 0 < x <= n && 0 < y <= n
    ensures 0 < x * y <= n * n
  {
    assert x * y <= x * n <= n * n;
  }

  lemma Magnitudes(a: int32, b: int32)
    requires a != 0 && b != 0
    ensures 0 < Magnitude(a) * Magnitude(b) <= 0x4000_0000_0000_0000
    ensures Magnitude(a) * Magnitude(b) == if (a < 0) != (b < 0) then -(a * b) else a * b
    ensures Unsigned(if a < 0 then Negated(a) else a) == Magnitude(a)
    ensures Unsigned(if b < 0 then Negated(b) else b) == Magnitude(b)
  {
    BoundedAbove(Magnitude(a), Magnitude(b), 0x8000_0000);
    SignOfProduct(a, b);
  }
}
