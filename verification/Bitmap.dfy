/** The in-memory bit map and the set of bit numbers it stands for. */
module Bitmaps {
  import opened Bytes

  /** `divRoundUp(n, BitsInWord)` */
  function WordsFor(n: nat): nat {
    n / 32 + (if n % 32 > 0 then 1 else 0)
  }

  /** Binary digit `i` of `w`, i.e. whether `w & (1 << i)` is nonzero. */
  predicate HasBit(w: nat, i: nat) {
    if i == 0 then w % 2 == 1 else HasBit(w / 2, i - 1)
  }

  lemma DoubledBits(w: nat, q: nat, d: nat)
    requires w == 2 * q + d && d < 2
    ensures forall j: nat :: HasBit(w, j) <==> if j == 0 then d == 1 else HasBit(q, j - 1)
  {
    assert w / 2 == q && w % 2 == d;
  }

  /** `w | (1 << i)` in a word of `n` bits. */
  function OrBit(w: nat, i: nat, n: nat): (r: nat)
    requires i < n && w < Pow2(n)
    ensures r < Pow2(n)
    ensures forall j: nat :: HasBit(r, j) <==> i == j || HasBit(w, j)
  {
    if i == 0 then
      var r := w - w % 2 + 1;
      DoubledBits(r, w / 2, 1);
      DoubledBits(w, w / 2, w % 2);
      r
    else
      var q := OrBit(w / 2, i - 1, n - 1);
      var r := 2 * q + w % 2;
      DoubledBits(r, q, w % 2);
      DoubledBits(w, w / 2, w % 2);
      r
  }

  /** `w & ~(1 << i)`. */
  function AndNotBit(w: nat, i: nat): (r: nat)
    ensures r <= w
    ensures forall j: nat :: HasBit(r, j) <==> i != j && HasBit(w, j)
  {
    if i == 0 then
      var r := w - w % 2;
      DoubledBits(r, w / 2, 0);
      DoubledBits(w, w / 2, w % 2);
      r
    else
      var q := AndNotBit(w / 2, i - 1);
      var r := 2 * q + w % 2;
      DoubledBits(r, q, w % 2);
      DoubledBits(w, w / 2, w % 2);
      r
  }

  lemma {:induction false} ZeroBits(j: nat)
    ensures !HasBit(0, j)
  {
    if j > 0 { ZeroBits(j - 1); }
  }

  /** Bit `n` of an array of words, as the source picks it out. */
  predicate BitSet(ws: seq<word>, n: nat)
    requires n < 32 * |ws|
  {
    HasBit(ws[n / 32], n % 32)
  }

  /** The bits below `n` that are set. */
  ghost function Marked(ws: seq<word>, n: nat): (r: set<int>)
    requires n <= 32 * |ws|
    ensures forall i :: i in r <==> 0 <= i < n && BitSet(ws, i)
  {
    set i: int | 0 <= i < n && BitSet(ws, i)
  }

  lemma MarkedStep(ws: seq<word>, n: nat)
    requires n < 32 * |ws|
    ensures Marked(ws, n + 1) == Marked(ws, n) + (if BitSet(ws, n) then {n as int} else {})
  {
  }

  function EncodeWord(w: word): (b: seq<byte>)
    ensures |b| == 4
  {
    EncodeNat(w)
  }

  function DecodeWord(b: seq<byte>): word
    requires |b| == 4
  {
    DecodeNat(b)
  }

  lemma WordRoundTrip(w: word)
    ensures DecodeWord(EncodeWord(w)) == w
  {
    NatRoundTrip(w);
  }

  /** The words of a map as raw memory. */
  function EncodeWords(ws: seq<word>): (b: seq<byte>)
    ensures |b| == 4 * |ws|
  {
    Pack(ws, 4, EncodeWord)
  }

  function DecodeWords(b: seq<byte>, n: nat): (ws: seq<word>)
    requires |b| == 4 * n
    ensures |ws| == n
  {
    Unpack(b, 4, n, DecodeWord)
  }

  /** A map read back from the bytes it was written as is the same map. */
  lemma WordsRoundTrip(ws: seq<word>)
    ensures DecodeWords(EncodeWords(ws), |ws|) == ws
  {
    forall w: word ensures DecodeWord(EncodeWord(w)) == w { WordRoundTrip(w); }
    PackRoundTrip(ws, 4, EncodeWord, DecodeWord);
  }

  /** Every bit number in `0..n` lies outside a set of fewer than `n` of them. */
  lemma {:induction false} SomeClear(s: set<int>, n: nat)
    requires forall i :: 0 <= i < n ==> i in s
    ensures |s| >= n
  {
    if n > 0 {
      SomeClear(s - {n - 1}, n - 1);
    }
  }

  class Bitmap {
    var numBits: nat
    var words: array<word>

    ghost predicate Valid()
      reads this
    {
      numBits > 0 && words.Length == WordsFor(numBits)
    }

    /** The set of marked bit numbers. */
    ghost function Bits(): (s: set<int>)
      requires Valid()
      reads this, words
      ensures forall i :: i in s ==> 0 <= i < numBits
    {
      Marked(words[..], numBits)
    }

    constructor (numItems: nat)
      requires numItems > 0
      ensures Valid() && fresh(words) && numBits == numItems && Bits() == {}
    {
      numBits := numItems;
      words := new word[WordsFor(numItems)](i => 0);
      new;
      for i := 0 to numBits
        invariant Valid() && fresh(words) && numBits == numItems
        invariant forall k :: 0 <= k < words.Length ==> words[k] == 0
      {
        Clear(i);
      }
      forall i | 0 <= i < numBits ensures !BitSet(words[..], i) { ZeroBits(i % 32); }
    }

    method Mark(which: int)
      requires Valid() && 0 <= which < numBits
      modifies words
      ensures Bits() == old(Bits()) + {which}
    {
      ghost var was := words[..];
      Pow2Is32();
      words[which / 32] := OrBit(words[which / 32], which % 32, 32);
      forall j | 0 <= j < numBits
        ensures BitSet(words[..], j) <==> j == which || BitSet(was, j)
      {
        assert HasBit(words[which / 32], j % 32) <==> which % 32 == j % 32 || HasBit(was[which / 32], j % 32);
      }
      var ok := Test(which);
      assert ok;
    }

    method Clear(which: int)
      requires Valid() && 0 <= which < numBits
      modifies words
      ensures Bits() == old(Bits()) - {which}
      ensures (forall k :: 0 <= k < words.Length ==> old(words[k]) == 0) ==> words[..] == old(words[..])
    {
      ghost var was := words[..];
      words[which / 32] := AndNotBit(words[which / 32], which % 32);
      forall j | 0 <= j < numBits
        ensures BitSet(words[..], j) <==> j != which && BitSet(was, j)
      {
        assert HasBit(words[which / 32], j % 32) <==> which % 32 != j % 32 && HasBit(was[which / 32], j % 32);
      }
      var ok := Test(which);
      assert !ok;
    }

    method Test(which: int) returns (r: bool)
      requires Valid() && 0 <= which < numBits
      ensures r <==> which in Bits()
    {
      r := HasBit(words[which / 32], which % 32);
      assert r <==> BitSet(words[..], which);
    }

    /** Claims the lowest clear bit; -1 exactly when every bit is set. */
    method FindAndSet() returns (r: int)
      requires Valid()
      modifies words
      ensures r == -1 ==> Bits() == old(Bits()) && |Bits()| == numBits
      ensures r != -1 ==> 0 <= r < numBits && r !in old(Bits()) && Bits() == old(Bits()) + {r}
      ensures r != -1 ==> forall j :: 0 <= j < r ==> j in old(Bits())
    {
      for i := 0 to numBits
        invariant words[..] == old(words[..])
        invariant forall j :: 0 <= j < i ==> j in Bits()
      {
        var t := Test(i);
        if !t {
          Mark(i);
          return i;
        }
      }
      forall j: int | 0 <= j < numBits ensures j in Marked(words[..], numBits) { assert j in Bits(); }
      AllSet(words[..], numBits);
      return -1;
    }

    static lemma AllSet(ws: seq<word>, n: nat)
      requires n <= 32 * |ws| && forall j: int :: 0 <= j < n ==> j in Marked(ws, n)
      ensures |Marked(ws, n)| == n
    {
      SomeClear(Marked(ws, n), n);
      AtMost(ws, n);
    }

    static lemma {:induction false} AtMost(ws: seq<word>, n: nat)
      requires n <= 32 * |ws|
      ensures |Marked(ws, n)| <= n
    {
      if n > 0 {
        MarkedStep(ws, n - 1);
        AtMost(ws, n - 1);
      }
    }

    method NumClear() returns (count: nat)
      requires Valid()
      ensures count == numBits - |Bits()|
    {
      count := 0;
      for i := 0 to numBits
        invariant count == i - |Marked(words[..], i)|
      {
        MarkedStep(words[..], i);
        var t := Test(i);
        if !t {
          count := count + 1;
        }
      }
    }
  }
}
