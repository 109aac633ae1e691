/** Bytes as they lie on the disk and on the wire: little-endian 32-bit
    integers, and the splice that a write performs. */
module Bytes {

  type byte = x: int | 0 <= x < 256
  type int32 = x: int | -0x8000_0000 <= x < 0x8000_0000
  type word = x: int | 0 <= x < 0x1_0000_0000

  function Min(a: int, b: int): int { if a < b then a else b }

  /** `base` with `patch` written over it from index `at` on. */
  function Splice<T>(base: seq<T>, at: nat, patch: seq<T>): seq<T>
    requires at + |patch| <= |base|
  {
    base[..at] + patch + base[at + |patch|..]
  }

  /** `bcopy(src, dst + at, |src|)` */
  method Copy(src: seq<byte>, dst: array<byte>, at: nat)
    requires at + |src| <= dst.Length
    modifies dst
    ensures dst[..] == Splice(old(dst[..]), at, src)
  {
    forall j | 0 <= j < |src| {
      dst[at + j] := src[j];
    }
  }

  function EncodeNat(n: nat): (b: seq<byte>)
    requires n < 0x1_0000_0000
    ensures |b| == 4
  {
    var q1 := n / 0x100;
    var q2 := q1 / 0x100;
    [n % 0x100, q1 % 0x100, q2 % 0x100, q2 / 0x100]
  }

  function DecodeNat(b: seq<byte>): (n: nat)
    requires |b| == 4
    ensures n < 0x1_0000_0000
  {
    var b0: int, b1: int, b2: int, b3: int := b[0], b[1], b[2], b[3];
    b0 + 0x100 * (b1 + 0x100 * (b2 + 0x100 * b3))
  }

  lemma NatRoundTrip(n: nat)
    requires n < 0x1_0000_0000
    ensures DecodeNat(EncodeNat(n)) == n
  {
  }

  /** An `int` of the host: little-endian two's complement. */
  function EncodeInt(x: int32): (b: seq<byte>)
    ensures |b| == 4
  {
    EncodeNat(if x < 0 then x + 0x1_0000_0000 else x)
  }

  function DecodeInt(b: seq<byte>): int32
    requires |b| == 4
  {
    var n := DecodeNat(b);
    if n >= 0x8000_0000 then n - 0x1_0000_0000 else n
  }

  /** Reading back an integer written to raw memory yields that integer. */
  lemma IntRoundTrip(x: int32)
    ensures DecodeInt(EncodeInt(x)) == x
  {
    NatRoundTrip(if x < 0 then x + 0x1_0000_0000 else x);
  }

  /** The bytes of an integer, lowest first, make up its two's complement. */
  lemma IntLayout(x: int32)
    ensures var b := EncodeInt(x);
            var b0: int, b1: int, b2: int, b3: int := b[0], b[1], b[2], b[3];
            b0 + 0x100 * b1 + 0x1_0000 * b2 + 0x100_0000 * b3 == if x < 0 then x + 0x1_0000_0000 else x
  {
    NatRoundTrip(if x < 0 then x + 0x1_0000_0000 else x);
  }

  /** An array of `w`-byte values as raw memory. */
  function Pack<T(!new)>(xs: seq<T>, w: nat, enc: T -> seq<byte>): (b: seq<byte>)
    requires forall x: T :: |enc(x)| == w
    ensures |b| == w * |xs|
  {
    if xs == [] then [] else
      assert w * |xs| == w + w * |xs[1..]|;
      enc(xs[0]) + Pack(xs[1..], w, enc)
  }

  /** Raw memory read as an array of `n` values of `w` bytes each. */
  function Unpack<T>(b: seq<byte>, w: nat, n: nat, dec: seq<byte> --> T): (xs: seq<T>)
    requires forall s: seq<byte> :: |s| == w ==> dec.requires(s)
    requires |b| == w * n
    ensures |xs| == n
    decreases n
  {
    if n == 0 then [] else
      assert w * n == w + w * (n - 1);
      [dec(b[..w])] + Unpack(b[w..], w, n - 1, dec)
  }

  lemma {:induction false} PackRoundTrip<T(!new)>(xs: seq<T>, w: nat, enc: T -> seq<byte>, dec: seq<byte> --> T)
    requires forall x: T :: |enc(x)| == w
    requires forall s: seq<byte> :: |s| == w ==> dec.requires(s)
    requires forall x: T :: dec(enc(x)) == x
    ensures Unpack(Pack(xs, w, enc), w, |xs|, dec) == xs
  {
    if xs != [] {
      var b := Pack(xs, w, enc);
      assert b[..w] == enc(xs[0]) && b[w..] == Pack(xs[1..], w, enc);
      PackRoundTrip(xs[1..], w, enc, dec);
    }
  }

  /** Value `k` is at offset `w * k`. */
  lemma {:induction false} PackAt<T(!new)>(xs: seq<T>, w: nat, enc: T -> seq<byte>, k: nat)
    requires (forall x: T :: |enc(x)| == w) && k < |xs|
    ensures 0 <= w * k <= w * k + w <= |Pack(xs, w, enc)| && Pack(xs, w, enc)[w * k..w * k + w] == enc(xs[k])
  {
    var b := Pack(xs, w, enc);
    assert b == enc(xs[0]) + Pack(xs[1..], w, enc);
    if k > 0 {
      PackAt(xs[1..], w, enc, k - 1);
      OffsetStep(w, k);
      var rest := Pack(xs[1..], w, enc);
      assert b[w * k..w * k + w] == rest[w * (k - 1)..w * (k - 1) + w];
    }
  }

  lemma OffsetStep(w: nat, k: int)
    requires k > 0
    ensures w * k == w * (k - 1) + w && w * (k - 1) >= 0
  {
  }

  function Pow2(n: nat): (r: nat)
    ensures r > 0
  {
    if n == 0 then 1 else 2 * Pow2(n - 1)
  }

  lemma Pow2Is32()
    ensures Pow2(32) == 0x1_0000_0000
  {
    assert Pow2(8) == 256;
    assert Pow2(16) == 65536;
    assert Pow2(24) == 0x100_0000;
  }
}
