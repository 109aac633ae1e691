/** What the operations on 32-bit words do to the numbers that the words stand
    for. */
module Words {
  import opened Bytes

  /** The number that a word stands for, unsigned. */
  function Value(x: bv32): (n: int)
    ensures 0 <= n < 0x1_0000_0000
  {
    x as int
  }

  /** The same, in two's complement. */
  function SignedValue(x: bv32): (n: int)
    ensures -0x8000_0000 <= n < 0x8000_0000
  {
    if Value(x) >= 0x8000_0000 then Value(x) - 0x1_0000_0000 else Value(x)
  }

  predicate Negative(x: bv32) {
    x & 0x8000_0000 != 0
  }

  // The operations by name, so that a proof can leave them uninterpreted.
  function Plus(x: bv32, y: bv32): bv32 { x + y }
  function Minus(x: bv32, y: bv32): bv32 { x - y }
  function Not(x: bv32): bv32 { !x }
  function And(x: bv32, y: bv32): bv32 { x & y }
  function Or(x: bv32, y: bv32): bv32 { x | y }
  function Xor(x: bv32, y: bv32): bv32 { x ^ y }
  function Doubled(x: bv32): bv32 { x << 1 }
  function Halved(x: bv32): bv32 { x >> 1 }

  lemma Constants()
    ensures Value(0) == 0 && Value(1) == 1 && Value(4) == 4 && Value(0xffff_ffff) == 0xffff_ffff
  {
  }

  lemma Same(x: bv32, y: bv32)
    requires Value(x) == Value(y)
    ensures x == y
  {
    assert (x as int) as bv32 == x && (y as int) as bv32 == y;
  }

  // ---- addition and subtraction, by way of a 33rd bit ----

  function Carry(x: bv32, y: bv32): bv1 {
    (((x as bv33) + (y as bv33)) >> 32) as bv1
  }

  lemma WideSum(x: bv32, y: bv32)
    ensures ((x as bv33) + (y as bv33)) as int == Value(x) + Value(y)
  {
  }

  lemma WideSplit(c: bv1, x: bv32)
    ensures (((c as bv33) << 32) | (x as bv33)) as int == 0x1_0000_0000 * (c as int) + Value(x)
  {
  }

  lemma CarryOut(x: bv32, y: bv32)
    ensures (x as bv33) + (y as bv33) == ((Carry(x, y) as bv33) << 32) | (Plus(x, y) as bv33)
  {
  }

  lemma OneBit(c: bv1)
    ensures (c as int == 0 || c as int == 1) && (c as int == 1 <==> c == 1)
  {
  }

  lemma SumIs(x: bv32, y: bv32) returns (c: int)
    ensures Value(x) + Value(y) == 0x1_0000_0000 * c + Value(Plus(x, y)) && (c == 0 || c == 1)
  {
    hide Value, Plus, Carry;
    WideSum(x, y);
    WideSplit(Carry(x, y), Plus(x, y));
    CarryOut(x, y);
    OneBit(Carry(x, y));
    c := Carry(x, y) as int;
  }

  lemma Remainder(n: int, q: int, r: int)
    requires n == 0x1_0000_0000 * q + r && 0 <= r < 0x1_0000_0000
    ensures n % 0x1_0000_0000 == r
  {
  }

  lemma SumWraps(x: bv32, y: bv32)
    ensures Value(Plus(x, y)) == (Value(x) + Value(y)) % 0x1_0000_0000
  {
    hide Value, Plus;
    var c := SumIs(x, y);
    Remainder(Value(x) + Value(y), c, Value(Plus(x, y)));
  }

  lemma Cancel(x: bv32, y: bv32)
    ensures Plus(x - y, y) == x
  {
  }

  lemma MinusIs(x: bv32, y: bv32)
    ensures Minus(x, y) == x - y
  {
  }

  lemma DifferenceWraps(x: bv32, y: bv32)
    ensures Value(Minus(x, y)) == (Value(x) - Value(y)) % 0x1_0000_0000
  {
    hide Value, Plus, Minus;
    Cancel(x, y);
    MinusIs(x, y);
    var c := SumIs(Minus(x, y), y);
    Remainder(Value(x) - Value(y), -c, Value(Minus(x, y)));
  }

  lemma Complement(x: bv32)
    ensures Plus(x, Not(x)) == 0xffff_ffff
  {
  }

  lemma NotIs(x: bv32)
    ensures Value(Not(x)) == 0xffff_ffff - Value(x) && SignedValue(Not(x)) == -1 - SignedValue(x)
  {
    hide Value, Plus, Not;
    Constants();
    Complement(x);
    var c := SumIs(x, Not(x));
  }

  // ---- the sign ----

  function TopBit(x: bv32): bv1 { (x >> 31) as bv1 }
  function OtherBits(x: bv32): bv31 { (x & 0x7fff_ffff) as bv31 }
  function JoinTop(c: bv1, r: bv31): bv32 { ((c as bv32) << 31) | (r as bv32) }

  lemma TopSplit(c: bv1, r: bv31)
    ensures Value(JoinTop(c, r)) == 0x8000_0000 * (c as int) + r as int
  {
  }

  lemma TopParts(x: bv32)
    ensures JoinTop((x >> 31) as bv1, (x & 0x7fff_ffff) as bv31) == x
  {
  }

  lemma TopPartsAre(x: bv32)
    ensures TopBit(x) == (x >> 31) as bv1 && OtherBits(x) == (x & 0x7fff_ffff) as bv31
  {
  }

  lemma TopIsSign(x: bv32)
    ensures Negative(x) <==> TopBit(x) == 1
  {
  }

  lemma NegativeIs(x: bv32)
    ensures Negative(x) <==> SignedValue(x) < 0
  {
    hide Value, Negative, TopBit, OtherBits, JoinTop;
    TopParts(x);
    TopPartsAre(x);
    TopSplit(TopBit(x), OtherBits(x));
    OneBit(TopBit(x));
    TopIsSign(x);
  }

  lemma SignOfXor(x: bv32, y: bv32)
    ensures Negative(Xor(x, y)) <==> Negative(x) != Negative(y)
  {
  }

  // ---- numbers to words ----

  function ToWord(n: nat): bv32
    requires n < 0x1_0000_0000
  {
    n as bv32
  }

  lemma ToWordZero()
    ensures Value(ToWord(0)) == 0
  {
  }

  /** A number below 2^32, as a word, stands for itself. */
  lemma {:induction false} ToWordIs(n: nat)
    requires n < 0x1_0000_0000
    ensures Value(ToWord(n)) == n
  {
    hide Value, ToWord, Plus;
    if n == 0 {
      ToWordZero();
    } else {
      ToWordIs(n - 1);
      Constants();
      SumWraps(ToWord(n - 1), 1);
      Converts(Plus(ToWord(n - 1), 1), n);
    }
  }

  lemma Converts(y: bv32, n: nat)
    requires n < 0x1_0000_0000 && Value(y) == n
    ensures ToWord(n) == y
  {
    assert (y as int) as bv32 == y;
  }

  // ---- shifts ----

  lemma DoubledSum(x: bv32)
    ensures Doubled(x) == Plus(x, x)
  {
  }

  lemma DoubledIs(x: bv32)
    ensures Value(Doubled(x)) == (2 * Value(x)) % 0x1_0000_0000
  {
    hide Value, Plus, Doubled;
    DoubledSum(x);
    SumWraps(x, x);
  }

  function LowBit(x: bv32): bv1 { (x & 1) as bv1 }
  function HighBits(x: bv32): bv31 { (x >> 1) as bv31 }
  function JoinLow(h: bv31, l: bv1): bv32 { ((h as bv32) << 1) | (l as bv32) }

  lemma HalfSplit(h: bv31, l: bv1)
    ensures Value(JoinLow(h, l)) == 2 * Value(h as bv32) + l as int
  {
  }

  lemma LowParts(x: bv32)
    ensures JoinLow((x >> 1) as bv31, (x & 1) as bv1) == x && (((x >> 1) as bv31) as bv32) == Halved(x)
  {
  }

  lemma LowPartsAre(x: bv32)
    ensures HighBits(x) == (x >> 1) as bv31 && LowBit(x) == (x & 1) as bv1
  {
  }

  lemma HalvedIs(x: bv32)
    ensures Value(Halved(x)) == Value(x) / 2
  {
    hide Value, Halved, LowBit, HighBits, JoinLow;
    LowParts(x);
    LowPartsAre(x);
    HalfSplit(HighBits(x), LowBit(x));
    OneBit(LowBit(x));
  }

  function LeftBy(x: bv32, n: bv32): bv32 { x << (n & 0x1f) }
  function RightBy(x: bv32, n: bv32): bv32 { x >> (n & 0x1f) }

  /** A shift distance. */
  predicate Distance(n: bv32) { n & 0x1f == n }

  lemma ShiftNone(x: bv32)
    ensures LeftBy(x, 0) == x && RightBy(x, 0) == x
  {
  }

  lemma LeftMore(x: bv32, n: bv32)
    requires Distance(n) && n != 0
    ensures LeftBy(x, n) == Doubled(LeftBy(x, n - 1))
  {
  }

  lemma RightMore(x: bv32, n: bv32)
    requires Distance(n) && n != 0
    ensures RightBy(x, n) == Halved(RightBy(x, n - 1))
  {
  }

  lemma DistanceLess(n: bv32)
    requires Distance(n) && n != 0
    ensures Distance(n - 1)
  {
  }

  lemma OneLess(n: bv32, k: nat)
    requires Distance(n) && Value(n) == k > 0
    ensures Value(Minus(n, 1)) == k - 1 && Distance(Minus(n, 1)) && n != 0
  {
    hide Value, Minus, Distance;
    Constants();
    DifferenceWraps(n, 1);
    DistanceLess(n);
    MinusIs(n, 1);
  }

  lemma DoubledProduct(v: int, p: int)
    ensures (2 * ((v * p) % 0x1_0000_0000)) % 0x1_0000_0000 == (v * (2 * p)) % 0x1_0000_0000
  {
    var n := v * p;
    assert v * (2 * p) == 2 * n;
    var q, r := n / 0x1_0000_0000, n % 0x1_0000_0000;
    var q', r' := (2 * r) / 0x1_0000_0000, (2 * r) % 0x1_0000_0000;
    Remainder(2 * n, 2 * q + q', r');
  }

  lemma {:induction false} LeftIs(x: bv32, n: bv32, k: nat)
    requires Distance(n) && Value(n) == k
    ensures Value(LeftBy(x, n)) == (Value(x) * Pow2(k)) % 0x1_0000_0000
    decreases k
  {
    hide Value, Minus, Distance, LeftBy, Doubled;
    if k == 0 {
      Constants();
      Same(n, 0);
      ShiftNone(x);
    } else {
      OneLess(n, k);
      LeftIs(x, Minus(n, 1), k - 1);
      LeftMore(x, n);
      MinusIs(n, 1);
      var y := LeftBy(x, Minus(n, 1));
      DoubledStep(Value(x), Pow2(k - 1), y);
    }
  }

  lemma DoubledStep(v: int, p: int, y: bv32)
    requires Value(y) == (v * p) % 0x1_0000_0000
    ensures Value(Doubled(y)) == (v * (2 * p)) % 0x1_0000_0000
  {
    hide Value, Doubled;
    DoubledIs(y);
    DoubledProduct(v, p);
  }

  lemma HalvedQuotient(v: int, p: int)
    requires p > 0
    ensures (v / p) / 2 == v / (2 * p)
  {
    var q, r := v / p, v % p;
    var h, b := q / 2, q % 2;
    Distribute(p, h, b);
    Halves(p, b, r);
    DivisionIs(v, 2 * p, h, p * b + r);
  }

  lemma Distribute(p: int, h: int, b: int)
    ensures p * (2 * h + b) == (2 * p) * h + p * b
  {
  }

  lemma Halves(p: int, b: int, r: int)
    requires 0 <= r < p && (b == 0 || b == 1)
    ensures 0 <= p * b + r < 2 * p
  {
  }

  lemma DivisionIs(v: int, d: int, q: int, r: int)
    requires d > 0 && v == d * q + r && 0 <= r < d
    ensures v / d == q && v % d == r
  {
    var e := v / d - q;
    assert d * e == r - v % d;
    assert (e >= 1 ==> d * e >= d) && (e <= -1 ==> d * e <= -d);
  }

  lemma {:induction false} RightIs(x: bv32, n: bv32, k: nat)
    requires Distance(n) && Value(n) == k
    ensures Value(RightBy(x, n)) == Value(x) / Pow2(k)
    decreases k
  {
    hide Value, Minus, Distance, RightBy, Halved;
    if k == 0 {
      Constants();
      Same(n, 0);
      ShiftNone(x);
    } else {
      OneLess(n, k);
      RightIs(x, Minus(n, 1), k - 1);
      RightMore(x, n);
      MinusIs(n, 1);
      HalvedIs(RightBy(x, Minus(n, 1)));
      HalvedQuotient(Value(x), Pow2(k - 1));
    }
  }

  /** The shift right that copies the sign. */
  function SignedRight(x: bv32, n: bv32): bv32 {
    if Negative(x) then Not(RightBy(Not(x), n)) else RightBy(x, n)
  }

  lemma FlippedQuotient(v: int, p: int)
    requires p > 0 && v < 0
    ensures -1 - (-1 - v) / p == v / p
  {
    var q, r := (-1 - v) / p, (-1 - v) % p;
    assert v == p * (-1 - q) + (p - 1 - r);
    DivisionIs(v, p, -1 - q, p - 1 - r);
  }

  lemma Growth(p: int, q: int, r: int)
    requires p > 0 && r >= 0 && p * q + r >= 0 && r < p
    ensures 0 <= q <= p * q + r
  {
    assert q < 0 ==> p * q <= -p;
    assert q >= 0 ==> p * q >= q;
  }

  lemma QuotientBound(v: int, p: int)
    requires p > 0 && v >= 0
    ensures 0 <= v / p <= v
  {
    var q, r := v / p, v % p;
    assert v == p * q + r;
    Growth(p, q, r);
  }

  /** It divides by a power of two and rounds down. */
  lemma SignedRightIs(x: bv32, n: bv32, k: nat)
    requires Distance(n) && Value(n) == k
    ensures SignedValue(SignedRight(x, n)) == SignedValue(x) / Pow2(k)
  {
    hide Value, Negative, Not, RightBy, Distance;
    NegativeIs(x);
    if Negative(x) {
      NotIs(x);
      RightIs(Not(x), n, k);
      NotIs(RightBy(Not(x), n));
      QuotientBound(Value(Not(x)), Pow2(k));
      FlippedQuotient(SignedValue(x), Pow2(k));
    } else {
      RightIs(x, n, k);
      QuotientBound(Value(x), Pow2(k));
    }
  }

  // ---- overflow ----

  predicate Fits(n: int) {
    -0x8000_0000 <= n < 0x8000_0000
  }

  /** The sign test finds exactly the sums that do not fit. */
  lemma SumOverflows(x: bv32, y: bv32)
    ensures !Negative(Xor(x, y)) && Negative(Xor(x, Plus(x, y))) <==> !Fits(SignedValue(x) + SignedValue(y))
    ensures !Negative(Xor(x, y)) && Negative(Xor(y, Plus(x, y))) <==> !Fits(SignedValue(x) + SignedValue(y))
  {
    hide Value, Negative, Xor, Plus;
    SignOfXor(x, y);
    SignOfXor(x, Plus(x, y));
    SignOfXor(y, Plus(x, y));
    NegativeIs(x);
    NegativeIs(y);
    NegativeIs(Plus(x, y));
    var c := SumIs(x, y);
  }

  lemma DifferenceOverflows(x: bv32, y: bv32)
    ensures Negative(Xor(x, y)) && Negative(Xor(x, Minus(x, y))) <==> !Fits(SignedValue(x) - SignedValue(y))
  {
    hide Value, Negative, Xor, Plus, Minus;
    SignOfXor(x, y);
    SignOfXor(x, Minus(x, y));
    NegativeIs(x);
    NegativeIs(y);
    NegativeIs(Minus(x, y));
    Cancel(x, y);
    MinusIs(x, y);
    var c := SumIs(Minus(x, y), y);
  }

  // ---- bits ----

  predicate Bit(x: bv32, k: bv32) {
    RightBy(x, k) & 1 == 1
  }

  lemma LowBitIs(x: bv32)
    ensures x & 1 == 1 <==> Value(x) % 2 == 1
  {
    hide Value, LowBit, HighBits, JoinLow;
    LowParts(x);
    LowPartsAre(x);
    HalfSplit(HighBits(x), LowBit(x));
    OneBit(LowBit(x));
    LowBitSet(x);
  }

  lemma LowBitSet(x: bv32)
    ensures x & 1 == 1 <==> LowBit(x) == 1
  {
  }

  /** The bit of weight 2^k. */
  lemma BitIs(x: bv32, n: bv32, k: nat)
    requires Distance(n) && Value(n) == k
    ensures Bit(x, n) <==> (Value(x) / Pow2(k)) % 2 == 1
  {
    hide Value, Distance, RightBy;
    RightIs(x, n, k);
    LowBitIs(RightBy(x, n));
  }

  lemma AndBit(x: bv32, y: bv32, k: bv32)
    ensures Bit(And(x, y), k) <==> Bit(x, k) && Bit(y, k)
  {
  }

  lemma OrBit(x: bv32, y: bv32, k: bv32)
    ensures Bit(Or(x, y), k) <==> Bit(x, k) || Bit(y, k)
  {
  }

  lemma XorBit(x: bv32, y: bv32, k: bv32)
    ensures Bit(Xor(x, y), k) <==> Bit(x, k) != Bit(y, k)
  {
  }

  lemma NotBit(x: bv32, k: bv32)
    ensures Bit(Not(x), k) <==> !Bit(x, k)
  {
  }

  function Low16(x: bv32): bv32 { x & 0xffff }

  lemma Low16Bit(x: bv32, k: bv32)
    ensures Bit(Low16(x), k) <==> Bit(x, k) && k & 0x10 == 0
  {
  }
}
