/**
 * Doubling and tripling of a block in GF(2^128), as the mode of operation uses them to
 * walk its masks. The reference is polynomial arithmetic over GF(2) modulo
 * x^128 + x^7 + x^2 + x + 1; the program computes it on byte-swapped machine words, in a
 * 2 x 64-bit build and in a 4 x 32-bit build.
 */
module Gf128 {
  import opened Bytes

  // ---- The byte-level form both builds refine ----

  /** One byte of the left shift: its own low bits and the top bit of its right neighbour. */
  function ShiftByte(x: byte, right: byte): byte {
    (x << 1) | (right >> 7)
  }

  predicate TopBit(x: byte) {
    x >> 7 == 1
  }

  /** The last byte of the left shift takes the feedback of the bit shifted out in front. */
  function ShiftLastByte(x: byte, first: byte): byte {
    (x << 1) ^ (if TopBit(first) then 0x87 else 0)
  }

  function DoubleByte(b: Block, i: nat): byte
    requires i < 16
  {
    if i < 15 then ShiftByte(b[i], b[i + 1]) else ShiftLastByte(b[15], b[0])
  }

  function Double(b: Block): (r: Block) {
    seq(16, i requires 0 <= i < 16 => DoubleByte(b, i))
  }

  function Triple(b: Block): Block {
    Xor(Double(b), b)
  }

  // ---- Polynomials over GF(2), as the set of their exponents ----

  type Poly = set<nat>

  /** x^128 + x^7 + x^2 + x + 1 */
  const MODULUS: Poly := {128, 7, 2, 1, 0}

  function Sum(p: Poly, q: Poly): Poly {
    (p - q) + (q - p)
  }

  function TimesX(p: Poly): Poly {
    set e | e in p :: e + 1
  }

  function BitMask(k: nat): byte
    requires k < 8
  {
    match k
    case 0 => 0x01 case 1 => 0x02 case 2 => 0x04 case 3 => 0x08
    case 4 => 0x10 case 5 => 0x20 case 6 => 0x40 case _ => 0x80
  }

  predicate HasBit(x: byte, k: nat)
    requires k < 8
  {
    x & BitMask(k) != 0
  }

  /** The coefficient of x^e: the block is read as a big-endian 128-bit number. */
  predicate HasTerm(b: Block, e: nat)
    requires e < 128
  {
    HasBit(b[15 - e / 8], e % 8)
  }

  function PolyOf(b: Block): Poly {
    set e: nat | 0 <= e < 128 && HasTerm(b, e)
  }

  lemma ShiftedBit(x: byte, y: byte, k: nat)
    requires k < 8
    ensures HasBit(ShiftByte(x, y), k) <==> if k == 0 then HasBit(y, 7) else HasBit(x, k - 1)
  {
    if
    case k == 0 =>
    case k == 1 =>
    case k == 2 =>
    case k == 3 =>
    case k == 4 =>
    case k == 5 =>
    case k == 6 =>
    case k == 7 =>
  }

  lemma ShiftedLastBit(x: byte, first: byte, k: nat)
    requires k < 8
    ensures HasBit(ShiftLastByte(x, first), k) <==>
            ((if k == 0 then false else HasBit(x, k - 1)) != (TopBit(first) && k in MODULUS))
  {
    if
    case k == 0 =>
    case k == 1 =>
    case k == 2 =>
    case k == 3 =>
    case k == 4 =>
    case k == 5 =>
    case k == 6 =>
    case k == 7 =>
  }

  lemma CarryIsTopTerm(b: Block)
    ensures TopBit(b[0]) <==> 127 in PolyOf(b)
  {
    assert HasTerm(b, 127) <==> HasBit(b[0], 7);
  }

  lemma DoubleTerm(b: Block, e: nat)
    requires e < 128
    ensures HasTerm(Double(b), e) <==>
            ((e > 0 && HasTerm(b, e - 1)) != (127 in PolyOf(b) && e in MODULUS))
  {
    var i, k := 15 - e / 8, e % 8;
    CarryIsTopTerm(b);
    if i == 15 {
      ShiftedLastBit(b[15], b[0], k);
      assert e == k;
      if e > 0 {
        assert (e - 1) / 8 == 0 && (e - 1) % 8 == k - 1;
      }
    } else {
      ShiftedBit(b[i], b[i + 1], k);
      if k == 0 {
        assert (e - 1) / 8 == e / 8 - 1 && (e - 1) % 8 == 7;
      } else {
        assert (e - 1) / 8 == e / 8 && (e - 1) % 8 == k - 1;
      }
    }
  }

  /** Doubling is multiplication by x, reduced by at most one copy of the modulus. */
  lemma DoubleIsTimesX(b: Block)
    ensures PolyOf(Double(b)) ==
            if 127 in PolyOf(b) then Sum(TimesX(PolyOf(b)), MODULUS) else TimesX(PolyOf(b))
  {
    var p := PolyOf(b);
    var r := if 127 in p then Sum(TimesX(p), MODULUS) else TimesX(p);
    forall e: nat
      ensures e in PolyOf(Double(b)) <==> e in r
    {
      assert e in TimesX(p) <==> e > 0 && e - 1 in p;
      if e < 128 {
        DoubleTerm(b, e);
      }
    }
  }

  /** The modulus times the polynomial with these coefficients, the constant one first. */
  function Multiple(q: seq<bool>): Poly {
    if |q| == 0 then {} else Sum(if q[0] then MODULUS else {}, TimesX(Multiple(q[1..])))
  }

  lemma ShiftedTerm(p: Poly, e: nat)
    ensures e in TimesX(p) <==> e > 0 && e - 1 in p
  {
  }

  /** Multiples other than zero and the modulus itself have a term above the 128th. */
  lemma {:induction false} OtherMultiplesAreLarge(q: seq<bool>) returns (e: nat)
    ensures Multiple(q) == {} || Multiple(q) == MODULUS || (e in Multiple(q) && e > 128)
  {
    e := 0;
    if |q| > 0 {
      var p := Multiple(q[1..]);
      var f := OtherMultiplesAreLarge(q[1..]);
      if p == MODULUS {
        f := 128;
      }
      ShiftedTerm(p, f + 1);
      e := f + 1;
      assert p == {} ==> TimesX(p) == {};
      assert e > 128 ==> e !in MODULUS;
    }
  }

  /** No other polynomial of degree below 128 is x * b up to a multiple of the modulus. */
  lemma ReducedProductIsUnique(b: Block, r: Poly, q: seq<bool>)
    requires forall e :: e in r ==> e < 128
    requires r == Sum(TimesX(PolyOf(b)), Multiple(q))
    ensures r == PolyOf(Double(b))
  {
    var p := TimesX(PolyOf(b));
    var e := OtherMultiplesAreLarge(q);
    assert forall f | f in p :: f <= 128;
    assert e > 128 && e in Multiple(q) ==> e in r;
    ShiftedTerm(PolyOf(b), 128);
    assert 128 in MODULUS;
    DoubleIsTimesX(b);
    assert Sum(p, {}) == p;
  }

  // ---- XOR is addition, so doubling and tripling are linear ----

  lemma XorBit(x: byte, y: byte, k: nat)
    requires k < 8
    ensures HasBit(XorByte(x, y), k) <==> HasBit(x, k) != HasBit(y, k)
  {
    if
    case k == 0 =>
    case k == 1 =>
    case k == 2 =>
    case k == 3 =>
    case k == 4 =>
    case k == 5 =>
    case k == 6 =>
    case k == 7 =>
  }

  lemma BitsDetermineByte(x: byte, y: byte)
    requires forall k: nat | k < 8 :: HasBit(x, k) == HasBit(y, k)
    ensures x == y
  {
    assert HasBit(x, 0) == HasBit(y, 0) && HasBit(x, 1) == HasBit(y, 1);
    assert HasBit(x, 2) == HasBit(y, 2) && HasBit(x, 3) == HasBit(y, 3);
    assert HasBit(x, 4) == HasBit(y, 4) && HasBit(x, 5) == HasBit(y, 5);
    assert HasBit(x, 6) == HasBit(y, 6) && HasBit(x, 7) == HasBit(y, 7);
  }

  lemma XorIsSum(a: Block, b: Block)
    ensures PolyOf(Xor(a, b)) == Sum(PolyOf(a), PolyOf(b))
  {
    forall e: nat | e < 128
      ensures HasTerm(Xor(a, b), e) <==> HasTerm(a, e) != HasTerm(b, e)
    {
      XorBit(a[15 - e / 8], b[15 - e / 8], e % 8);
    }
  }

  lemma PolyDeterminesBlock(a: Block, b: Block)
    requires PolyOf(a) == PolyOf(b)
    ensures a == b
  {
    forall i | 0 <= i < 16
      ensures a[i] == b[i]
    {
      forall k: nat | k < 8
        ensures HasBit(a[i], k) == HasBit(b[i], k)
      {
        var e := 8 * (15 - i) + k;
        assert e / 8 == 15 - i && e % 8 == k;
        assert e in PolyOf(a) <==> HasTerm(a, e);
        assert e in PolyOf(b) <==> HasTerm(b, e);
      }
      BitsDetermineByte(a[i], b[i]);
    }
  }

  lemma DoubleIsLinear(a: Block, b: Block)
    ensures Double(Xor(a, b)) == Xor(Double(a), Double(b))
  {
    hide Double;
    hide Xor;
    hide PolyOf;
    hide TimesX;
    var p, q := PolyOf(a), PolyOf(b);
    XorIsSum(a, b);
    XorIsSum(Double(a), Double(b));
    DoubleIsTimesX(a);
    DoubleIsTimesX(b);
    DoubleIsTimesX(Xor(a, b));
    TimesXIsLinear(p, q);
    ReductionsCancel(TimesX(p), TimesX(q));
    PolyDeterminesBlock(Double(Xor(a, b)), Xor(Double(a), Double(b)));
  }

  lemma ReductionsCancel(p: Poly, q: Poly)
    ensures Sum(Sum(p, MODULUS), q) == Sum(Sum(p, q), MODULUS) == Sum(p, Sum(q, MODULUS))
    ensures Sum(Sum(p, MODULUS), Sum(q, MODULUS)) == Sum(p, q)
  {
  }

  lemma TimesXIsLinear(p: Poly, q: Poly)
    ensures TimesX(Sum(p, q)) == Sum(TimesX(p), TimesX(q))
  {
    forall e: nat
      ensures e in TimesX(Sum(p, q)) <==> e in Sum(TimesX(p), TimesX(q))
    {
      assert e in TimesX(p) <==> e > 0 && e - 1 in p;
      assert e in TimesX(q) <==> e > 0 && e - 1 in q;
      assert e in TimesX(Sum(p, q)) <==> e > 0 && e - 1 in Sum(p, q);
    }
  }

  /** Tripling is multiplication by x + 1. */
  lemma TripleIsTimesXPlusOne(b: Block)
    ensures PolyOf(Triple(b)) == Sum(PolyOf(Double(b)), PolyOf(b))
  {
    XorIsSum(Double(b), b);
  }

  // ---- Doubling is invertible ----

  predicate Odd(x: byte) {
    x & 1 == 1
  }

  function HalfByte(x: byte, left: byte): byte {
    (x >> 1) | (left << 7)
  }

  function Feedback(x: byte): byte {
    if Odd(x) then x ^ 0x87 else x
  }

  /** Division by x: when the constant term is set, the modulus is added before the shift. */
  function Halve(b: Block): Block {
    seq(16, i requires 0 <= i < 16 => HalveByte(b, i))
  }

  function HalveByte(b: Block, i: nat): byte
    requires i < 16
  {
    HalfByte(if i == 15 then Feedback(b[15]) else b[i], if i > 0 then b[i - 1] else if Odd(b[15]) then 1 else 0)
  }

  lemma HalfOfShift(l: byte, x: byte, r: byte)
    ensures HalfByte(ShiftByte(x, r), ShiftByte(l, x)) == x
  {
  }

  lemma HalfOfFirst(x: byte, r: byte)
    ensures HalfByte(ShiftByte(x, r), if TopBit(x) then 1 else 0) == x
  {
  }

  lemma HalfOfLast(x: byte, first: byte, l: byte)
    ensures HalfByte(Feedback(ShiftLastByte(x, first)), ShiftByte(l, x)) == x
  {
  }

  lemma FeedbackShows(x: byte, first: byte)
    ensures Odd(ShiftLastByte(x, first)) <==> TopBit(first)
  {
  }

  lemma HalveUndoesDouble(b: Block)
    ensures Halve(Double(b)) == b
  {
    FeedbackShows(b[15], b[0]);
    forall i | 0 <= i < 16
      ensures HalveByte(Double(b), i) == b[i]
    {
      if i == 0 {
        HalfOfFirst(b[0], b[1]);
      } else if i < 15 {
        HalfOfShift(b[i - 1], b[i], b[i + 1]);
      } else {
        HalfOfLast(b[15], b[0], b[14]);
      }
    }
  }

  lemma ShiftOfHalf(l: byte, x: byte, r: byte)
    ensures ShiftByte(HalfByte(x, l), HalfByte(r, x)) == x
  {
  }

  lemma ShiftLastOfHalf(x: byte, l: byte, first: byte)
    requires TopBit(first) == Odd(x)
    ensures ShiftLastByte(HalfByte(Feedback(x), l), first) == x
  {
  }

  lemma TopOfHalf(x: byte, c: bool)
    ensures TopBit(HalfByte(x, if c then 1 else 0)) <==> c
  {
  }

  lemma DoubleUndoesHalve(b: Block)
    ensures Double(Halve(b)) == b
  {
    var odd := Odd(b[15]);
    TopOfHalf(b[0], odd);
    forall i | 0 <= i < 16
      ensures DoubleByte(Halve(b), i) == b[i]
    {
      if i < 15 {
        var l := if i > 0 then b[i - 1] else if odd then 1 else 0;
        ShiftOfHalf(l, b[i], if i == 14 then Feedback(b[15]) else b[i + 1]);
      } else {
        ShiftLastOfHalf(b[15], b[14], HalveByte(b, 0));
      }
    }
  }

  lemma DoubleIsInjective(a: Block, b: Block)
    requires Double(a) == Double(b)
    ensures a == b
  {
    HalveUndoesDouble(a);
    HalveUndoesDouble(b);
  }
}
