/**
 * The variable-length integers as numbers: what the bytes on the wire say in base 256, read
 * from the front, against the number that a word stands for.
 */
module VarIntNumber {
  import opened Bytes
  import opened IvBytes
  import opened VarInt

  // ---- The number of a word ----

  function LowOf(v: word): byte {
    (v & 0xFF) as byte
  }

  function Rest(v: word): word {
    v >> 8
  }

  /** The number that the low `n` bytes of a word stand for. */
  function NumberOf(v: word, n: nat): nat {
    if n == 0 then 0 else ByteValue(LowOf(v)) + 256 * NumberOf(Rest(v), n - 1)
  }

  function Number(v: word): nat {
    NumberOf(v, 8)
  }

  function Plus1(v: word): word {
    v + 1
  }

  lemma LowOfNext(v: word)
    ensures LowOf(Plus1(v)) == NextByte(LowOf(v))
  {
  }

  lemma RestOfCarry(v: word)
    requires v != 0xFFFF_FFFF_FFFF_FFFF && LowOf(v) == 0xFF
    ensures Rest(Plus1(v)) == Plus1(Rest(v))
  {
  }

  lemma RestOfOther(v: word)
    requires LowOf(v) != 0xFF
    ensures Rest(Plus1(v)) == Rest(v)
  {
  }

  lemma RestIsSmaller(v: word)
    ensures Rest(v) != 0xFFFF_FFFF_FFFF_FFFF
  {
  }

  lemma FullByte(b: byte)
    ensures b == 0xFF <==> ByteValue(b) == 255
  {
  }

  lemma {:induction false} NextNumber(v: word, n: nat)
    requires v != 0xFFFF_FFFF_FFFF_FFFF
    ensures NumberOf(Plus1(v), n) == NumberOf(v, n) + 1 || NumberOf(Plus1(v), n) == 0
    decreases n
  {
    hide LowOf;
    hide Rest;
    hide Plus1;
    hide NextByte;
    hide ByteValue;
    if n > 0 {
      LowOfNext(v);
      if LowOf(v) == 0xFF {
        RestOfCarry(v);
      } else {
        RestOfOther(v);
      }
      FullByte(LowOf(v));
      NextByteValue(LowOf(v));
      RestIsSmaller(v);
      NextNumber(Rest(v), n - 1);
    }
  }

  // ---- The number by places ----

  lemma ByteOfRest(v: word, k: nat)
    requires k < 7
    ensures ByteAt(Rest(v), k) == ByteAt(v, k + 1)
  {
    if
    case k == 0 =>
    case k == 1 =>
    case k == 2 =>
    case k == 3 =>
    case k == 4 =>
    case k == 5 =>
    case k == 6 =>
  }

  lemma LowByteAt(v: word)
    ensures ByteAt(v, 0) == LowOf(v)
  {
  }

  /** Place `k` of a word. */
  function Place(v: word, k: nat): nat
    requires k < 8
  {
    ByteValue(ByteAt(v, k))
  }

  function Quad(v: word, k: nat): nat
    requires k <= 4
  {
    Place(v, k) + 0x100 * Place(v, k + 1) + 0x1_0000 * Place(v, k + 2) + 0x100_0000 * Place(v, k + 3)
  }

  lemma FourPlaces(v: word, n: nat)
    requires n >= 4
    ensures NumberOf(v, n) == Quad(v, 0) + 0x1_0000_0000 * NumberOf(Rest(Rest(Rest(Rest(v)))), n - 4)
  {
    hide ByteAt;
    hide LowOf;
    hide Rest;
    hide ByteValue;
    LowByteAt(v);
    LowByteAt(Rest(v));
    LowByteAt(Rest(Rest(v)));
    LowByteAt(Rest(Rest(Rest(v))));
    ByteOfRest(v, 0);
    ByteOfRest(v, 1);
    ByteOfRest(v, 2);
    ByteOfRest(Rest(v), 0);
    ByteOfRest(Rest(v), 1);
    ByteOfRest(Rest(Rest(v)), 0);
    var u := Rest(Rest(Rest(v)));
    assert NumberOf(u, n - 3) == Place(v, 3) + 0x100 * NumberOf(Rest(u), n - 4);
    assert NumberOf(Rest(Rest(v)), n - 2) == Place(v, 2) + 0x100 * NumberOf(u, n - 3);
    assert NumberOf(Rest(v), n - 1) == Place(v, 1) + 0x100 * NumberOf(Rest(Rest(v)), n - 2);
    assert NumberOf(v, n) == Place(v, 0) + 0x100 * NumberOf(Rest(v), n - 1);
  }

  lemma UpperPlaces(v: word, k: nat)
    requires k < 4
    ensures Place(Rest(Rest(Rest(Rest(v)))), k) == Place(v, k + 4)
  {
    hide ByteAt;
    hide Rest;
    hide ByteValue;
    ByteOfRest(v, k + 3);
    ByteOfRest(Rest(v), k + 2);
    ByteOfRest(Rest(Rest(v)), k + 1);
    ByteOfRest(Rest(Rest(Rest(v))), k);
  }

  lemma NumberByPlaces(v: word)
    ensures Number(v) == Quad(v, 0) + 0x1_0000_0000 * Quad(v, 4)
  {
    hide Place;
    hide Rest;
    FourPlaces(v, 8);
    var u := Rest(Rest(Rest(Rest(v))));
    FourPlaces(u, 4);
    UpperPlaces(v, 0);
    UpperPlaces(v, 1);
    UpperPlaces(v, 2);
    UpperPlaces(v, 3);
  }

  lemma ZeroPlaces(v: word)
    requires forall k: nat | k < 8 :: ByteAt(v, k) == 0
    ensures v == 0
  {
    assert ByteAt(v, 0) == 0 && ByteAt(v, 1) == 0 && ByteAt(v, 2) == 0 && ByteAt(v, 3) == 0;
    assert ByteAt(v, 4) == 0 && ByteAt(v, 5) == 0 && ByteAt(v, 6) == 0 && ByteAt(v, 7) == 0;
  }

  lemma ZeroNumber(v: word)
    requires Number(v) == 0
    ensures v == 0
  {
    hide ByteAt;
    hide ByteValue;
    hide Number;
    NumberByPlaces(v);
    forall k: nat | k < 8
      ensures ByteAt(v, k) == 0
    {
      ZeroIffValueZero(ByteAt(v, k));
      assert Place(v, k) == 0 by {
        assert k == 0 || k == 1 || k == 2 || k == 3 || k == 4 || k == 5 || k == 6 || k == 7;
      }
    }
    ZeroPlaces(v);
  }

  lemma NextIsNotZero(v: word)
    requires v != 0xFFFF_FFFF_FFFF_FFFF
    ensures Plus1(v) != 0
  {
  }

  /** The number of zero is zero, and the next word has the next number: so words count as they should. */
  lemma NumberCounts(v: word)
    ensures Number(0) == 0
    ensures v != 0xFFFF_FFFF_FFFF_FFFF ==> Number(Plus1(v)) == Number(v) + 1
  {
    hide NumberOf;
    ZeroHasNoPlaces();
    if v != 0xFFFF_FFFF_FFFF_FFFF {
      NextNumber(v, 8);
      NextIsNotZero(v);
      if Number(Plus1(v)) == 0 {
        ZeroNumber(Plus1(v));
      }
    }
  }

  lemma ZeroByteValue()
    ensures ByteValue(0) == 0
  {
  }

  lemma ZeroHasNoPlaces()
    ensures Number(0) == 0
  {
    hide ByteValue;
    ZeroByteValue();
    NumberByPlaces(0);
  }

  // ---- Sizes ----

  /** The bytes of a word above the fourth place are zero. */
  predicate UpperIsZero(v: word) {
    ByteAt(v, 4) == 0 && ByteAt(v, 5) == 0 && ByteAt(v, 6) == 0 && ByteAt(v, 7) == 0
  }

  lemma Below5(v: word)
    ensures v < 0x1_0000_0000 <==> UpperIsZero(v)
  {
  }

  lemma Below4(v: word)
    ensures v < 0x1000_0000 <==> UpperIsZero(v) && ByteAt(v, 3) < 0x10
  {
  }

  lemma Below3(v: word)
    ensures v < 0x20_0000 <==> UpperIsZero(v) && ByteAt(v, 3) == 0 && ByteAt(v, 2) < 0x20
  {
  }

  lemma Below2(v: word)
    ensures v < 0x4000 <==> UpperIsZero(v) && ByteAt(v, 3) == 0 && ByteAt(v, 2) == 0 && ByteAt(v, 1) < 0x40
  {
  }

  lemma Below1(v: word)
    ensures v < 0x80 <==>
            UpperIsZero(v) && ByteAt(v, 3) == 0 && ByteAt(v, 2) == 0 && ByteAt(v, 1) == 0 && ByteAt(v, 0) < 0x80
  {
  }

  lemma ByteOrder(b: byte)
    ensures b < 0x80 <==> ByteValue(b) < 0x80
    ensures b < 0x40 <==> ByteValue(b) < 0x40
    ensures b < 0x20 <==> ByteValue(b) < 0x20
    ensures b < 0x10 <==> ByteValue(b) < 0x10
  {
  }

  lemma TagAdds(b: byte)
    ensures b < 0x40 ==> ByteValue(Tagged(b, 0x80)) == ByteValue(b) + 0x80
    ensures b < 0x20 ==> ByteValue(Tagged(b, 0xC0)) == ByteValue(b) + 0xC0
    ensures b < 0x10 ==> ByteValue(Tagged(b, 0xE0)) == ByteValue(b) + 0xE0
    ensures b < 0x04 ==> ByteValue(Tagged(b, 0xFC)) == ByteValue(b) + 0xFC
  {
  }

  lemma UpperIsZeroIff(v: word)
    ensures UpperIsZero(v) <==> Quad(v, 4) == 0
  {
    hide ByteAt;
    hide ByteValue;
    ZeroIffValueZero(ByteAt(v, 4));
    ZeroIffValueZero(ByteAt(v, 5));
    ZeroIffValueZero(ByteAt(v, 6));
    ZeroIffValueZero(ByteAt(v, 7));
  }

  /** The limits between the forms are limits of the number. */
  lemma LimitsAreNumbers(v: word)
    ensures v < 0x80 <==> Number(v) < 0x80
    ensures v < 0x4000 <==> Number(v) < 0x4000
    ensures v < 0x20_0000 <==> Number(v) < 0x20_0000
    ensures v < 0x1000_0000 <==> Number(v) < 0x1000_0000
    ensures v < 0x1_0000_0000 <==> Number(v) < 0x1_0000_0000
  {
    Below1(v);
    Below2(v);
    Below3(v);
    Below4(v);
    Below5(v);
    UpperIsZeroIff(v);
    NumberByPlaces(v);
    hide UpperIsZero;
    hide ByteAt;
    hide ByteValue;
    hide Number;
    ByteOrder(ByteAt(v, 0));
    ByteOrder(ByteAt(v, 1));
    ByteOrder(ByteAt(v, 2));
    ByteOrder(ByteAt(v, 3));
    ZeroIffValueZero(ByteAt(v, 1));
    ZeroIffValueZero(ByteAt(v, 2));
    ZeroIffValueZero(ByteAt(v, 3));
  }

  // ---- The wire ----

  /** The number that a byte string says in base 256, the first byte weighing most. */
  function BigEndian(s: seq<byte>): nat {
    if |s| == 0 then 0 else 0x100 * BigEndian(s[..|s| - 1]) + ByteValue(s[|s| - 1])
  }

  lemma BigSnoc(s: seq<byte>, b: byte)
    ensures BigEndian(s + [b]) == 0x100 * BigEndian(s) + ByteValue(b)
  {
    hide ByteValue;
    assert (s + [b])[..|s|] == s;
  }

  lemma Big1(a: byte)
    ensures BigEndian([a]) == ByteValue(a)
  {
    hide ByteValue;
    assert BigEndian([]) == 0;
  }

  lemma Big2(a: byte, b: byte)
    ensures BigEndian([a, b]) == 0x100 * ByteValue(a) + ByteValue(b)
  {
    hide BigEndian;
    Big1(a);
    BigSnoc([a], b);
    assert [a] + [b] == [a, b];
  }

  lemma Big3(a: byte, b: byte, c: byte)
    ensures BigEndian([a, b, c]) == 0x1_0000 * ByteValue(a) + 0x100 * ByteValue(b) + ByteValue(c)
  {
    hide BigEndian;
    Big2(a, b);
    BigSnoc([a, b], c);
    assert [a, b] + [c] == [a, b, c];
  }

  lemma Big4More(s: seq<byte>, a: byte, b: byte, c: byte, d: byte)
    ensures BigEndian(s + [a, b, c, d]) ==
            0x1_0000_0000 * BigEndian(s)
            + 0x100_0000 * ByteValue(a) + 0x1_0000 * ByteValue(b) + 0x100 * ByteValue(c) + ByteValue(d)
  {
    hide BigEndian;
    BigSnoc(s, a);
    BigSnoc(s + [a], b);
    BigSnoc(s + [a] + [b], c);
    BigSnoc(s + [a] + [b] + [c], d);
    assert s + [a] + [b] + [c] + [d] == s + [a, b, c, d];
  }

  lemma Big4(a: byte, b: byte, c: byte, d: byte)
    ensures BigEndian([a, b, c, d]) ==
            0x100_0000 * ByteValue(a) + 0x1_0000 * ByteValue(b) + 0x100 * ByteValue(c) + ByteValue(d)
  {
    Big4More([], a, b, c, d);
    assert [] + [a, b, c, d] == [a, b, c, d];
    assert BigEndian([]) == 0;
  }

  lemma Big5(x: byte, a: byte, b: byte, c: byte, d: byte)
    ensures BigEndian([x, a, b, c, d]) == 0x1_0000_0000 * ByteValue(x) + BigEndian([a, b, c, d])
  {
    hide BigEndian;
    Big1(x);
    Big4(a, b, c, d);
    Big4More([x], a, b, c, d);
    assert [x] + [a, b, c, d] == [x, a, b, c, d];
  }

  lemma Big9(x: byte, a: byte, b: byte, c: byte, d: byte, e: byte, f: byte, g: byte, h: byte)
    ensures BigEndian([x, a, b, c, d, e, f, g, h]) ==
            0x1_0000_0000_0000_0000 * ByteValue(x) + 0x1_0000_0000 * BigEndian([a, b, c, d]) + BigEndian([e, f, g, h])
  {
    hide BigEndian;
    Big5(x, a, b, c, d);
    Big4(e, f, g, h);
    Big4More([x, a, b, c, d], e, f, g, h);
    assert [x, a, b, c, d] + [e, f, g, h] == [x, a, b, c, d, e, f, g, h];
  }

  // ---- Writing ----

  /** How many bytes a number takes. */
  function SizeOf(n: nat): nat {
    if n < 0x80 then 1
    else if n < 0x4000 then 2
    else if n < 0x20_0000 then 3
    else if n < 0x1000_0000 then 4
    else if n < 0x1_0000_0000 then 5
    else 9
  }

  /** What a form of that size adds to the number. */
  function PrefixOf(size: nat): nat {
    match size
    case 2 => 0x8000
    case 3 => 0xC0_0000
    case 4 => 0xE000_0000
    case 5 => 0xF0_0000_0000
    case 9 => 0xF4_0000_0000_0000_0000
    case _ => 0
  }

  lemma TagValues()
    ensures ByteValue(0xF0) == 0xF0 && ByteValue(0xF4) == 0xF4 && ByteValue(0xF8) == 0xF8
  {
  }

  lemma ShortOnTheWire(v: word)
    requires v < 0x20_0000
    ensures var n := Number(v);
            |EncodePlain(v)| == SizeOf(n) && BigEndian(EncodePlain(v)) == PrefixOf(SizeOf(n)) + n
  {
    var b0, b1, b2 := ByteAt(v, 0), ByteAt(v, 1), ByteAt(v, 2);
    LimitsAreNumbers(v);
    NumberByPlaces(v);
    UpperIsZeroIff(v);
    ZeroByteValue();
    hide Number;
    hide ByteAt;
    hide ByteValue;
    hide BigEndian;
    hide UpperIsZero;
    hide Tagged;
    if v < 0x80 {
      Below1(v);
      Big1(b0);
    } else if v < 0x4000 {
      Below2(v);
      TagAdds(b1);
      Big2(Tagged(b1, 0x80), b0);
    } else {
      Below3(v);
      TagAdds(b2);
      Big3(Tagged(b2, 0xC0), b1, b0);
    }
  }

  lemma LongOnTheWire(v: word)
    requires !(v < 0x20_0000) && v < 0x1_0000_0000
    ensures var n := Number(v);
            |EncodePlain(v)| == SizeOf(n) && BigEndian(EncodePlain(v)) == PrefixOf(SizeOf(n)) + n
  {
    var b0, b1, b2, b3 := ByteAt(v, 0), ByteAt(v, 1), ByteAt(v, 2), ByteAt(v, 3);
    LimitsAreNumbers(v);
    NumberByPlaces(v);
    UpperIsZeroIff(v);
    TagValues();
    hide Number;
    hide ByteAt;
    hide ByteValue;
    hide BigEndian;
    hide UpperIsZero;
    hide Tagged;
    if v < 0x1000_0000 {
      Below4(v);
      TagAdds(b3);
      Big4(Tagged(b3, 0xE0), b2, b1, b0);
    } else {
      Below5(v);
      Big5(0xF0, b3, b2, b1, b0);
      Big4(b3, b2, b1, b0);
    }
  }

  /** The bytes of a value are its number in base 256 plus the prefix of its size. */
  lemma PlainOnTheWire(v: word)
    ensures var n := Number(v);
            |EncodePlain(v)| == SizeOf(n) && BigEndian(EncodePlain(v)) == PrefixOf(SizeOf(n)) + n
  {
    hide EncodePlain;
    hide BigEndian;
    hide Number;
    LimitsAreNumbers(v);
    if v < 0x20_0000 {
      ShortOnTheWire(v);
    } else if v < 0x1_0000_0000 {
      LongOnTheWire(v);
    } else {
      NineOnTheWire(v);
    }
  }

  lemma NineOnTheWire(v: word)
    requires !(v < 0x1_0000_0000)
    ensures |EncodePlain(v)| == 9 && BigEndian(EncodePlain(v)) == 0xF4_0000_0000_0000_0000 + Number(v)
  {
    NumberByPlaces(v);
    TagValues();
    hide Number;
    hide ByteAt;
    hide ByteValue;
    hide BigEndian;
    Big9(0xF4, ByteAt(v, 7), ByteAt(v, 6), ByteAt(v, 5), ByteAt(v, 4),
         ByteAt(v, 3), ByteAt(v, 2), ByteAt(v, 1), ByteAt(v, 0));
    Big4(ByteAt(v, 7), ByteAt(v, 6), ByteAt(v, 5), ByteAt(v, 4));
    Big4(ByteAt(v, 3), ByteAt(v, 2), ByteAt(v, 1), ByteAt(v, 0));
  }

  const MAX: nat := 0xFFFF_FFFF_FFFF_FFFF

  function Flip(b: byte): byte {
    !b
  }

  lemma FlipValue(b: byte)
    ensures ByteValue(Flip(b)) == 255 - ByteValue(b)
  {
  }

  lemma ComplementAt(v: word, k: nat)
    requires k < 8
    ensures ByteAt(Complement(v), k) == Flip(ByteAt(v, k))
  {
    if
    case k == 0 =>
    case k == 1 =>
    case k == 2 =>
    case k == 3 =>
    case k == 4 =>
    case k == 5 =>
    case k == 6 =>
    case k == 7 =>
  }

  lemma ComplementPlace(v: word, k: nat)
    requires k < 8
    ensures Place(Complement(v), k) == 255 - Place(v, k)
  {
    hide ByteAt;
    hide ByteValue;
    ComplementAt(v, k);
    FlipValue(ByteAt(v, k));
  }

  lemma NumberOfComplement(v: word)
    ensures Number(Complement(v)) == MAX - Number(v)
  {
    hide Place;
    hide Number;
    hide Complement;
    NumberByPlaces(v);
    NumberByPlaces(Complement(v));
    ComplementPlace(v, 0);
    ComplementPlace(v, 1);
    ComplementPlace(v, 2);
    ComplementPlace(v, 3);
    ComplementPlace(v, 4);
    ComplementPlace(v, 5);
    ComplementPlace(v, 6);
    ComplementPlace(v, 7);
  }

  lemma TopIsImplied(v: word)
    ensures IsNegative(v) <==> Complement(v) < 0x1_0000_0000
  {
  }

  lemma AtMostThree(w: word)
    ensures w <= 0x3 <==>
            UpperIsZero(w) && ByteAt(w, 3) == 0 && ByteAt(w, 2) == 0 && ByteAt(w, 1) == 0 && ByteAt(w, 0) < 4
  {
  }

  lemma FourIsLimit(b: byte)
    ensures b < 4 <==> ByteValue(b) < 4
  {
  }

  lemma AtMostThreeIff(w: word)
    ensures w <= 0x3 <==> Number(w) <= 3
  {
    AtMostThree(w);
    UpperIsZeroIff(w);
    NumberByPlaces(w);
    hide UpperIsZero;
    hide ByteAt;
    hide ByteValue;
    hide Number;
    FourIsLimit(ByteAt(w, 0));
    ZeroIffValueZero(ByteAt(w, 1));
    ZeroIffValueZero(ByteAt(w, 2));
    ZeroIffValueZero(ByteAt(w, 3));
  }

  /** The bytes that stand for a number: one of the last four, one of the last 2^32, or any other. */
  predicate Says(s: seq<byte>, n: nat)
    requires n <= MAX
  {
    if MAX - n <= 3 then |s| == 1 && ByteValue(s[0]) == 0xFC + (MAX - n)
    else if MAX - n < 0x1_0000_0000 then
      && |s| == 1 + SizeOf(MAX - n)
      && ByteValue(s[0]) == 0xF8 && BigEndian(s[1..]) == PrefixOf(SizeOf(MAX - n)) + (MAX - n)
    else |s| == SizeOf(n) && BigEndian(s) == PrefixOf(SizeOf(n)) + n
  }

  lemma NumberAtMostMax(v: word)
    ensures Number(v) <= MAX
  {
    hide Number;
    NumberOfComplement(v);
  }

  /** Every value is written as the bytes that say its number. */
  lemma OnTheWire(v: word)
    ensures Number(v) <= MAX && Says(Encode(v), Number(v))
  {
    hide Number;
    hide ByteValue;
    hide BigEndian;
    hide EncodePlain;
    hide ByteAt;
    hide IsNegative;
    hide Complement;
    hide Tagged;
    hide SizeOf;
    hide PrefixOf;
    NumberAtMostMax(v);
    var w := Complement(v);
    NumberOfComplement(v);
    TopIsImplied(v);
    LimitsAreNumbers(w);
    AtMostThreeIff(w);
    TagValues();
    if !IsNegative(v) {
      PlainOnTheWire(v);
    } else if w <= 0x3 {
      SmallOnTheWire(w);
    } else {
      PlainOnTheWire(w);
      assert ([0xF8] + EncodePlain(w))[1..] == EncodePlain(w);
    }
  }

  lemma SmallOnTheWire(w: word)
    requires w <= 0x3
    ensures ByteValue(Tagged(ByteAt(w, 0), 0xFC)) == 0xFC + Number(w)
  {
    AtMostThree(w);
    UpperIsZeroIff(w);
    NumberByPlaces(w);
    ZeroByteValue();
    TagAdds(ByteAt(w, 0));
    hide UpperIsZero;
    hide ByteAt;
    hide ByteValue;
    hide Number;
    hide Tagged;
  }

  // ---- Reading ----

  lemma FirstByteOrder(b: byte)
    ensures b < 0x80 <==> ByteValue(b) < 0x80
    ensures b < 0xC0 <==> ByteValue(b) < 0xC0
    ensures b < 0xE0 <==> ByteValue(b) < 0xE0
    ensures b < 0xF0 <==> ByteValue(b) < 0xF0
    ensures b < 0xF4 <==> ByteValue(b) < 0xF4
    ensures b < 0xF8 <==> ByteValue(b) < 0xF8
    ensures b < 0xFC <==> ByteValue(b) < 0xFC
  {
  }

  lemma FormByOrder(b: byte)
    ensures FormOf(b) == if b < 0x80 then One else if b < 0xC0 then Two else if b < 0xE0 then Three
                         else if b < 0xF0 then Four else if b < 0xF4 then Five else if b < 0xF8 then Nine
                         else if b < 0xFC then Negated else Small
  {
  }

  /** The form, from the range in which the first byte lies. */
  function FormByFirst(b: nat): Form {
    if b < 0x80 then One
    else if b < 0xC0 then Two
    else if b < 0xE0 then Three
    else if b < 0xF0 then Four
    else if b < 0xF4 then Five
    else if b < 0xF8 then Nine
    else if b < 0xFC then Negated
    else Small
  }

  lemma FormIsByFirst(b: byte)
    ensures FormOf(b) == FormByFirst(ByteValue(b))
  {
    FormByOrder(b);
    FirstByteOrder(b);
    hide FormOf;
    hide ByteValue;
  }

  lemma Masked(b: byte)
    ensures b < 0x80 ==> ByteValue(b & 0x7F) == ByteValue(b)
    ensures 0x80 <= b < 0xC0 ==> ByteValue(b & 0x3F) == ByteValue(b) - 0x80
    ensures 0xC0 <= b < 0xE0 ==> ByteValue(b & 0x1F) == ByteValue(b) - 0xC0
    ensures 0xE0 <= b < 0xF0 ==> ByteValue(b & 0x0F) == ByteValue(b) - 0xE0
    ensures 0xFC <= b ==> ByteValue(b & 0x03) == ByteValue(b) - 0xFC
  {
  }

  lemma Places1(b: byte)
    ensures var v := Widen(b);
            UpperIsZero(v) && ByteAt(v, 3) == 0 && ByteAt(v, 2) == 0 && ByteAt(v, 1) == 0 && ByteAt(v, 0) == b
  {
  }

  lemma Places2(b: byte, c: byte)
    ensures var v := Read2(b, c);
            && UpperIsZero(v) && ByteAt(v, 3) == 0 && ByteAt(v, 2) == 0
            && ByteAt(v, 1) == b & 0x3F && ByteAt(v, 0) == c
  {
  }

  lemma Places3(b: byte, c: byte, d: byte)
    ensures var v := Read3(b, c, d);
            UpperIsZero(v) && ByteAt(v, 3) == 0 && ByteAt(v, 2) == b & 0x1F && ByteAt(v, 1) == c && ByteAt(v, 0) == d
  {
  }

  lemma Places4(b: byte, c: byte, d: byte, e: byte)
    ensures var v := Read4(b, c, d, e);
            UpperIsZero(v) && ByteAt(v, 3) == b & 0x0F && ByteAt(v, 2) == c && ByteAt(v, 1) == d && ByteAt(v, 0) == e
  {
  }

  lemma Places5(b: byte, c: byte, d: byte, e: byte)
    ensures var v := Read5(b, c, d, e);
            UpperIsZero(v) && ByteAt(v, 3) == b && ByteAt(v, 2) == c && ByteAt(v, 1) == d && ByteAt(v, 0) == e
  {
  }

  lemma Places9(a: byte, b: byte, c: byte, d: byte, e: byte, f: byte, g: byte, h: byte)
    ensures var v := Read9(a, b, c, d, e, f, g, h);
            && ByteAt(v, 7) == a && ByteAt(v, 6) == b && ByteAt(v, 5) == c && ByteAt(v, 4) == d
            && ByteAt(v, 3) == e && ByteAt(v, 2) == f && ByteAt(v, 1) == g && ByteAt(v, 0) == h
  {
  }

  lemma NumberOfFour(v: word)
    requires UpperIsZero(v)
    ensures Number(v) == BigEndian([ByteAt(v, 3), ByteAt(v, 2), ByteAt(v, 1), ByteAt(v, 0)])
  {
    UpperIsZeroIff(v);
    NumberByPlaces(v);
    hide Number;
    hide ByteAt;
    hide ByteValue;
    hide BigEndian;
    Big4(ByteAt(v, 3), ByteAt(v, 2), ByteAt(v, 1), ByteAt(v, 0));
  }

  lemma NumberOfByte(b: byte)
    ensures Number(Widen(b)) == ByteValue(b)
  {
    Places1(b);
    NumberOfFour(Widen(b));
    ZeroByteValue();
    hide *;
    Big4(0, 0, 0, b);
  }

  lemma Number1(b: byte)
    requires b < 0x80
    ensures Number(Read1(b)) == ByteValue(b)
  {
    hide Number;
    Masked(b);
    NumberOfByte(b & 0x7F);
  }

  lemma Number2(b: byte, c: byte)
    requires 0x80 <= b < 0xC0
    ensures Number(Read2(b, c)) == BigEndian([b, c]) - 0x8000
  {
    Masked(b);
    Places2(b, c);
    NumberOfFour(Read2(b, c));
    ZeroByteValue();
    Big4(0, 0, b & 0x3F, c);
    Big2(b, c);
    hide *;
  }

  lemma Number3(b: byte, c: byte, d: byte)
    requires 0xC0 <= b < 0xE0
    ensures Number(Read3(b, c, d)) == BigEndian([b, c, d]) - 0xC0_0000
  {
    Masked(b);
    Places3(b, c, d);
    NumberOfFour(Read3(b, c, d));
    ZeroByteValue();
    Big4(0, b & 0x1F, c, d);
    Big3(b, c, d);
    hide *;
  }

  lemma Number4(b: byte, c: byte, d: byte, e: byte)
    requires 0xE0 <= b < 0xF0
    ensures Number(Read4(b, c, d, e)) == BigEndian([b, c, d, e]) - 0xE000_0000
  {
    Masked(b);
    Places4(b, c, d, e);
    NumberOfFour(Read4(b, c, d, e));
    Big4(b & 0x0F, c, d, e);
    Big4(b, c, d, e);
    hide *;
  }

  lemma Number5(b: byte, c: byte, d: byte, e: byte)
    ensures Number(Read5(b, c, d, e)) == BigEndian([b, c, d, e])
  {
    Places5(b, c, d, e);
    NumberOfFour(Read5(b, c, d, e));
    hide *;
  }

  lemma Number9(a: byte, b: byte, c: byte, d: byte, e: byte, f: byte, g: byte, h: byte)
    ensures Number(Read9(a, b, c, d, e, f, g, h)) == BigEndian([a, b, c, d, e, f, g, h])
  {
    Places9(a, b, c, d, e, f, g, h);
    NumberByPlaces(Read9(a, b, c, d, e, f, g, h));
    Big4(a, b, c, d);
    Big4More([a, b, c, d], e, f, g, h);
    assert [a, b, c, d] + [e, f, g, h] == [a, b, c, d, e, f, g, h];
    hide Number;
    hide ByteAt;
    hide ByteValue;
    hide BigEndian;
    hide Read9;
  }

  lemma NumberSmall(b: byte)
    requires 0xFC <= b
    ensures Number(ReadSmall(b)) == MAX - (ByteValue(b) - 0xFC)
  {
    Masked(b);
    NumberOfByte(b & 0x03);
    NumberOfComplement(Widen(b & 0x03));
    hide Number;
    hide Widen;
    hide ByteValue;
    hide Complement;
  }

  /** How many bytes a first byte in that range announces, itself among them. */
  function Announced(b: nat): nat {
    if b < 0x80 then 1
    else if b < 0xC0 then 2
    else if b < 0xE0 then 3
    else if b < 0xF0 then 4
    else if b < 0xF4 then 5
    else if b < 0xF8 then 9
    else 1
  }

  /** The number that a first byte and those after it mean, when it does not announce a negation. */
  predicate Means(b: nat, s: seq<byte>, n: nat) {
    if b < 0xF0 then n + PrefixOf(|s|) == BigEndian(s)
    else if b < 0xF8 then |s| > 0 && n == BigEndian(s[1..])
    else n + b == MAX + 0xFC
  }

  lemma AssembledNumber(b: byte, c: seq<byte>)
    requires |c| == Following(FormOf(b)) && !FormOf(b).Negated?
    ensures |c| + 1 == Announced(ByteValue(b))
    ensures Means(ByteValue(b), [b] + c, Number(Assemble(FormOf(b), b, c)))
  {
    FormByOrder(b);
    FirstByteOrder(b);
    hide Number;
    hide ByteValue;
    hide BigEndian;
    hide FormOf;
    hide Read1;
    hide Read2;
    hide Read3;
    hide Read4;
    hide Read5;
    hide Read9;
    hide ReadSmall;
    assert ([b] + c)[1..] == c;
    match FormOf(b)
    case One =>
      Number1(b);
      Big1(b);
      assert [b] + c == [b];
    case Two =>
      Number2(b, c[0]);
      assert [b] + c == [b, c[0]];
    case Three =>
      Number3(b, c[0], c[1]);
      assert [b] + c == [b, c[0], c[1]];
    case Four =>
      Number4(b, c[0], c[1], c[2]);
      assert [b] + c == [b, c[0], c[1], c[2]];
    case Five =>
      Number5(c[0], c[1], c[2], c[3]);
      assert c == [c[0], c[1], c[2], c[3]];
    case Nine =>
      Number9(c[0], c[1], c[2], c[3], c[4], c[5], c[6], c[7]);
      assert c == [c[0], c[1], c[2], c[3], c[4], c[5], c[6], c[7]];
    case Small =>
      NumberSmall(b);
  }

  /** What any byte string reads as, by the number of its first byte. */
  lemma DecodedNumber(s: seq<byte>)
    requires |s| > 0
    ensures var b, d := ByteValue(s[0]), Decode(s);
            if 0xF8 <= b < 0xFC then
              if |s| == 1 then d == Decoded(0, 0, 1)
              else
                var r := Decode(s[1..]);
                Number(d.value) == MAX - Number(r.value) && d.size == r.size && d.used == 1 + r.used
            else if |s| < Announced(b) then d == Decoded(0, 0, 1)
            else Means(b, s[..Announced(b)], Number(d.value)) && d.size == d.used == Announced(b)
  {
    FormIsByFirst(s[0]);
    hide Number;
    hide ByteValue;
    hide BigEndian;
    hide FormOf;
    hide Assemble;
    hide Complement;
    hide Means;
    var f := FormOf(s[0]);
    if f.Negated? {
      NumberOfComplement(Decode(s[1..]).value);
    } else if |s| >= 1 + Following(f) {
      var c := s[1..1 + Following(f)];
      AssembledNumber(s[0], c);
      assert [s[0]] + c == s[..1 + Following(f)];
    }
  }
}
