/**
 * The variable-length integers of the protocol: a prefix code over all 64-bit values, with
 * one-byte forms for -1 to -4 and a prefix that complements the value after it.
 */
module VarInt {
  import opened Bytes

  type word = bv64

  // ---- Bytes of a word ----

  /** Byte `k` of a word, counted from the least significant one. */
  function ByteAt(v: word, k: nat): byte
    requires k < 8
  {
    match k
    case 0 => (v & 0xFF) as byte
    case 1 => ((v >> 8) & 0xFF) as byte
    case 2 => ((v >> 16) & 0xFF) as byte
    case 3 => ((v >> 24) & 0xFF) as byte
    case 4 => ((v >> 32) & 0xFF) as byte
    case 5 => ((v >> 40) & 0xFF) as byte
    case 6 => ((v >> 48) & 0xFF) as byte
    case _ => ((v >> 56) & 0xFF) as byte
  }

  function Tagged(b: byte, tag: byte): byte {
    b | tag
  }

  function Complement(v: word): word {
    !v
  }

  predicate IsNegative(v: word) {
    v & 0x8000_0000_0000_0000 != 0 && Complement(v) < 0x1_0000_0000
  }

  // ---- Writing ----

  /** The forms without a sign, by size. */
  function EncodePlain(v: word): (s: seq<byte>)
    ensures 1 <= |s| <= 9
  {
    if v < 0x80 then [ByteAt(v, 0)]
    else if v < 0x4000 then [Tagged(ByteAt(v, 1), 0x80), ByteAt(v, 0)]
    else if v < 0x20_0000 then [Tagged(ByteAt(v, 2), 0xC0), ByteAt(v, 1), ByteAt(v, 0)]
    else if v < 0x1000_0000 then [Tagged(ByteAt(v, 3), 0xE0), ByteAt(v, 2), ByteAt(v, 1), ByteAt(v, 0)]
    else if v < 0x1_0000_0000 then [0xF0, ByteAt(v, 3), ByteAt(v, 2), ByteAt(v, 1), ByteAt(v, 0)]
    else [0xF4, ByteAt(v, 7), ByteAt(v, 6), ByteAt(v, 5), ByteAt(v, 4),
          ByteAt(v, 3), ByteAt(v, 2), ByteAt(v, 1), ByteAt(v, 0)]
  }

  function Encode(v: word): (s: seq<byte>)
    ensures 1 <= |s| <= 10
  {
    if IsNegative(v) then
      var w := Complement(v);
      if w <= 0x3 then [Tagged(ByteAt(w, 0), 0xFC)] else [0xF8] + EncodePlain(w)
    else EncodePlain(v)
  }

  // ---- Reading ----

  /** What the first byte announces, in the order the reader looks. */
  datatype Form = One | Two | Five | Nine | Negated | Small | Four | Three

  function FormOf(b: byte): Form {
    if b & 0x80 == 0x00 then One
    else if b & 0xC0 == 0x80 then Two
    else if b & 0xF0 == 0xF0 then
      if b & 0xFC == 0xF0 then Five
      else if b & 0xFC == 0xF4 then Nine
      else if b & 0xFC == 0xF8 then Negated
      else Small
    else if b & 0xF0 == 0xE0 then Four
    else Three
  }

  /** How many bytes the form needs besides the first; the negating prefix needs one more. */
  function Following(f: Form): nat {
    match f
    case One => 0 case Small => 0
    case Two => 1 case Negated => 1
    case Three => 2 case Four => 3 case Five => 4 case Nine => 8
  }

  function Widen(b: byte): word {
    b as word
  }

  function Read1(b: byte): word {
    Widen(b & 0x7F)
  }

  function Read2(b: byte, b1: byte): word {
    (Widen(b & 0x3F) << 8) | Widen(b1)
  }

  function Read3(b: byte, b1: byte, b2: byte): word {
    (Widen(b & 0x1F) << 16) | (Widen(b1) << 8) | Widen(b2)
  }

  function Read4(b: byte, b1: byte, b2: byte, b3: byte): word {
    (Widen(b & 0x0F) << 24) | (Widen(b1) << 16) | (Widen(b2) << 8) | Widen(b3)
  }

  function Read5(b1: byte, b2: byte, b3: byte, b4: byte): word {
    (Widen(b1) << 24) | (Widen(b2) << 16) | (Widen(b3) << 8) | Widen(b4)
  }

  function Read9(b1: byte, b2: byte, b3: byte, b4: byte, b5: byte, b6: byte, b7: byte, b8: byte): word {
    (Widen(b1) << 56) | (Widen(b2) << 48) | (Widen(b3) << 40) | (Widen(b4) << 32) |
    (Widen(b5) << 24) | (Widen(b6) << 16) | (Widen(b7) << 8) | Widen(b8)
  }

  function ReadSmall(b: byte): word {
    Complement(Widen(b & 0x03))
  }

  /** The value of a form, from its first byte and the bytes that follow it. */
  function Assemble(f: Form, b: byte, c: seq<byte>): word
    requires |c| == Following(f) && !f.Negated?
  {
    match f
    case One => Read1(b)
    case Two => Read2(b, c[0])
    case Three => Read3(b, c[0], c[1])
    case Four => Read4(b, c[0], c[1], c[2])
    case Five => Read5(c[0], c[1], c[2], c[3])
    case Nine => Read9(c[0], c[1], c[2], c[3], c[4], c[5], c[6], c[7])
    case Small => ReadSmall(b)
  }

  /** The value read, the size reported, and the bytes the read head has moved. */
  datatype Decoded = Decoded(value: word, size: nat, used: nat)

  function Decode(s: seq<byte>): (d: Decoded)
    ensures d.used <= |s|
    ensures d.size > 0 ==> d.used > 0
    decreases |s|
  {
    if |s| == 0 then Decoded(0, 0, 0)
    else
      var v, f := s[0], FormOf(s[0]);
      var n := Following(f);
      if |s| < n + 1 then Decoded(0, 0, 1)
      else if f.Negated? then
        var r := Decode(s[1..]);
        Decoded(Complement(r.value), r.size, 1 + r.used)
      else Decoded(Assemble(f, v, s[1..n + 1]), n + 1, n + 1)
  }

  // ---- Each form by itself ----

  lemma Form1(v: word)
    requires v < 0x80
    ensures FormOf(ByteAt(v, 0)) == One
  {
  }

  lemma Form2(v: word)
    requires v < 0x4000
    ensures FormOf(Tagged(ByteAt(v, 1), 0x80)) == Two
  {
  }

  lemma Form3(v: word)
    requires v < 0x20_0000
    ensures FormOf(Tagged(ByteAt(v, 2), 0xC0)) == Three
  {
  }

  lemma Form4(v: word)
    requires v < 0x1000_0000
    ensures FormOf(Tagged(ByteAt(v, 3), 0xE0)) == Four
  {
  }

  lemma FormSmall(v: word)
    requires v <= 3
    ensures FormOf(Tagged(ByteAt(v, 0), 0xFC)) == Small
  {
  }

  lemma FormConstants()
    ensures FormOf(0xF0) == Five && FormOf(0xF4) == Nine && FormOf(0xF8) == Negated
  {
  }

  lemma Value1(v: word)
    requires v < 0x80
    ensures Read1(ByteAt(v, 0)) == v
  {
  }

  lemma Value2(v: word)
    requires v < 0x4000
    ensures Read2(Tagged(ByteAt(v, 1), 0x80), ByteAt(v, 0)) == v
  {
  }

  lemma Value3(v: word)
    requires v < 0x20_0000
    ensures Read3(Tagged(ByteAt(v, 2), 0xC0), ByteAt(v, 1), ByteAt(v, 0)) == v
  {
  }

  lemma Value4(v: word)
    requires v < 0x1000_0000
    ensures Read4(Tagged(ByteAt(v, 3), 0xE0), ByteAt(v, 2), ByteAt(v, 1), ByteAt(v, 0)) == v
  {
  }

  lemma Value5(v: word)
    requires v < 0x1_0000_0000
    ensures Read5(ByteAt(v, 3), ByteAt(v, 2), ByteAt(v, 1), ByteAt(v, 0)) == v
  {
  }

  lemma Value9(v: word)
    ensures Read9(ByteAt(v, 7), ByteAt(v, 6), ByteAt(v, 5), ByteAt(v, 4),
                  ByteAt(v, 3), ByteAt(v, 2), ByteAt(v, 1), ByteAt(v, 0)) == v
  {
  }

  lemma ValueSmall(v: word)
    requires v <= 3
    ensures ReadSmall(Tagged(ByteAt(v, 0), 0xFC)) == Complement(v)
  {
  }

  lemma ComplementTwice(v: word)
    ensures Complement(Complement(v)) == v
  {
  }

  // ---- Round trip ----

  lemma PlainRoundTrip(v: word, rest: seq<byte>)
    ensures var s := EncodePlain(v);
            Decode(s + rest) == Decoded(v, |s|, |s|)
  {
    hide ByteAt;
    hide Tagged;
    hide FormOf;
    hide Read1;
    hide Read2;
    hide Read3;
    hide Read4;
    hide Read5;
    hide Read9;
    FormConstants();
    if v < 0x80 {
      Form1(v);
      Value1(v);
    } else if v < 0x4000 {
      Form2(v);
      Value2(v);
    } else if v < 0x20_0000 {
      Form3(v);
      Value3(v);
    } else if v < 0x1000_0000 {
      Form4(v);
      Value4(v);
    } else if v < 0x1_0000_0000 {
      Value5(v);
    } else {
      Value9(v);
    }
  }

  /**
   * Reading what was written gives the value back and moves the read head over exactly
   * those bytes, whatever follows them. The reported size leaves out a negating prefix.
   */
  lemma RoundTrip(v: word, rest: seq<byte>)
    ensures var s := Encode(v);
            var d := Decode(s + rest);
            && d.value == v && d.used == |s|
            && d.size == if IsNegative(v) && Complement(v) > 3 then |s| - 1 else |s|
  {
    hide EncodePlain;
    hide FormOf;
    hide ReadSmall;
    hide Tagged;
    hide ByteAt;
    hide Complement;
    FormConstants();
    var s, w := Encode(v), Complement(v);
    ComplementTwice(v);
    if !IsNegative(v) {
      PlainRoundTrip(v, rest);
    } else if w <= 3 {
      FormSmall(w);
      ValueSmall(w);
    } else {
      PlainRoundTrip(w, rest);
      assert (s + rest)[1..] == EncodePlain(w) + rest;
    }
  }

  /** No encoding is the beginning of another one. */
  lemma PrefixFree(u: word, v: word)
    requires Encode(u) <= Encode(v)
    ensures u == v
  {
    hide Encode;
    hide Decode;
    var rest := Encode(v)[|Encode(u)|..];
    assert Encode(v) + [] == Encode(v) == Encode(u) + rest;
    RoundTrip(u, rest);
    RoundTrip(v, []);
  }

  function EncodeAll(vs: seq<word>): seq<byte> {
    if |vs| == 0 then [] else Encode(vs[0]) + EncodeAll(vs[1..])
  }

  /** Reads `n` values one after the other. */
  function DecodeAll(s: seq<byte>, n: nat): (r: (seq<word>, nat))
    ensures |r.0| == n && r.1 <= |s|
    decreases n
  {
    if n == 0 then ([], 0)
    else
      var d := Decode(s);
      var r := DecodeAll(s[d.used..], n - 1);
      ([d.value] + r.0, d.used + r.1)
  }

  /** A whole stream of values comes back, and the read head ends where the writing ended. */
  lemma {:induction false} StreamRoundTrip(vs: seq<word>, rest: seq<byte>)
    ensures DecodeAll(EncodeAll(vs) + rest, |vs|) == (vs, |EncodeAll(vs)|)
    decreases |vs|
  {
    hide Encode;
    hide Decode;
    if |vs| > 0 {
      var s, tail := EncodeAll(vs) + rest, EncodeAll(vs[1..]) + rest;
      assert s == Encode(vs[0]) + tail;
      RoundTrip(vs[0], tail);
      assert s[|Encode(vs[0])|..] == tail;
      StreamRoundTrip(vs[1..], rest);
      assert vs == [vs[0]] + vs[1..];
    }
  }

  // ---- The shortest code ----

  lemma Range1(b: byte)
    ensures Read1(b) < 0x80
  {
  }

  lemma Range2(b: byte, b1: byte)
    ensures Read2(b, b1) < 0x4000
  {
  }

  lemma Range3(b: byte, b1: byte, b2: byte)
    ensures Read3(b, b1, b2) < 0x20_0000
  {
  }

  lemma Range4(b: byte, b1: byte, b2: byte, b3: byte)
    ensures Read4(b, b1, b2, b3) < 0x1000_0000
  {
  }

  lemma Range5(b1: byte, b2: byte, b3: byte, b4: byte)
    ensures Read5(b1, b2, b3, b4) < 0x1_0000_0000
  {
  }

  lemma RangeSmall(b: byte)
    ensures Complement(ReadSmall(b)) <= 3
  {
  }

  lemma SmallIsPlain(v: word)
    requires v < 0x1_0000_0000
    ensures !IsNegative(v)
  {
  }

  lemma SmallComplementIsNegative(v: word)
    requires v < 0x1_0000_0000
    ensures IsNegative(Complement(v))
  {
  }

  /** Complementing a value costs at most the one byte of the prefix. */
  lemma ComplementCostsOne(v: word)
    ensures |Encode(Complement(v))| <= 1 + |Encode(v)|
  {
    hide Complement;
    hide ByteAt;
    hide Tagged;
    ComplementTwice(v);
    if v < 0x1_0000_0000 {
      SmallIsPlain(v);
      SmallComplementIsNegative(v);
    } else if !IsNegative(v) {
      assert |Encode(v)| == 9;
    } else {
      SmallIsPlain(Complement(v));
    }
  }

  lemma PlainLength(v: word, n: nat)
    requires (n == 1 && v < 0x80) || (n == 2 && v < 0x4000) || (n == 3 && v < 0x20_0000)
             || (n == 4 && v < 0x1000_0000) || (n == 5 && v < 0x1_0000_0000)
    ensures |Encode(v)| <= n
  {
    hide ByteAt;
    SmallIsPlain(v);
  }

  lemma LengthAtMostNine(v: word)
    ensures |Encode(v)| <= 9
  {
    hide ByteAt;
    hide Tagged;
    hide Complement;
  }

  /**
   * No byte string that reads as a value, with any number of nested negations, is shorter
   * than the string the writer makes for that value.
   */
  lemma {:induction false} WriterIsShortest(s: seq<byte>)
    requires Decode(s).size > 0
    ensures |Encode(Decode(s).value)| <= Decode(s).used
    decreases |s|
  {
    hide Encode;
    hide FormOf;
    hide Read1;
    hide Read2;
    hide Read3;
    hide Read4;
    hide Read5;
    hide Read9;
    hide ReadSmall;
    hide Complement;
    match FormOf(s[0])
    case One =>
      Range1(s[0]);
      PlainLength(Read1(s[0]), 1);
    case Two =>
      Range2(s[0], s[1]);
      PlainLength(Read2(s[0], s[1]), 2);
    case Three =>
      Range3(s[0], s[1], s[2]);
      PlainLength(Read3(s[0], s[1], s[2]), 3);
    case Four =>
      Range4(s[0], s[1], s[2], s[3]);
      PlainLength(Read4(s[0], s[1], s[2], s[3]), 4);
    case Five =>
      Range5(s[1], s[2], s[3], s[4]);
      PlainLength(Read5(s[1], s[2], s[3], s[4]), 5);
    case Nine =>
      LengthAtMostNine(Decode(s).value);
    case Negated =>
      WriterIsShortest(s[1..]);
      ComplementCostsOne(Decode(s[1..]).value);
    case Small =>
      RangeSmall(s[0]);
      SmallLength(ReadSmall(s[0]));
  }

  lemma SmallLength(v: word)
    requires Complement(v) <= 3
    ensures |Encode(v)| == 1
  {
    ComplementTwice(v);
    SmallComplementIsNegative(Complement(v));
  }

  /** The writer without negative forms agrees with the other one exactly on these values. */
  lemma PlainAgreesIff(v: word)
    ensures EncodePlain(v) == Encode(v) <==> !IsNegative(v)
  {
    hide ByteAt;
    hide Tagged;
    if IsNegative(v) {
      LargeIsNine(v);
      LengthOfNegative(v);
    }
  }

  lemma LargeIsNine(v: word)
    requires IsNegative(v)
    ensures |EncodePlain(v)| == 9
  {
    NegativeIsLarge(v);
    hide ByteAt;
    hide IsNegative;
  }

  lemma NegativeIsLarge(v: word)
    requires v & 0x8000_0000_0000_0000 != 0
    ensures v >= 0x1_0000_0000
  {
  }

  lemma LengthOfNegative(v: word)
    requires IsNegative(v)
    ensures |Encode(v)| <= 6
  {
    hide ByteAt;
    hide Tagged;
    hide Complement;
  }
}
