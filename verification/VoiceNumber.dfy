/** Voice packets as numbers: what each part says on the wire, and what a parsed frame means. */
module VoiceNumber {
  import opened Bytes
  import opened IvBytes
  import opened VarInt
  import opened VarIntNumber
  import Voice = VoicePacket

  // ---- The frame header ----

  lemma NextWidened(h: bv16)
    requires h < 0x1FFF
    ensures Voice.Widen16(h + 1) == Plus1(Voice.Widen16(h)) && Voice.Widen16(h) != 0xFFFF_FFFF_FFFF_FFFF
  {
  }

  lemma WidenedZero()
    ensures Voice.Widen16(0) == 0
  {
  }

  lemma NextLength(n: nat)
    requires 0 < n < 0x2000
    ensures Number(Voice.Widen16(Voice.Bits(n))) == Number(Voice.Widen16(Voice.Bits(n - 1))) + 1
  {
    hide *;
    var h := Voice.Bits(n - 1);
    Voice.CountOfBits(n - 1);
    NextBits(n);
    Voice.BelowByCount(h);
    NextWidened(h);
    NumberCounts(Voice.Widen16(h));
  }

  lemma NumberOfNone()
    ensures Number(Voice.Widen16(Voice.Bits(0))) == 0
  {
    hide *;
    Voice.ZeroBits();
    WidenedZero();
    ZeroHasNoPlaces();
  }

  /** Every payload length is its own number: counted up from zero. */
  lemma {:induction false} NumberOfLength(n: nat)
    requires n < 0x2000
    ensures Number(Voice.Widen16(Voice.Bits(n))) == n
    decreases n
  {
    hide *;
    if n == 0 {
      NumberOfNone();
    } else {
      NumberOfLength(n - 1);
      NextLength(n);
    }
  }

  lemma NextBits(n: nat)
    requires 0 < n < 0x2000
    ensures Voice.Bits(n) == Voice.Bits(n - 1) + 1
  {
    hide Voice.Bits;
    hide Voice.Count;
    var h := Voice.Bits(n - 1);
    Voice.CountOfBits(n - 1);
    Voice.BelowByCount(h);
    Voice.NextCount(h);
    Voice.BitsOfCount(h + 1);
  }

  function AddFlag(b: byte): byte {
    b | 0x20
  }

  function LowFive(b: byte): byte {
    b & 0x1F
  }

  lemma WidenedPlaces(h: bv16)
    requires h < 0x2000
    ensures var v := Voice.Widen16(h);
            UpperIsZero(v) && ByteAt(v, 3) == 0 && ByteAt(v, 2) == 0 && ByteAt(v, 1) < 0x20
  {
  }

  lemma FlaggedPlaces(h: bv16)
    requires h < 0x2000
    ensures var w := Voice.Widen16(Voice.SetEnd(h));
            UpperIsZero(w) && ByteAt(w, 3) == 0 && ByteAt(w, 2) == 0
  {
  }

  lemma FlaggedLowPlaces(h: bv16)
    requires h < 0x2000
    ensures var v, w := Voice.Widen16(h), Voice.Widen16(Voice.SetEnd(h));
            ByteAt(w, 1) == AddFlag(ByteAt(v, 1)) && ByteAt(w, 0) == ByteAt(v, 0)
  {
  }

  lemma FlagValue(b: byte)
    requires b < 0x20
    ensures ByteValue(AddFlag(b)) == ByteValue(b) + 0x20
  {
  }

  lemma FlagAdds(h: bv16)
    requires h < 0x2000
    ensures Number(Voice.Widen16(Voice.SetEnd(h))) == Number(Voice.Widen16(h)) + 0x2000
  {
    hide *;
    var v, w := Voice.Widen16(h), Voice.Widen16(Voice.SetEnd(h));
    WidenedPlaces(h);
    FlaggedPlaces(h);
    FlaggedLowPlaces(h);
    FlagValue(ByteAt(v, 1));
    NumberOfFour(v);
    NumberOfFour(w);
    Big4(ByteAt(v, 3), ByteAt(v, 2), ByteAt(v, 1), ByteAt(v, 0));
    Big4(ByteAt(w, 3), ByteAt(w, 2), ByteAt(w, 1), ByteAt(w, 0));
  }

  /** The frame header is the length, and 8192 more on the last frame. */
  lemma HeaderIsNumber(n: nat, end: bool)
    requires n < 0x2000
    ensures Number(Voice.Widen16(Voice.OpusHeader(n, end))) == n + if end then 0x2000 else 0
  {
    hide *;
    HeaderIs(n, end);
    NumberOfLength(n);
    Voice.BitsAreLow(n);
    FlagAdds(Voice.Bits(n));
  }

  lemma HeaderIs(n: nat, end: bool)
    requires n < 0x2000
    ensures Voice.OpusHeader(n, end) == if end then Voice.SetEnd(Voice.Bits(n)) else Voice.Bits(n)
  {
    hide Voice.Bits;
    hide Voice.SetEnd;
  }

  lemma LowByteIsPlace(h: bv16)
    ensures Voice.LowByte(h) == ByteAt(Voice.Widen16(h), 0)
  {
  }

  /** The older codecs carry the low byte of the header, Opus all of it, and no other has one. */
  lemma FrameHeaderIs(kind: byte, header: bv16)
    ensures var s, n := Voice.FrameHeader(kind, header), Number(Voice.Widen16(header));
            if kind == 4 then |s| == SizeOf(n) && BigEndian(s) == PrefixOf(SizeOf(n)) + n
            else if kind == 0 || kind == 2 || kind == 3 then |s| == 1 && ByteValue(s[0]) == n % 0x100
            else s == []
  {
    var v := Voice.Widen16(header);
    PlainOnTheWire(v);
    LowByteIsPlace(header);
    NumberByPlaces(v);
    hide Number;
    hide ByteAt;
    hide ByteValue;
    hide BigEndian;
    hide EncodePlain;
    hide SizeOf;
    hide PrefixOf;
    hide Voice.Widen16;
    hide Voice.LowByte;
  }

  // ---- What a header read from anywhere means ----

  lemma MaskedPlaces(v: word)
    ensures var w := Voice.Widen16(Voice.LengthBits(Voice.Low16(v)));
            && UpperIsZero(w) && ByteAt(w, 3) == 0 && ByteAt(w, 2) == 0
            && ByteAt(w, 1) == LowFive(ByteAt(v, 1)) && ByteAt(w, 0) == ByteAt(v, 0)
  {
  }

  lemma LowFiveValue(b: byte)
    ensures ByteValue(LowFive(b)) == ByteValue(b) % 0x20
  {
  }

  predicate FlagClear(b: byte) {
    b & 0x20 == 0
  }

  lemma FlagOfPlace(v: word)
    ensures Voice.SpeakingBit(Voice.Low16(v)) <==> FlagClear(ByteAt(v, 1))
  {
  }

  lemma FlagByValue(b: byte)
    ensures FlagClear(b) <==> ByteValue(b) / 0x20 % 2 == 0
  {
  }

  lemma LengthIsLow(v: word)
    ensures Voice.LengthBits(Voice.Low16(v)) < 0x2000
  {
  }

  lemma CountBelow(h: bv16)
    requires h < 0x2000
    ensures Voice.Count(h) < 0x2000
  {
  }

  lemma CountIsNumber(h: bv16)
    requires h < 0x2000
    ensures Voice.Count(h) == Number(Voice.Widen16(h))
  {
    hide *;
    CountBelow(h);
    Voice.BitsOfCount(h);
    NumberOfLength(Voice.Count(h));
  }

  /** Of a header read from anywhere, the length is the rest modulo 8192, and the bit above it ends the speech. */
  lemma HeaderMeans(v: word)
    ensures Voice.Count(Voice.LengthBits(Voice.Low16(v))) == Number(v) % 0x2000
    ensures Voice.SpeakingBit(Voice.Low16(v)) <==> Number(v) / 0x2000 % 2 == 0
  {
    NumberByPlaces(v);
    hide Number;
    hide ByteAt;
    hide ByteValue;
    hide LowFive;
    hide FlagClear;
    hide Voice.LengthBits;
    hide Voice.SpeakingBit;
    hide Voice.Low16;
    hide Voice.Count;
    hide Voice.Widen16;
    hide BigEndian;
    hide UpperIsZero;
    LengthIsLow(v);
    CountIsNumber(Voice.LengthBits(Voice.Low16(v)));
    MaskedPlaces(v);
    var w := Voice.Widen16(Voice.LengthBits(Voice.Low16(v)));
    NumberOfFour(w);
    Big4(0, 0, LowFive(ByteAt(v, 1)), ByteAt(v, 0));
    ZeroByteValue();
    LowFiveValue(ByteAt(v, 1));
    FlagOfPlace(v);
    FlagByValue(ByteAt(v, 1));
    LowBits(Place(v, 0), Place(v, 1), Place(v, 2) + 0x100 * Place(v, 3) + 0x1_0000 * Quad(v, 4));
  }

  lemma LowBits(a: nat, b: nat, c: nat)
    requires a < 0x100 && b < 0x100
    ensures (a + 0x100 * b + 0x1_0000 * c) % 0x2000 == a + 0x100 * (b % 0x20)
    ensures (a + 0x100 * b + 0x1_0000 * c) / 0x2000 % 2 == b / 0x20 % 2
  {
    var low, q := a + 0x100 * (b % 0x20), b / 0x20;
    assert a + 0x100 * b + 0x1_0000 * c == low + 0x2000 * (q + 8 * c);
    Split(low, q + 8 * c);
    SameParity(q, c);
  }

  lemma Split(low: nat, k: nat)
    requires low < 0x2000
    ensures (low + 0x2000 * k) % 0x2000 == low && (low + 0x2000 * k) / 0x2000 == k
  {
  }

  lemma SameParity(q: nat, c: nat)
    ensures (q + 8 * c) % 2 == q % 2
  {
  }

  /** What the array reader makes of any bytes, by the number of the first. */
  lemma GotNumber(s: seq<byte>)
    requires Voice.CanGet(s)
    ensures var b, r := ByteValue(s[0]), Voice.Get(s);
            if 0xF8 <= b < 0xFC then Number(r.0) == MAX && r.1 == 1
            else r.1 == Announced(b) <= |s| && Means(b, s[..Announced(b)], Number(r.0))
  {
    FormIsByFirst(s[0]);
    hide Number;
    hide ByteValue;
    hide BigEndian;
    hide FormOf;
    hide Assemble;
    hide Complement;
    hide Means;
    var f := FormOf(s[0]);
    if f.Negated? {
      ZeroHasNoPlaces();
      NumberOfComplement(0);
    } else {
      var c := s[1..1 + Following(f)];
      AssembledNumber(s[0], c);
      assert [s[0]] + c == s[..1 + Following(f)];
    }
  }

  predicate TopClear(b: byte) {
    b & 0x80 == 0
  }

  lemma TopByValue(b: byte)
    ensures TopClear(b) <==> ByteValue(b) < 0x80
    ensures (b & 0x7F) as int == ByteValue(b) % 0x80
  {
  }

  /** A parsed frame of any codec, by the numbers in it. */
  lemma ParsedNumbers(s: seq<byte>, kind: byte)
    requires Voice.CanParse(s, kind)
    ensures var f, (sequence, n) := Voice.Parse(s, kind), Voice.Get(s);
            f.sequence == sequence &&
            if kind == 4 then
              var (v, m) := Voice.Get(s[n..]);
              f.length == Number(v) % 0x2000 && f.speaking == (Number(v) / 0x2000 % 2 == 0) && f.start == n + m
            else if kind == 0 || kind == 2 || kind == 3 then
              var b := ByteValue(s[n]);
              f.length == b % 0x80 && f.speaking == (b < 0x80) && f.start == n + 1
            else f.length == 0 && !f.speaking && f.start == n
  {
    hide Number;
    hide ByteValue;
    hide Voice.Get;
    hide Voice.CanGet;
    hide Voice.Low16;
    hide Voice.SpeakingBit;
    hide Voice.LengthBits;
    hide Voice.Count;
    var n := Voice.Get(s).1;
    if kind == Voice.OPUS {
      HeaderMeans(Voice.Get(s[n..]).0);
    } else if kind == Voice.SPEEX || kind == Voice.CELT_ALPHA || kind == Voice.CELT_BETA {
      TopByValue(s[n]);
    }
  }

  // ---- The whole packet ----

  lemma FirstByte(target: byte)
    ensures ByteValue(Voice.HeaderByte(Voice.OPUS, target)) == 0x80 + ByteValue(target) % 0x20
  {
    LowFiveValue(target);
    HeaderIsTagged(target);
    assert LowFive(target) < 0x20;
    hide *;
    WithTop(LowFive(target));
  }

  lemma HeaderIsTagged(target: byte)
    ensures Voice.HeaderByte(Voice.OPUS, target) == Tagged(LowFive(target), 0x80)
  {
  }

  lemma WithTop(b: byte)
    requires b < 0x20
    ensures ByteValue(Tagged(b, 0x80)) == ByteValue(b) + 0x80
  {
  }

  /** A sequence number keeps its 32 bits. */
  lemma SequenceKept(sequence: bv32)
    ensures Voice.Widen32(sequence) < 0x1_0000_0000 && Voice.Widen32(sequence) as bv32 == sequence
  {
  }

  /** Every byte of an Opus packet: codec and target, sequence number, length and flag, payload. */
  lemma OpusOnTheWire(target: byte, sequence: bv32, end: bool, payload: seq<byte>)
    requires |payload| < 0x2000
    ensures var p, n := Voice.OpusPacket(target, sequence, end, payload), Number(Voice.Widen32(sequence));
            var h := |payload| + if end then 0x2000 else 0;
            var k, m := 1 + SizeOf(n), SizeOf(h);
            && |p| == k + m + |payload|
            && ByteValue(p[0]) == 0x80 + ByteValue(target) % 0x20
            && BigEndian(p[1..k]) == PrefixOf(SizeOf(n)) + n
            && BigEndian(p[k..k + m]) == PrefixOf(m) + h
            && p[k + m..] == payload
  {
    hide Number;
    hide ByteValue;
    hide BigEndian;
    hide EncodePlain;
    hide SizeOf;
    hide PrefixOf;
    hide Voice.HeaderByte;
    hide Voice.OpusHeader;
    hide Voice.Widen16;
    hide Voice.Widen32;
    FirstByte(target);
    PlainOnTheWire(Voice.Widen32(sequence));
    var v := Voice.Widen16(Voice.OpusHeader(|payload|, end));
    HeaderIsNumber(|payload|, end);
    PlainOnTheWire(v);
    var p := Voice.OpusPacket(target, sequence, end, payload);
    var first, second := EncodePlain(Voice.Widen32(sequence)), EncodePlain(v);
    PartsOf(Voice.HeaderByte(Voice.OPUS, target), first, second, payload);
    assert p == [Voice.HeaderByte(Voice.OPUS, target)] + first + second + payload;
  }

  lemma PartsOf(b: byte, first: seq<byte>, second: seq<byte>, third: seq<byte>)
    ensures var p := [b] + first + second + third;
            && p[1..1 + |first|] == first && p[1 + |first| + |second|..] == third
            && p[1 + |first|..1 + |first| + |second|] == second
  {
  }
}
