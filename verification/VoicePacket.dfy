/**
 * Voice packets: a header byte, a sequence number, a frame header that carries the payload
 * length and the end-of-speech flag, and the payload. Building them and taking them apart.
 */
module VoicePacket {
  import opened Bytes
  import opened VarInt

  const CELT_ALPHA: byte := 0
  const SPEEX: byte := 2
  const CELT_BETA: byte := 3
  const OPUS: byte := 4

  const UDP_BUFFER_MAX: nat := 1024

  // ---- Bits of the headers ----

  function HeaderByte(kind: byte, target: byte): byte {
    ((kind & 0x7) << 5) | (target & 0x1F)
  }

  /** The first byte holds the codec above and the target below. */
  lemma HeaderBits(kind: byte, target: byte)
    ensures HeaderByte(kind, target) >> 5 == kind & 0x7 && HeaderByte(kind, target) & 0x1F == target & 0x1F
  {
  }

  function Widen32(v: bv32): word {
    v as word
  }

  function Widen16(v: bv16): word {
    v as word
  }

  function Low16(v: word): bv16 {
    (v & 0xFFFF) as bv16
  }

  function LowByte(h: bv16): byte {
    (h & 0xFF) as byte
  }

  function Bits(n: nat): bv16
    requires n < 0x1_0000
  {
    n as bv16
  }

  function Count(h: bv16): nat {
    h as int
  }

  function SetEnd(h: bv16): bv16 {
    h | 0x2000
  }

  function LengthBits(h: bv16): bv16 {
    h & 0x1FFF
  }

  predicate SpeakingBit(h: bv16) {
    h & 0x2000 == 0
  }

  lemma ZeroBits()
    ensures Bits(0) == 0 && Count(0) == 0
  {
  }

  lemma NextCount(h: bv16)
    requires h < 0x1FFF
    ensures Count(h + 1) == Count(h) + 1
  {
  }

  lemma BitsOfCount(h: bv16)
    requires Count(h) < 0x2000
    ensures Bits(Count(h)) == h
  {
  }

  lemma BelowByCount(h: bv16)
    requires Count(h) < 0x1FFF
    ensures h < 0x1FFF
  {
  }

  /** Every payload length survives in 16 bits: counted up from zero. */
  lemma {:induction false} CountOfBits(n: nat)
    requires n < 0x2000
    ensures Count(Bits(n)) == n
    decreases n
  {
    if n == 0 {
      ZeroBits();
    } else {
      hide Bits;
      hide Count;
      var h := Bits(n - 1);
      CountOfBits(n - 1);
      BelowByCount(h);
      NextCount(h);
      BitsOfCount(h + 1);
    }
  }

  lemma BitsAreLow(n: nat)
    requires n < 0x2000
    ensures Bits(n) < 0x2000
  {
  }

  lemma EndKeepsLength(h: bv16)
    requires h < 0x2000
    ensures LengthBits(SetEnd(h)) == h && LengthBits(h) == h
  {
  }

  lemma EndClearsSpeaking(h: bv16)
    requires h < 0x2000
    ensures !SpeakingBit(SetEnd(h)) && SpeakingBit(h)
  {
  }

  lemma Low16OfWiden(h: bv16)
    ensures Low16(Widen16(h)) == h
  {
  }

  lemma Widen32Bound(v: bv32)
    ensures Widen32(v) < 0x1_0000_0000
  {
  }

  lemma FrameHeaderBound(h: bv16)
    requires h < 0x2000
    ensures Widen16(h) < 0x4000 && Widen16(SetEnd(h)) < 0x4000
  {
  }

  // ---- Storing ----

  /** A string with the bytes from `at` on overwritten. */
  function Splice(s: seq<byte>, at: nat, t: seq<byte>): (r: seq<byte>)
    requires at + |t| <= |s|
    ensures |r| == |s|
  {
    s[..at] + t + s[at + |t|..]
  }

  lemma SpliceTwice(s: seq<byte>, at: nat, t: seq<byte>, u: seq<byte>)
    requires at + |t| + |u| <= |s|
    ensures Splice(Splice(s, at, t), at + |t|, u) == Splice(s, at, t + u)
  {
  }

  lemma SpliceNothing(s: seq<byte>, at: nat)
    requires at <= |s|
    ensures Splice(s, at, []) == s
  {
  }

  method Store(buffer: array<byte>, at: nat, t: seq<byte>)
    requires at + |t| <= buffer.Length
    modifies buffer
    ensures buffer[..] == Splice(old(buffer[..]), at, t)
  {
    CopyInto(buffer, at, t);
    assert buffer[..] == buffer[..at] + buffer[at..at + |t|] + buffer[at + |t|..];
  }

  // ---- Variable-length integers in a plain array ----

  /**
   * What the array reader makes of a byte string: the value, and the bytes it skips. It
   * knows nothing of nested negation: the negating prefix by itself reads as minus one.
   */
  function Get(s: seq<byte>): (r: (word, nat))
    requires CanGet(s)
    ensures 1 <= r.1 <= |s|
  {
    var f := FormOf(s[0]);
    if f.Negated? then (Complement(0), 1)
    else (Assemble(f, s[0], s[1..Following(f) + 1]), Following(f) + 1)
  }

  /** The bytes the reader touches are there; it does not look itself. */
  predicate CanGet(s: seq<byte>) {
    |s| > 0 && (FormOf(s[0]).Negated? || Following(FormOf(s[0])) < |s|)
  }

  lemma FormOfPlain(v: word)
    ensures !FormOf(EncodePlain(v)[0]).Negated?
  {
    hide ByteAt;
    hide Tagged;
    hide FormOf;
    FormConstants();
    if v < 0x80 {
      Form1(v);
    } else if v < 0x4000 {
      Form2(v);
    } else if v < 0x20_0000 {
      Form3(v);
    } else if v < 0x1000_0000 {
      Form4(v);
    }
  }

  /** The array reader gives back what the writer stored, whatever follows it. */
  lemma GetOfPlain(v: word, rest: seq<byte>)
    ensures CanGet(EncodePlain(v) + rest)
    ensures Get(EncodePlain(v) + rest) == (v, |EncodePlain(v)|)
  {
    hide EncodePlain;
    hide FormOf;
    hide Assemble;
    hide Complement;
    FormOfPlain(v);
    PlainRoundTrip(v, rest);
    assert (EncodePlain(v) + rest)[0] == EncodePlain(v)[0];
  }

  method SetVarInt(buffer: array<byte>, at: nat, value: word) returns (n: nat)
    requires at + |EncodePlain(value)| <= buffer.Length
    modifies buffer
    ensures n == |EncodePlain(value)|
    ensures buffer[..] == Splice(old(buffer[..]), at, EncodePlain(value))
  {
    hide ByteAt;
    hide Tagged;
    var s: seq<byte>;
    if value < 0x80 {
      s := [ByteAt(value, 0)];
    } else if value < 0x4000 {
      s := [Tagged(ByteAt(value, 1), 0x80), ByteAt(value, 0)];
    } else if value < 0x20_0000 {
      s := [Tagged(ByteAt(value, 2), 0xC0), ByteAt(value, 1), ByteAt(value, 0)];
    } else if value < 0x1000_0000 {
      s := [Tagged(ByteAt(value, 3), 0xE0), ByteAt(value, 2), ByteAt(value, 1), ByteAt(value, 0)];
    } else if value < 0x1_0000_0000 {
      s := [0xF0, ByteAt(value, 3), ByteAt(value, 2), ByteAt(value, 1), ByteAt(value, 0)];
    } else {
      s := [0xF4, ByteAt(value, 7), ByteAt(value, 6), ByteAt(value, 5), ByteAt(value, 4),
            ByteAt(value, 3), ByteAt(value, 2), ByteAt(value, 1), ByteAt(value, 0)];
    }
    assert s == EncodePlain(value);
    hide EncodePlain;
    Store(buffer, at, s);
    n := |s|;
  }

  method GetVarInt(buffer: array<byte>, at: nat) returns (value: word, n: nat)
    requires at <= buffer.Length && CanGet(buffer[at..])
    ensures (value, n) == Get(buffer[at..])
  {
    hide Assemble;
    hide Complement;
    hide FormOf;
    var f := FormOf(buffer[at]);
    assert buffer[at..][0] == buffer[at];
    if f.Negated? {
      return Complement(0), 1;
    }
    n := Following(f) + 1;
    assert buffer[at..][1..n] == buffer[at + 1..at + n];
    value := Assemble(f, buffer[at], buffer[at + 1..at + n]);
  }

  // ---- Building ----

  function Header(kind: byte, target: byte, sequence: bv32): seq<byte> {
    [HeaderByte(kind, target)] + EncodePlain(Widen32(sequence))
  }

  /** Opus frames carry their header as a variable-length integer, the other codecs as a byte. */
  function FrameHeader(kind: byte, header: bv16): seq<byte> {
    if kind == OPUS then EncodePlain(Widen16(header))
    else if kind == SPEEX || kind == CELT_ALPHA || kind == CELT_BETA then [LowByte(header)]
    else []
  }

  class Packet {
    const buffer: array<byte>
    var length: int
    var headerLength: int

    constructor (buffer: array<byte>)
      ensures this.buffer == buffer && length == 0 && headerLength == 0
    {
      this.buffer := buffer;
      length := 0;
      headerLength := 0;
    }

    method SetHeader(kind: byte, target: byte, sequence: bv32) returns (status: int)
      requires length <= 0 ==> |Header(kind, target, sequence)| <= buffer.Length
      modifies this, buffer
      ensures status == if old(length) > 0 then -2 else 1
      ensures status == 1 ==> length == headerLength == |Header(kind, target, sequence)|
      ensures status == 1 ==> buffer[..] == Splice(old(buffer[..]), 0, Header(kind, target, sequence))
      ensures status == 1 ==> buffer[0] >> 5 == kind & 0x7 && buffer[0] & 0x1F == target & 0x1F
      ensures status != 1 ==> unchanged(this) && buffer[..] == old(buffer[..])
    {
      hide EncodePlain;
      hide HeaderByte;
      hide Widen32;
      if length > 0 {
        return -2;
      }
      ghost var was := buffer[..];
      Store(buffer, 0, [HeaderByte(kind, target)]);
      HeaderBits(kind, target);
      var offset := SetVarInt(buffer, 1, Widen32(sequence));
      SpliceTwice(was, 0, [HeaderByte(kind, target)], EncodePlain(Widen32(sequence)));
      headerLength := 1 + offset;
      length := headerLength;
      return 1;
    }

    /** Stores the frame header of the codec after the packet header. */
    method PutFrameHeader(kind: byte, header: bv16) returns (offset: nat)
      requires 0 <= headerLength && headerLength + |FrameHeader(kind, header)| <= buffer.Length
      modifies buffer
      ensures offset == |FrameHeader(kind, header)|
      ensures buffer[..] == Splice(old(buffer[..]), headerLength, FrameHeader(kind, header))
    {
      hide EncodePlain;
      hide LowByte;
      hide Widen16;
      offset := 0;
      if kind == OPUS {
        offset := SetVarInt(buffer, headerLength, Widen16(header));
      } else if kind == SPEEX || kind == CELT_ALPHA || kind == CELT_BETA {
        offset := 1;
        Store(buffer, headerLength, [LowByte(header)]);
      }
    }

    method SetFrame(kind: byte, header: bv16, payload: array?<byte>, n: nat) returns (status: int)
      requires payload != buffer
      requires payload != null && 0 < n < 0x2000 && 0 < headerLength ==>
                 n <= payload.Length && headerLength + |FrameHeader(kind, header)| + n <= buffer.Length
      modifies this, buffer
      ensures status == if payload == null || n == 0 || n >= 0x2000 then -1
                        else if old(headerLength) <= 0 then -2
                        else if FrameHeader(kind, header) == [] then -3
                        else 1
      ensures headerLength == old(headerLength)
      ensures status == 1 ==> length == headerLength + |FrameHeader(kind, header)| + n
      ensures status == 1 ==> buffer[..] == Splice(old(buffer[..]), headerLength, FrameHeader(kind, header) + payload[..n])
      ensures status != 1 ==> length == old(length) && buffer[..] == old(buffer[..])
    {
      hide FrameHeader;
      hide Splice;
      if payload == null || n <= 0 || n >= 0x2000 {
        return -1;
      }
      if headerLength <= 0 {
        return -2;
      }
      ghost var was, data := buffer[..], payload[..n];
      var offset := PutFrameHeader(kind, header);
      if offset <= 0 {
        SpliceNothing(was, headerLength);
        return -3;
      }
      SpliceTwice(was, headerLength, FrameHeader(kind, header), data);
      assert payload[..n] == data;
      Store(buffer, headerLength + offset, payload[..n]);
      length := headerLength + n + offset;
      return 1;
    }
  }

  // ---- Taking apart ----

  /** What is read of a frame, and where in the string its payload starts. */
  datatype Frame = Frame(sequence: word, speaking: bool, length: nat, start: nat)

  predicate CanParse(s: seq<byte>, kind: byte) {
    CanGet(s) &&
    var rest := s[Get(s).1..];
    if kind == OPUS then CanGet(rest)
    else kind == SPEEX || kind == CELT_ALPHA || kind == CELT_BETA ==> |rest| > 0
  }

  function Parse(s: seq<byte>, kind: byte): Frame
    requires CanParse(s, kind)
  {
    var (sequence, n) := Get(s);
    if kind == OPUS then
      var (v, m) := Get(s[n..]);
      var header := Low16(v);
      Frame(sequence, SpeakingBit(header), Count(LengthBits(header)), n + m)
    else if kind == SPEEX || kind == CELT_ALPHA || kind == CELT_BETA then
      Frame(sequence, s[n] & 0x80 == 0, (s[n] & 0x7F) as int, n + 1)
    else Frame(sequence, false, 0, n)
  }

  method ParseFrame(buffer: array<byte>, at: nat, kind: byte) returns (f: Frame)
    requires at <= buffer.Length && CanParse(buffer[at..], kind)
    ensures f == Parse(buffer[at..], kind)
  {
    hide Get;
    hide CanGet;
    hide Low16;
    hide SpeakingBit;
    hide LengthBits;
    hide Count;
    var sequence, read := GetVarInt(buffer, at);
    var speaking := false;
    var length: nat := 0;
    assert buffer[at..][read..] == buffer[at + read..];
    if kind == SPEEX || kind == CELT_ALPHA || kind == CELT_BETA {
      var header := buffer[at + read];
      read := read + 1;
      length := (header & 0x7F) as int;
      speaking := header & 0x80 == 0;
    } else if kind == OPUS {
      var value, n := GetVarInt(buffer, at + read);
      var header := Low16(value);
      read := read + n;
      length := Count(LengthBits(header));
      speaking := SpeakingBit(header);
    }
    return Frame(sequence, speaking, length, read);
  }

  // ---- Round trip ----

  /**
   * The Opus frame header: the payload length, and bit 13 on the last frame. The encoder's
   * result may be an error below zero; then these are its low sixteen bits.
   */
  function OpusHeader(n: int, end: bool): bv16 {
    if end then SetEnd(Bits(n % 0x1_0000)) else Bits(n % 0x1_0000)
  }

  function OpusPacket(target: byte, sequence: bv32, end: bool, payload: seq<byte>): seq<byte>
    requires |payload| < 0x2000
  {
    Header(OPUS, target, sequence) + FrameHeader(OPUS, OpusHeader(|payload|, end)) + payload
  }

  lemma HeaderRecovered(n: nat, end: bool)
    requires n < 0x2000
    ensures var h := Low16(Widen16(OpusHeader(n, end)));
            SpeakingBit(h) == !end && Count(LengthBits(h)) == n
  {
    hide Bits;
    hide Count;
    hide SetEnd;
    hide LengthBits;
    hide SpeakingBit;
    hide Low16;
    hide Widen16;
    BitsAreLow(n);
    EndKeepsLength(Bits(n));
    EndClearsSpeaking(Bits(n));
    CountOfBits(n);
    Low16OfWiden(OpusHeader(n, end));
  }

  lemma OpusPacketLength(target: byte, sequence: bv32, end: bool, payload: seq<byte>)
    requires |payload| < 0x2000
    ensures |OpusPacket(target, sequence, end, payload)| <= |payload| + 8
  {
    hide Bits;
    hide SetEnd;
    hide Widen16;
    hide Widen32;
    hide ByteAt;
    hide Tagged;
    Widen32Bound(sequence);
    BitsAreLow(|payload|);
    FrameHeaderBound(Bits(|payload|));
  }

  /** Two integers and what follows them read as the frame that the second one describes. */
  lemma ParseOfPlain(a: word, b: word, rest: seq<byte>)
    ensures var s := EncodePlain(a) + (EncodePlain(b) + rest);
            && CanParse(s, OPUS)
            && Parse(s, OPUS) == Frame(a, SpeakingBit(Low16(b)), Count(LengthBits(Low16(b))),
                                       |EncodePlain(a)| + |EncodePlain(b)|)
  {
    hide EncodePlain;
    hide Get;
    hide CanGet;
    hide Low16;
    hide SpeakingBit;
    hide LengthBits;
    hide Count;
    var tail := EncodePlain(b) + rest;
    GetOfPlain(a, tail);
    assert (EncodePlain(a) + tail)[|EncodePlain(a)|..] == tail;
    GetOfPlain(b, rest);
  }

  lemma AfterHeaderByte(b: byte, first: seq<byte>, second: seq<byte>, payload: seq<byte>, rest: seq<byte>)
    ensures ([b] + first + second + payload + rest)[1..] == first + (second + (payload + rest))
    ensures (first + (second + (payload + rest)))[|first| + |second|..][..|payload|] == payload
  {
  }

  /**
   * Taking apart what was built, whatever bytes come after it, gives back the sequence
   * number, the length, the flag and the payload.
   */
  lemma FramingRoundTrip(target: byte, sequence: bv32, end: bool, payload: seq<byte>, rest: seq<byte>)
    requires 0 < |payload| < 0x2000
    ensures var s := (OpusPacket(target, sequence, end, payload) + rest)[1..];
            && CanParse(s, OPUS)
            && var f := Parse(s, OPUS);
            && f.sequence == Widen32(sequence) && f.speaking == !end
            && f.length == |payload|
            && 1 + f.start + f.length == |OpusPacket(target, sequence, end, payload)|
            && s[f.start..f.start + f.length] == payload
  {
    hide EncodePlain;
    hide Parse;
    hide CanParse;
    hide OpusHeader;
    hide Low16;
    hide Widen16;
    hide Widen32;
    hide SpeakingBit;
    hide LengthBits;
    hide Count;
    hide HeaderByte;
    var value := Widen16(OpusHeader(|payload|, end));
    ParseOfPlain(Widen32(sequence), value, payload + rest);
    HeaderRecovered(|payload|, end);
    var first, second := EncodePlain(Widen32(sequence)), EncodePlain(value);
    AfterHeaderByte(HeaderByte(OPUS, target), first, second, payload, rest);
  }

  /** Header and frame stored one after the other make the whole packet. */
  lemma PartsMakePacket(was: seq<byte>, target: byte, sequence: bv32, end: bool, payload: seq<byte>)
    requires |payload| < 0x2000 && |OpusPacket(target, sequence, end, payload)| <= |was|
    ensures var first := Header(OPUS, target, sequence);
            var second := FrameHeader(OPUS, OpusHeader(|payload|, end));
            Splice(Splice(was, 0, first), |first|, second + payload)
            == Splice(was, 0, OpusPacket(target, sequence, end, payload))
  {
    hide Header;
    hide FrameHeader;
    hide OpusHeader;
    hide Splice;
    var first, second := Header(OPUS, target, sequence), FrameHeader(OPUS, OpusHeader(|payload|, end));
    SpliceTwice(was, 0, first, second + payload);
    assert first + (second + payload) == OpusPacket(target, sequence, end, payload);
  }

  /** A length that the encoder can have meant, and that fits the frame header. */
  predicate GoodLength(n: int) {
    0 < n < 0x2000
  }

  /** The encoder's result as the unsigned size it is passed as. */
  function AsSize(n: int): nat {
    n % 0x1_0000_0000_0000_0000
  }

  /** What the sender builds: with a bad length the header alone is left standing. */
  function Built(target: byte, sequence: bv32, end: bool, encoded: seq<byte>, n: int): seq<byte>
    requires GoodLength(n) ==> n <= |encoded|
  {
    if GoodLength(n) then OpusPacket(target, sequence, end, encoded[..n]) else Header(OPUS, target, sequence)
  }

  lemma BadSize(n: int)
    requires -0x8000_0000 <= n < 0x8000_0000
    ensures GoodLength(n) ==> AsSize(n) == n
    ensures !GoodLength(n) ==> AsSize(n) == 0 || AsSize(n) >= 0x2000
  {
  }

  lemma HeaderLength(target: byte, sequence: bv32)
    ensures 2 <= |Header(OPUS, target, sequence)| <= 6
  {
    hide ByteAt;
    hide Tagged;
    hide Widen32;
    Widen32Bound(sequence);
  }

  /** Whatever is built is announced as Opus, for the target. */
  lemma BuiltStarts(target: byte, sequence: bv32, end: bool, encoded: seq<byte>, n: int)
    requires GoodLength(n) ==> n <= |encoded|
    ensures var p := Built(target, sequence, end, encoded, n);
            |p| > 0 && p[0] >> 5 == 4 && p[0] & 0x1F == target & 0x1F
  {
    hide HeaderByte;
    hide EncodePlain;
    hide OpusHeader;
    hide FrameHeader;
    hide Widen32;
    HeaderBits(OPUS, target);
    assert OPUS & 0x7 == 4;
  }

  lemma SpliceStarts(s: seq<byte>, t: seq<byte>)
    requires 0 < |t| <= |s|
    ensures Splice(s, 0, t)[0] == t[0]
  {
  }

  /** The header is stored in any case; the frame after it where the encoder gave a good length. */
  method BuildOpus(buffer: array<byte>, encoded: array<byte>, n: int, end: bool, target: byte, sequence: bv32)
      returns (length: nat)
    requires encoded != buffer && -0x8000_0000 <= n < 0x8000_0000 && 16 <= buffer.Length
    requires GoodLength(n) ==> n <= encoded.Length && n + 8 <= buffer.Length
    modifies buffer
    ensures length == |Built(target, sequence, end, encoded[..], n)| <= buffer.Length
    ensures encoded[..] == old(encoded[..])
    ensures buffer[..] == Splice(old(buffer[..]), 0, Built(target, sequence, end, encoded[..], n))
    ensures buffer[0] >> 5 == 4 && buffer[0] & 0x1F == target & 0x1F
  {
    hide EncodePlain;
    hide HeaderByte;
    hide OpusHeader;
    hide Widen16;
    hide Widen32;
    hide Splice;
    hide AsSize;
    BadSize(n);
    HeaderLength(target, sequence);
    BuiltStarts(target, sequence, end, encoded[..], n);
    ghost var data, was := encoded[..], buffer[..];
    if GoodLength(n) {
      assert data[..n] == encoded[..n];
      OpusPacketLength(target, sequence, end, data[..n]);
      PartsMakePacket(buffer[..], target, sequence, end, data[..n]);
    }
    var p := new Packet(buffer);
    var status := p.SetHeader(OPUS, target, sequence);
    status := p.SetFrame(OPUS, OpusHeader(n, end), encoded, AsSize(n));
    length := p.length;
    hide *;
    SpliceStarts(was, Built(target, sequence, end, data, n));
    assert buffer[0] == buffer[..][0];
  }

  /** In a buffer of sixteen bytes or more, whatever stands after a sequence number can be read. */
  lemma HeaderIsReadable(sequence: bv32, rest: seq<byte>)
    requires |rest| >= 9
    ensures var s := EncodePlain(Widen32(sequence)) + rest;
            CanParse(s, OPUS) && Parse(s, OPUS).sequence == Widen32(sequence)
  {
    hide EncodePlain;
    hide FormOf;
    hide Assemble;
    hide Complement;
    hide Widen32;
    hide Low16;
    hide SpeakingBit;
    hide LengthBits;
    hide Count;
    GetOfPlain(Widen32(sequence), rest);
    var s := EncodePlain(Widen32(sequence)) + rest;
    assert s[|EncodePlain(Widen32(sequence))|..] == rest;
  }

  lemma EndOfWhole(w: seq<byte>, rest: seq<byte>, k: nat)
    requires 1 <= k <= |w|
    ensures (w + rest)[1..][k - 1..|w| - 1] == w[k..]
  {
  }

  /** What is read back from the buffer, whatever stood in it after the packet. */
  lemma BuiltParses(target: byte, sequence: bv32, end: bool, data: seq<byte>, n: int, rest: seq<byte>)
    requires GoodLength(n) ==> n <= |data|
    requires |Built(target, sequence, end, data, n)| + |rest| >= 16
    ensures var whole := Built(target, sequence, end, data, n);
            && CanParse((whole + rest)[1..], OPUS)
            && var f := Parse((whole + rest)[1..], OPUS);
            && f.sequence == Widen32(sequence)
            && (GoodLength(n) ==> f.speaking == !end && f.length == n && 1 + f.start + n == |whole|)
            && (GoodLength(n) ==> whole[1 + f.start..] == data[..n])
  {
    hide OpusPacket;
    hide Parse;
    hide CanParse;
    hide Widen32;
    hide EncodePlain;
    hide HeaderByte;
    var whole := Built(target, sequence, end, data, n);
    HeaderLength(target, sequence);
    if GoodLength(n) {
      FramingRoundTrip(target, sequence, end, data[..n], rest);
      var f := Parse((whole + rest)[1..], OPUS);
      EndOfWhole(whole, rest, 1 + f.start);
    } else {
      assert (whole + rest)[1..] == EncodePlain(Widen32(sequence)) + rest;
      HeaderIsReadable(sequence, rest);
    }
  }

  /**
   * Builds the packet of what the encoder returned and, where it is small enough to send,
   * hands the bytes out and parses the buffer again for the sender's own hooks. After an
   * encoder error that is a bare header, and the hooks read what the buffer held before.
   */
  method SendLegacyAudio(buffer: array<byte>, encoded: array<byte>, n: int, end: bool, target: byte,
                         sequence: bv32) returns (sent: bool, packet: seq<byte>, heard: Frame)
    requires encoded != buffer && -0x8000_0000 <= n < 0x8000_0000 && 16 <= buffer.Length
    requires GoodLength(n) ==> n <= encoded.Length && n + 8 <= buffer.Length
    modifies buffer
    ensures packet == Built(target, sequence, end, old(encoded[..]), n) && |packet| <= buffer.Length
    ensures buffer[..] == packet + old(buffer[..])[|packet|..]
    ensures |packet| > 0 && packet[0] >> 5 == 4 && packet[0] & 0x1F == target & 0x1F
    ensures sent == (|packet| <= 1024)
    ensures sent ==> CanParse(buffer[..][1..], OPUS) && heard == Parse(buffer[..][1..], OPUS)
    ensures sent ==> heard.sequence == Widen32(sequence)
    ensures sent && GoodLength(n) ==> heard.speaking == !end && heard.length == n && 1 + heard.start + n == |packet|
    ensures sent && GoodLength(n) ==> packet[1 + heard.start..] == old(encoded[..])[..n]
  {
    ghost var data, was := encoded[..], buffer[..];
    var length := BuildOpus(buffer, encoded, n, end, target, sequence);
    packet := buffer[..length];
    ghost var rest := was[length..];
    assert packet == Built(target, sequence, end, data, n) && buffer[..] == packet + rest;
    BuiltParses(target, sequence, end, data, n, rest);
    BuiltStarts(target, sequence, end, data, n);
    hide *;
    assert buffer[1..] == buffer[..][1..] == (packet + rest)[1..];
    heard := Frame(0, false, 0, 0);
    sent := length <= UDP_BUFFER_MAX;
    if sent {
      heard := ParseFrame(buffer, 1, OPUS);
    }
  }
}
