/**
 * Transmitting a script's own frames, with any codec, and what of a received header byte is
 * used: when the receiver's side reads back what the sender meant.
 */
module VoiceTransmit {
  import opened Bytes
  import opened IvBytes
  import opened VarInt
  import opened VarIntNumber
  import Voice = VoicePacket
  import VoiceNumber

  // ---- The header byte ----

  function ReceivedKind(header: byte): byte {
    (header >> 5) & 0x7
  }

  /** The byte, promoted to 32 bits, shifted by 0x1F. */
  function ReceivedTarget(header: byte): byte {
    ((header as bv32) >> 31) as byte
  }

  /** The codec always comes through; the target only when its low five bits are zero. */
  lemma TargetComesThroughIff(kind: byte, target: byte)
    ensures var h := Voice.HeaderByte(kind, target);
            ReceivedKind(h) == kind & 0x7 && (ReceivedTarget(h) == target & 0x1F <==> target & 0x1F == 0)
  {
  }

  // ---- The frame header ----

  predicate OldCodec(kind: byte) {
    kind == Voice.CELT_ALPHA || kind == Voice.SPEEX || kind == Voice.CELT_BETA
  }

  function SetLowest(h: bv16): bv16 {
    h | 1
  }

  /** The header that a script's frame gets: length and end flag, or length and a lowest bit. */
  function TransmitHeader(kind: byte, n: nat, speaking: bool): bv16
    requires n < 0x1_0000
  {
    if kind == Voice.OPUS && !speaking then Voice.SetEnd(Voice.Bits(n))
    else if OldCodec(kind) && speaking then SetLowest(Voice.Bits(n))
    else Voice.Bits(n)
  }

  function Lowest(b: byte): byte {
    b | 1
  }

  lemma LowestOfWord(h: bv16)
    ensures Voice.LowByte(SetLowest(h)) == Lowest(Voice.LowByte(h))
  {
  }

  lemma LowestValue(b: byte)
    ensures ByteValue(Lowest(b)) == ByteValue(b) + 1 - ByteValue(b) % 2
  {
  }

  lemma LowByteOfLength(n: nat)
    requires n < 0x2000
    ensures ByteValue(Voice.LowByte(Voice.Bits(n))) == n % 0x100
  {
    hide ByteValue;
    hide Number;
    hide BigEndian;
    hide EncodePlain;
    hide Voice.Bits;
    hide Voice.LowByte;
    hide Voice.Widen16;
    VoiceNumber.NumberOfLength(n);
    VoiceNumber.FrameHeaderIs(2, Voice.Bits(n));
    OldHeaderIs(2, Voice.Bits(n));
  }

  lemma OldHeaderIs(kind: byte, h: bv16)
    requires OldCodec(kind)
    ensures Voice.FrameHeader(kind, h) == [Voice.LowByte(h)] && kind != Voice.OPUS
  {
    hide Voice.LowByte;
  }

  /** The one byte that goes out for an older codec. */
  lemma OldHeaderValue(kind: byte, n: nat, speaking: bool)
    requires n < 0x2000 && OldCodec(kind)
    ensures ByteValue(Voice.LowByte(TransmitHeader(kind, n, speaking))) ==
            if speaking && n % 2 == 0 then n % 0x100 + 1 else n % 0x100
  {
    hide ByteValue;
    hide Lowest;
    hide SetLowest;
    hide Voice.LowByte;
    hide Voice.Bits;
    LowByteOfLength(n);
    LowestOfWord(Voice.Bits(n));
    LowestValue(Voice.LowByte(Voice.Bits(n)));
    Parity(n);
  }

  lemma Parity(n: nat)
    ensures n % 0x100 % 2 == n % 2
  {
  }

  /** Sequence number, frame header and payload, as they stand behind the header byte. */
  function Frame(kind: byte, sequence: bv32, n: nat, speaking: bool, payload: seq<byte>): seq<byte>
    requires n < 0x1_0000
  {
    EncodePlain(Voice.Widen32(sequence)) + Voice.FrameHeader(kind, TransmitHeader(kind, n, speaking)) + payload
  }

  lemma ParseOfOld(kind: byte, a: word, b: byte, rest: seq<byte>)
    requires OldCodec(kind)
    ensures var s := EncodePlain(a) + ([b] + rest);
            && Voice.CanParse(s, kind)
            && var f := Voice.Parse(s, kind);
            && f.sequence == a && f.start == |EncodePlain(a)| + 1
            && f.length == ByteValue(b) % 0x80 && f.speaking == (ByteValue(b) < 0x80)
  {
    hide EncodePlain;
    hide ByteValue;
    hide Voice.Get;
    hide Voice.CanGet;
    var s := EncodePlain(a) + ([b] + rest);
    Voice.GetOfPlain(a, [b] + rest);
    assert s[|EncodePlain(a)|..] == [b] + rest && s[|EncodePlain(a)|] == b;
    VoiceNumber.TopByValue(b);
  }

  lemma Regroup(a: seq<byte>, b: byte, p: seq<byte>, rest: seq<byte>)
    ensures a + [b] + p + rest == a + ([b] + (p + rest))
  {
  }

  /** The payload is found where the parsed frame says. */
  predicate FoundAt(s: seq<byte>, f: Voice.Frame, payload: seq<byte>) {
    f.start + |payload| <= |s| && s[f.start..f.start + |payload|] == payload
  }

  /**
   * Of a frame that a script transmits with one of the older codecs, the receiver's side reads
   * length and speaking as they were meant if and only if the length is odd and below 128 and
   * the speech goes on.
   */
  lemma OldFrameReadsBackIff(kind: byte, sequence: bv32, speaking: bool, payload: seq<byte>, rest: seq<byte>)
    requires OldCodec(kind) && 0 < |payload| < 0x2000
    ensures var s, n := Frame(kind, sequence, |payload|, speaking, payload) + rest, |payload|;
            && Voice.CanParse(s, kind)
            && var f := Voice.Parse(s, kind);
            && f.sequence == Voice.Widen32(sequence)
            && FoundAt(s, f, payload)
            && (f.length == n && f.speaking == speaking <==> n < 128 && n % 2 == 1 && speaking)
  {
    hide EncodePlain;
    hide ByteValue;
    hide TransmitHeader;
    hide OldCodec;
    hide Voice.Parse;
    hide Voice.CanParse;
    hide Voice.LowByte;
    hide Voice.Widen32;
    hide Voice.FrameHeader;
    var n, h, a := |payload|, TransmitHeader(kind, |payload|, speaking), Voice.Widen32(sequence);
    OldHeaderIs(kind, h);
    OldHeaderValue(kind, n, speaking);
    ParseOfOld(kind, a, Voice.LowByte(h), payload + rest);
    Regroup(EncodePlain(a), Voice.LowByte(h), payload, rest);
    var s := Frame(kind, sequence, n, speaking, payload) + rest;
    assert s[|EncodePlain(a)| + 1..|EncodePlain(a)| + 1 + n] == payload;
  }

  /** With Opus length and flag always come back as they were meant. */
  lemma OpusFrameReadsBack(sequence: bv32, speaking: bool, payload: seq<byte>, rest: seq<byte>)
    requires 0 < |payload| < 0x2000
    ensures var s := Frame(Voice.OPUS, sequence, |payload|, speaking, payload) + rest;
            && Voice.CanParse(s, Voice.OPUS)
            && var f := Voice.Parse(s, Voice.OPUS);
            && f.sequence == Voice.Widen32(sequence) && f.length == |payload| && f.speaking == speaking
            && FoundAt(s, f, payload)
  {
    hide EncodePlain;
    hide Voice.Parse;
    hide Voice.CanParse;
    hide Voice.OpusHeader;
    hide Voice.Widen32;
    hide Voice.HeaderByte;
    hide Voice.SetEnd;
    hide Voice.Bits;
    Voice.FramingRoundTrip(0, sequence, !speaking, payload, rest);
    VoiceNumber.HeaderIs(|payload|, !speaking);
    var whole := Voice.OpusPacket(0, sequence, !speaking, payload);
    assert whole[1..] == Frame(Voice.OPUS, sequence, |payload|, speaking, payload);
    assert (whole + rest)[1..] == whole[1..] + rest;
  }
}
