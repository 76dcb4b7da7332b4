/**
 * OCB2, mechanism 1 in clause 6 of ISO/IEC 19772:2009, over an abstract 128-bit block
 * cipher, with the counter-measure of section 9 of eprint 2019/311.
 *
 * Each ciphertext block, the checksum and the tag are given in closed form; the round trips
 * are proved of these.
 */
module Ocb2 {
  import opened Bytes
  import opened Gf128

  /** A block cipher under a fixed key. */
  datatype BlockCipher = BlockCipher(E: Block -> Block, D: Block -> Block) {
    ghost predicate Valid() {
      forall b: Block :: D(E(b)) == b && E(D(b)) == b
    }
  }

  datatype Sealed = Sealed(text: seq<byte>, tag: Block, ok: bool)

  datatype Opened = Opened(text: seq<byte>, tag: Block, ok: bool)

  // ---- The reference definition ----

  /** Number of blocks before the last one, which may be partial, full or empty. */
  function FullBlocks(len: nat): (m: nat)
    ensures 16 * m <= len && len - 16 * m <= 16
    ensures m > 0 ==> len > 16 * m
  {
    if len == 0 then 0 else (len - 1) / 16
  }

  /** The mask of the i-th block: x^i times the encrypted nonce. */
  function Mask(L: Block, i: nat): Block {
    if i == 0 then L else Double(Mask(L, i - 1))
  }

  function BlockAt(s: seq<byte>, i: nat): Block
    requires 16 * i + 16 <= |s|
  {
    s[16 * i..16 * i + 16]
  }

  function SealBlock(c: BlockCipher, mask: Block, b: Block): Block {
    Xor(mask, c.E(Xor(mask, b)))
  }

  function OpenBlock(c: BlockCipher, mask: Block, b: Block): Block {
    Xor(mask, c.D(Xor(mask, b)))
  }

  function SealBlocks(c: BlockCipher, L: Block, s: seq<byte>, n: nat): (r: seq<byte>)
    requires 16 * n <= |s|
    ensures |r| == 16 * n
  {
    if n == 0 then [] else SealBlocks(c, L, s, n - 1) + SealBlock(c, Mask(L, n), BlockAt(s, n - 1))
  }

  function OpenBlocks(c: BlockCipher, L: Block, s: seq<byte>, n: nat): (r: seq<byte>)
    requires 16 * n <= |s|
    ensures |r| == 16 * n
  {
    if n == 0 then [] else OpenBlocks(c, L, s, n - 1) + OpenBlock(c, Mask(L, n), BlockAt(s, n - 1))
  }

  /** The XOR of the first n plaintext blocks. */
  function Checksum(s: seq<byte>, n: nat): Block
    requires 16 * n <= |s|
  {
    if n == 0 then ZERO_BLOCK else Xor(Checksum(s, n - 1), BlockAt(s, n - 1))
  }

  /** The bit length of the last block, as a big-endian block. */
  function LengthBlock(last: nat): Block
    requires last <= 16
  {
    Zeros(15) + [(last * 8) as byte]
  }

  /** The last block completed with the tail of the pad. */
  function Padded(s: seq<byte>, pad: Block): (r: Block)
    requires |s| <= 16
  {
    s + pad[|s|..]
  }

  /** The second-to-last block starts with fifteen zero bytes. */
  predicate Suspicious(s: seq<byte>) {
    var m := FullBlocks(|s|);
    m > 0 && BlockAt(s, m - 1)[..15] == Zeros(15)
  }

  function FlipBit(b: byte): byte {
    b ^ 1
  }

  /** The text that is really sealed: a suspicious one has one bit of that block flipped. */
  function Harden(s: seq<byte>): (r: seq<byte>)
    ensures |r| == |s|
  {
    if Suspicious(s) then var k := 16 * (FullBlocks(|s|) - 1); s[k := FlipBit(s[k])] else s
  }

  /** The last block as sent: its bytes under the pad. */
  function SealLast(last: seq<byte>, pad: Block): (r: seq<byte>)
    requires |last| <= 16
    ensures |r| == |last|
  {
    Xor(pad, Padded(last, pad))[..|last|]
  }

  /** The padded last block as the receiver recomputes it. */
  function OpenLast(last: seq<byte>, pad: Block): Block
    requires |last| <= 16
  {
    Xor(last + Zeros(16 - |last|), pad)
  }

  function LastOf(s: seq<byte>): (r: seq<byte>)
    ensures |r| == |s| - 16 * FullBlocks(|s|)
  {
    s[16 * FullBlocks(|s|)..]
  }

  function LastMask(c: BlockCipher, nonce: Block, len: nat): Block {
    Mask(c.E(nonce), FullBlocks(len) + 1)
  }

  function LastPad(c: BlockCipher, nonce: Block, len: nat): Block {
    c.E(Xor(LengthBlock(len - 16 * FullBlocks(len)), LastMask(c, nonce, len)))
  }

  function TagOf(c: BlockCipher, nonce: Block, s: seq<byte>, padded: Block): Block {
    c.E(Xor(Triple(LastMask(c, nonce, |s|)), Xor(Checksum(s, FullBlocks(|s|)), padded)))
  }

  function SealExact(c: BlockCipher, nonce: Block, s: seq<byte>): Sealed {
    var pad := LastPad(c, nonce, |s|);
    Sealed(SealBlocks(c, c.E(nonce), s, FullBlocks(|s|)) + SealLast(LastOf(s), pad),
           TagOf(c, nonce, s, Padded(LastOf(s), pad)), true)
  }

  function Seal(c: BlockCipher, nonce: Block, s: seq<byte>, counter: bool): Sealed {
    if counter then SealExact(c, nonce, Harden(s))
    else SealExact(c, nonce, s).(ok := !Suspicious(s))
  }

  function Open(c: BlockCipher, nonce: Block, s: seq<byte>): Opened {
    var padded := OpenLast(LastOf(s), LastPad(c, nonce, |s|));
    var text := OpenBlocks(c, c.E(nonce), s, FullBlocks(|s|)) + padded[..|LastOf(s)|];
    Opened(text, TagOf(c, nonce, text, padded), padded[..15] != LastMask(c, nonce, |s|)[..15])
  }

  /** The padded last block coincides with its mask except perhaps in the last byte. */
  predicate Collides(c: BlockCipher, nonce: Block, s: seq<byte>) {
    Padded(LastOf(s), LastPad(c, nonce, |s|))[..15] == LastMask(c, nonce, |s|)[..15]
  }

  // ---- Round trips of the reference ----

  lemma BlockRoundTrip(c: BlockCipher, mask: Block, b: Block)
    requires c.Valid()
    ensures OpenBlock(c, mask, SealBlock(c, mask, b)) == b
    ensures SealBlock(c, mask, OpenBlock(c, mask, b)) == b
  {
    hide Xor;
    XorCancels(mask, c.E(Xor(mask, b)));
    XorCancels(mask, c.D(Xor(mask, b)));
    XorCancels(mask, b);
  }

  lemma {:induction false} BlocksRoundTrip(c: BlockCipher, L: Block, s: seq<byte>, t: seq<byte>, n: nat)
    requires c.Valid()
    requires 16 * n <= |s| && 16 * n <= |t|
    requires t[..16 * n] == SealBlocks(c, L, s, n)
    ensures OpenBlocks(c, L, t, n) == s[..16 * n]
  {
    hide SealBlock;
    hide OpenBlock;
    if n > 0 {
      var head, b := SealBlocks(c, L, s, n - 1), SealBlock(c, Mask(L, n), BlockAt(s, n - 1));
      Split(t, n, head, b);
      BlocksRoundTrip(c, L, s, t, n - 1);
      BlockRoundTrip(c, Mask(L, n), BlockAt(s, n - 1));
      assert s[..16 * n] == s[..16 * (n - 1)] + BlockAt(s, n - 1);
    }
  }

  lemma {:induction false} BlocksRoundTripBack(c: BlockCipher, L: Block, s: seq<byte>, t: seq<byte>, n: nat)
    requires c.Valid()
    requires 16 * n <= |s| && 16 * n <= |t|
    requires t[..16 * n] == OpenBlocks(c, L, s, n)
    ensures SealBlocks(c, L, t, n) == s[..16 * n]
  {
    hide SealBlock;
    hide OpenBlock;
    if n > 0 {
      var head, b := OpenBlocks(c, L, s, n - 1), OpenBlock(c, Mask(L, n), BlockAt(s, n - 1));
      Split(t, n, head, b);
      BlocksRoundTripBack(c, L, s, t, n - 1);
      BlockRoundTrip(c, Mask(L, n), BlockAt(s, n - 1));
      assert s[..16 * n] == s[..16 * (n - 1)] + BlockAt(s, n - 1);
    }
  }

  lemma Split(t: seq<byte>, n: nat, head: seq<byte>, b: Block)
    requires n > 0 && 16 * n <= |t| && |head| == 16 * (n - 1) && t[..16 * n] == head + b
    ensures t[..16 * (n - 1)] == head && BlockAt(t, n - 1) == b
  {
    assert t[..16 * (n - 1)] == t[..16 * n][..16 * (n - 1)];
    assert BlockAt(t, n - 1) == t[..16 * n][16 * (n - 1)..];
  }

  /** What the receiver recomputes from the last block is what the sender padded. */
  lemma LastRoundTrip(last: seq<byte>, pad: Block)
    requires |last| <= 16
    ensures OpenLast(SealLast(last, pad), pad) == Padded(last, pad)
  {
    forall i | 0 <= i < 16
      ensures OpenLast(SealLast(last, pad), pad)[i] == Padded(last, pad)[i]
    {
      if i < |last| {
        XorByteCommutes(XorByte(pad[i], last[i]), pad[i]);
        XorByteCancels(pad[i], last[i]);
      } else {
        XorByteUnit(pad[i]);
      }
    }
  }

  lemma LastRoundTripBack(last: seq<byte>, pad: Block)
    requires |last| <= 16
    ensures var padded := OpenLast(last, pad);
            Padded(padded[..|last|], pad) == padded && SealLast(padded[..|last|], pad) == last
  {
    var padded := OpenLast(last, pad);
    forall i | 0 <= i < 16
      ensures i < |last| ==> XorByte(pad[i], padded[i]) == last[i]
      ensures i >= |last| ==> padded[i] == pad[i]
    {
      if i < |last| {
        XorByteCommutes(last[i], pad[i]);
        XorByteCancels(pad[i], last[i]);
      } else {
        XorByteUnit(pad[i]);
      }
    }
    assert Padded(padded[..|last|], pad) == padded;
  }

  /**
   * Opening what was sealed gives back the text and the tag; it reports success unless the
   * padded last block collides with its mask.
   */
  lemma OpenSealed(c: BlockCipher, nonce: Block, s: seq<byte>)
    requires c.Valid()
    ensures var o := Open(c, nonce, SealExact(c, nonce, s).text);
            o.text == s && o.tag == SealExact(c, nonce, s).tag && (o.ok <==> !Collides(c, nonce, s))
  {
    hide Xor;
    hide SealBlock;
    hide OpenBlock;
    var m, pad := FullBlocks(|s|), LastPad(c, nonce, |s|);
    var t := SealExact(c, nonce, s).text;
    assert t[..16 * m] == SealBlocks(c, c.E(nonce), s, m);
    assert LastOf(t) == SealLast(LastOf(s), pad);
    BlocksRoundTrip(c, c.E(nonce), s, t, m);
    LastRoundTrip(LastOf(s), pad);
    assert Padded(LastOf(s), pad)[..|LastOf(s)|] == LastOf(s);
    assert s == s[..16 * m] + LastOf(s);
  }

  /**
   * With the counter-measure on, the receiver gets the sender's text with exactly the
   * announced bit flipped.
   */
  lemma OcbRoundTrip(c: BlockCipher, nonce: Block, s: seq<byte>)
    requires c.Valid()
    ensures var z := Seal(c, nonce, s, true);
            var o := Open(c, nonce, z.text);
            && |z.text| == |s| && z.ok
            && o.text == Harden(s) && o.tag == z.tag
            && (o.ok <==> !Collides(c, nonce, Harden(s)))
            && (!Suspicious(s) ==> o.text == s)
            && (Suspicious(s) ==> var k := 16 * (FullBlocks(|s|) - 1); s[k] == 0 && o.text == s[k := 1])
  {
    OpenSealed(c, nonce, Harden(s));
    HardenSetsOneBit(s);
  }

  lemma HardenSetsOneBit(s: seq<byte>)
    ensures Suspicious(s) ==> var k := 16 * (FullBlocks(|s|) - 1); s[k] == 0 && Harden(s) == s[k := 1]
  {
    if Suspicious(s) {
      var k := 16 * (FullBlocks(|s|) - 1);
      assert s[k] == BlockAt(s, FullBlocks(|s|) - 1)[..15][0] == Zeros(15)[0] == ZeroByte();
      assert FlipBit(ZeroByte()) == 1;
    }
  }

  /** A hardened text is never suspicious, so hardening happens at most once. */
  lemma HardenedIsSafe(s: seq<byte>)
    ensures !Suspicious(Harden(s)) && Harden(Harden(s)) == Harden(s)
  {
    HardenSetsOneBit(s);
    if Suspicious(s) {
      assert BlockAt(Harden(s), FullBlocks(|s|) - 1)[..15][0] == 1;
      assert Zeros(15)[0] == ZeroByte();
    }
  }

  /**
   * For each nonce, sealing inverts opening: every text is the sealing of what it opens to,
   * with the same tag. So no two texts of one nonce open to the same thing.
   */
  lemma SealOpened(c: BlockCipher, nonce: Block, t: seq<byte>)
    requires c.Valid()
    ensures var o := Open(c, nonce, t);
            SealExact(c, nonce, o.text) == Sealed(t, o.tag, true)
  {
    hide Xor;
    hide SealBlock;
    hide OpenBlock;
    var m, pad := FullBlocks(|t|), LastPad(c, nonce, |t|);
    var s := Open(c, nonce, t).text;
    assert s[..16 * m] == OpenBlocks(c, c.E(nonce), t, m);
    assert LastOf(s) == OpenLast(LastOf(t), pad)[..|LastOf(t)|];
    BlocksRoundTripBack(c, c.E(nonce), t, s, m);
    LastRoundTripBack(LastOf(t), pad);
    assert t == t[..16 * m] + LastOf(t);
  }
}
