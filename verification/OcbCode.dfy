/**
 * The two passes of the mode over caller-supplied buffers: a running mask, a running
 * checksum, and output written block by block into the destination array.
 */
module OcbCode {
  import opened Bytes
  import opened Gf128
  import opened Ocb2

  function OrByte(x: byte, y: byte): byte {
    x | y
  }

  lemma OrIsZero(x: byte, y: byte)
    ensures OrByte(x, y) == 0 <==> x == 0 && y == 0
  {
  }

  /** ORs the first fifteen bytes of a block together, as the attack check does. */
  method FirstBytesAreZero(plain: array<byte>, at: nat) returns (zero: bool)
    requires at + 16 <= plain.Length
    ensures zero <==> plain[at..at + 16][..15] == Zeros(15)
  {
    ghost var head := plain[at..at + 16];
    var sum: byte := 0;
    for i := 0 to 15
      invariant sum == 0 <==> forall k | 0 <= k < i :: head[k] == ZeroByte()
    {
      assert head[i] == plain[at + i];
      OrIsZero(sum, plain[at + i]);
      sum := OrByte(sum, plain[at + i]);
    }
    assert head[..15] == Zeros(15) <==> forall k | 0 <= k < 15 :: head[k] == Zeros(15)[k];
    zero := sum == 0;
  }

  /** Looks for the attack's shape before the last turn of the sealing loop. */
  method CheckAttack(plain: array<byte>, p: nat, rem: nat, counter: bool) returns (flipABit: bool, failed: bool)
    requires rem > 16 && p + rem <= plain.Length
    ensures var shape := rem <= 32 && plain[p..p + 16][..15] == Zeros(15);
            flipABit == (shape && counter) && failed == (shape && !counter)
  {
    flipABit, failed := false, false;
    if rem - BLOCK_SIZE <= BLOCK_SIZE {
      var zero := FirstBytesAreZero(plain, p);
      if zero {
        if counter {
          flipABit := true;
        } else {
          failed := true;
        }
      }
    }
  }

  function FlipFirst(b: Block): Block {
    b[0 := FlipBit(b[0])]
  }

  lemma FlipByteCommutes(d: byte, p: byte)
    ensures FlipBit(XorByte(d, p)) == XorByte(d, FlipBit(p))
  {
  }

  lemma FlipCommutes(a: Block, b: Block)
    ensures FlipFirst(Xor(a, b)) == Xor(a, FlipFirst(b))
  {
    FlipByteCommutes(a[0], b[0]);
    forall i | 0 <= i < 16
      ensures FlipFirst(Xor(a, b))[i] == Xor(a, FlipFirst(b))[i]
    {
    }
  }

  /** The text the sender really seals. */
  function Effective(s: seq<byte>, counter: bool): (r: seq<byte>)
    ensures |r| == |s|
  {
    if counter then Harden(s) else s
  }

  lemma EffectiveBlock(s: seq<byte>, counter: bool, i: nat)
    requires i < FullBlocks(|s|)
    ensures BlockAt(Effective(s, counter), i) ==
            if counter && Suspicious(s) && i == FullBlocks(|s|) - 1 then FlipFirst(BlockAt(s, i)) else BlockAt(s, i)
  {
    var k := 16 * (FullBlocks(|s|) - 1);
    if counter && Suspicious(s) && i < FullBlocks(|s|) - 1 {
      assert s[k := FlipBit(s[k])][16 * i..16 * i + 16] == s[16 * i..16 * i + 16];
    }
  }

  lemma EffectiveLast(s: seq<byte>, counter: bool)
    ensures LastOf(Effective(s, counter)) == LastOf(s)
  {
  }

  /** The part of a buffer outside the `len` bytes at `at` is as it was. */
  ghost predicate SameAround(was: seq<byte>, now: seq<byte>, at: nat, len: nat) {
    && |was| == |now| && at + len <= |was|
    && now[..at] == was[..at] && now[at + len..] == was[at + len..]
  }

  /** The state of the sealing loop after `i` blocks of the text `h`. */
  ghost predicate SealedSoFar(c: BlockCipher, L: Block, h: seq<byte>, i: nat, delta: Block, checksum: Block,
                              out: seq<byte>, eo: nat)
  {
    && 16 * i <= |h| && eo + 16 * i <= |out|
    && delta == Mask(L, i) && checksum == Checksum(h, i)
    && out[eo..eo + 16 * i] == SealBlocks(c, L, h, i)
  }

  /** The state of the opening loop after `i` blocks of the ciphertext `s`. */
  ghost predicate OpenedSoFar(c: BlockCipher, L: Block, s: seq<byte>, i: nat, delta: Block, checksum: Block,
                              out: seq<byte>, po: nat)
  {
    && 16 * i <= |s| && po + 16 * i <= |out|
    && delta == Mask(L, i) && checksum == Checksum(out[po..po + 16 * i], i)
    && out[po..po + 16 * i] == OpenBlocks(c, L, s, i)
  }

  lemma SealedOneMore(c: BlockCipher, L: Block, h: seq<byte>, i: nat, delta: Block, checksum: Block,
                      was: seq<byte>, now: seq<byte>, eo: nat)
    requires 16 * i + 16 <= |h| && eo + 16 * i + 16 <= |now|
    requires SealedSoFar(c, L, h, i, delta, checksum, was, eo)
    requires SameAround(was, now, eo + 16 * i, 16)
    requires now[eo + 16 * i..eo + 16 * i + 16] == SealBlock(c, Double(delta), BlockAt(h, i))
    ensures SealedSoFar(c, L, h, i + 1, Double(delta), Xor(checksum, BlockAt(h, i)), now, eo)
  {
    hide Double;
    hide Xor;
    hide SealBlock;
    Extended(was, now, eo, eo + 16 * i, 16);
  }

  lemma OpenedOneMore(c: BlockCipher, L: Block, s: seq<byte>, i: nat, delta: Block, checksum: Block,
                      was: seq<byte>, now: seq<byte>, po: nat, b: Block)
    requires 16 * i + 16 <= |s| && po + 16 * i + 16 <= |now|
    requires OpenedSoFar(c, L, s, i, delta, checksum, was, po)
    requires SameAround(was, now, po + 16 * i, 16)
    requires now[po + 16 * i..po + 16 * i + 16] == b == OpenBlock(c, Double(delta), BlockAt(s, i))
    ensures OpenedSoFar(c, L, s, i + 1, Double(delta), Xor(checksum, b), now, po)
  {
    hide Double;
    hide Xor;
    hide OpenBlock;
    Extended(was, now, po, po + 16 * i, 16);
    ChecksumExtends(was[po..po + 16 * i], b, i);
  }

  lemma ChecksumExtends(s: seq<byte>, b: Block, n: nat)
    requires |s| == 16 * n
    ensures Checksum(s + b, n + 1) == Xor(Checksum(s, n), b)
  {
    ChecksumOfPrefix(s, s + b, n);
    assert BlockAt(s + b, n) == b;
  }

  lemma {:induction false} ChecksumOfPrefix(s: seq<byte>, t: seq<byte>, n: nat)
    requires 16 * n <= |s| && 16 * n <= |t| && s[..16 * n] == t[..16 * n]
    ensures Checksum(s, n) == Checksum(t, n)
  {
    hide Xor;
    if n > 0 {
      assert s[..16 * (n - 1)] == s[..16 * n][..16 * (n - 1)] == t[..16 * (n - 1)];
      ChecksumOfPrefix(s, t, n - 1);
      assert BlockAt(s, n - 1) == s[..16 * n][16 * (n - 1)..] == BlockAt(t, n - 1);
    }
  }

  /** Writing `k` bytes at `mid` extends what stood between `at` and `mid`. */
  lemma Extended(was: seq<byte>, now: seq<byte>, at: nat, mid: nat, k: nat)
    requires at <= mid && SameAround(was, now, mid, k)
    ensures now[at..mid + k] == was[at..mid] + now[mid..mid + k]
  {
    assert now[at..mid] == now[..mid][at..] == was[..mid][at..] == was[at..mid];
  }

  lemma StillAround(out: seq<byte>, was: seq<byte>, now: seq<byte>, at: nat, len: nat, mid: nat, k: nat)
    requires at <= mid && mid + k <= at + len
    requires SameAround(out, was, at, len) && SameAround(was, now, mid, k)
    ensures SameAround(out, now, at, len)
  {
    assert now[..at] == now[..mid][..at] == was[..at];
    assert now[at + len..] == now[mid + k..][at + len - mid - k..] == was[at + len..];
  }

  lemma SameAsItself(out: seq<byte>, at: nat, len: nat)
    requires at + len <= |out|
    ensures SameAround(out, out, at, len)
  {
  }

  // ---- The passes ----

  /** One turn of the sealing loop, on the block at `p`. */
  method SealStep(c: BlockCipher, plain: array<byte>, p: nat, encrypted: array<byte>, e: nat,
                  mask: Block, sum: Block, flipABit: bool, ghost hb: Block)
    returns (delta: Block, checksum: Block)
    requires p + 16 <= plain.Length && e + 16 <= encrypted.Length && plain != encrypted
    requires hb == if flipABit then FlipFirst(plain[p..p + 16]) else plain[p..p + 16]
    modifies encrypted
    ensures delta == Double(mask) && checksum == Xor(sum, hb)
    ensures encrypted[e..e + 16] == SealBlock(c, delta, hb)
    ensures SameAround(old(encrypted[..]), encrypted[..], e, 16)
  {
    hide Double;
    delta := Double(mask);
    var b: Block := plain[p..p + 16];
    var tmp := Xor(delta, b);
    if flipABit {
      FlipCommutes(delta, b);
      tmp := FlipFirst(tmp);
    }
    tmp := c.E(tmp);
    CopyInto(encrypted, e, Xor(delta, tmp));
    checksum := Xor(sum, b);
    if flipABit {
      FlipCommutes(sum, b);
      checksum := FlipFirst(checksum);
    }
  }

  /** One turn of the opening loop, on the block at `e`. */
  method OpenStep(c: BlockCipher, encrypted: array<byte>, e: nat, plain: array<byte>, p: nat, mask: Block, sum: Block)
    returns (delta: Block, checksum: Block, ghost b: Block)
    requires p + 16 <= plain.Length && e + 16 <= encrypted.Length && plain != encrypted
    modifies plain
    ensures delta == Double(mask) && checksum == Xor(sum, b)
    ensures plain[p..p + 16] == b == OpenBlock(c, delta, encrypted[e..e + 16])
    ensures SameAround(old(plain[..]), plain[..], p, 16)
  {
    hide Double;
    delta := Double(mask);
    var tmp := c.D(Xor(delta, encrypted[e..e + 16]));
    b := Xor(delta, tmp);
    CopyInto(plain, p, Xor(delta, tmp));
    checksum := Xor(sum, plain[p..p + 16]);
  }

  /** The text the loop works on, at the block the pointer has reached. */
  lemma PointedBlock(a: seq<byte>, at: nat, len: nat, i: nat)
    requires at + len <= |a| && 16 * i + 16 <= len
    ensures a[at + 16 * i..at + 16 * i + 16] == BlockAt(a[at..at + len], i)
  {
    var s, k := a[at..at + len], 16 * i;
    var b := s[k..k + 16];
    assert forall j | 0 <= j < 16 :: b[j] == s[k + j] == a[at + k + j];
  }

  /** What the loop leaves over is the last block. */
  lemma LeftOver(a: seq<byte>, at: nat, len: nat)
    requires at + len <= |a|
    ensures var done := 16 * FullBlocks(len);
            && 0 <= len - done <= 16
            && |LastOf(a[at..at + len])| == len - done
            && a[at + done..at + len] == LastOf(a[at..at + len])
  {
  }

  lemma ShapeIsSuspicious(s: seq<byte>, i: nat)
    requires i < FullBlocks(|s|)
    ensures |s| - 16 * i <= 32 && BlockAt(s, i)[..15] == Zeros(15) <==> Suspicious(s) && i == FullBlocks(|s|) - 1
  {
  }

  /** The sealing loop over the blocks before the last one. */
  method SealLoop(c: BlockCipher, plain: array<byte>, po: nat, encrypted: array<byte>, eo: nat, len: nat,
                  L: Block, counter: bool, ghost s: seq<byte>)
    returns (delta: Block, checksum: Block, success: bool)
    requires po + len <= plain.Length && eo + len <= encrypted.Length && plain != encrypted
    requires s == plain[po..po + len]
    modifies encrypted
    ensures SealedSoFar(c, L, Effective(s, counter), FullBlocks(len), delta, checksum, encrypted[..], eo)
    ensures SameAround(old(encrypted[..]), encrypted[..], eo, len)
    ensures success <==> counter || !Suspicious(s)
  {
    hide Xor;
    hide Double;
    hide FlipFirst;
    hide SealBlock;
    hide Zeros;
    hide Effective;
    hide SameAround;
    ghost var h, m, i, out := Effective(s, counter), FullBlocks(len), 0, encrypted[..];
    success, delta, checksum := true, L, ZERO_BLOCK;
    var rem, p, e := len, po, eo;
    SameAsItself(out, eo, len);
    assert SealedSoFar(c, L, h, 0, delta, checksum, out, eo);
    assert m == 0 ==> !Suspicious(s);
    hide Suspicious;
    hide SealedSoFar;
    while rem > BLOCK_SIZE
      invariant i <= m && rem == len - 16 * i && p == po + 16 * i && e == eo + 16 * i
      invariant SealedSoFar(c, L, h, i, delta, checksum, encrypted[..], eo)
      invariant SameAround(out, encrypted[..], eo, len)
      invariant success <==> counter || i < m || !Suspicious(s)
    {
      PointedBlock(plain[..], po, len, i);
      ShapeIsSuspicious(s, i);
      EffectiveBlock(s, counter, i);
      var flipABit, failed := CheckAttack(plain, p, rem, counter);
      if failed {
        success := false;
      }
      ghost var was, mask, sum := encrypted[..], delta, checksum;
      delta, checksum := SealStep(c, plain, p, encrypted, e, delta, checksum, flipABit, BlockAt(h, i));
      SealedOneMore(c, L, h, i, mask, sum, was, encrypted[..], eo);
      StillAround(out, was, encrypted[..], eo, len, e, 16);
      rem, p, e, i := rem - BLOCK_SIZE, p + BLOCK_SIZE, e + BLOCK_SIZE, i + 1;
    }
  }

  /** What the sender does after the loop: pad the last block, write it, and make the tag. */
  method SealFinish(c: BlockCipher, plain: array<byte>, p: nat, encrypted: array<byte>, e: nat, rem: nat,
                    mask: Block, sum: Block, ghost last: seq<byte>, ghost pad0: Block)
    returns (tag: Block)
    requires rem <= 16 && p + rem <= plain.Length && e + rem <= encrypted.Length && plain != encrypted
    requires last == plain[p..p + rem] && pad0 == c.E(Xor(LengthBlock(|last|), Double(mask)))
    modifies encrypted
    ensures && encrypted[e..e + rem] == SealLast(last, pad0)
            && tag == c.E(Xor(Triple(Double(mask)), Xor(sum, Padded(last, pad0))))
    ensures SameAround(old(encrypted[..]), encrypted[..], e, rem)
  {
    var delta := Double(mask);
    var pad := c.E(Xor(LengthBlock(rem), delta));
    var tmp: Block := plain[p..p + rem] + pad[rem..];
    var checksum := Xor(sum, tmp);
    tmp := Xor(pad, tmp);
    CopyInto(encrypted, e, tmp[..rem]);
    delta := Triple(delta);
    tag := c.E(Xor(delta, checksum));
  }

  lemma SealAssembled(c: BlockCipher, nonce: Block, s: seq<byte>, counter: bool, mask: Block, sum: Block, pad: Block)
    requires mask == Mask(c.E(nonce), FullBlocks(|s|)) && sum == Checksum(Effective(s, counter), FullBlocks(|s|))
    requires pad == c.E(Xor(LengthBlock(|LastOf(s)|), Double(mask)))
    ensures Seal(c, nonce, s, counter) ==
            Sealed(SealBlocks(c, c.E(nonce), Effective(s, counter), FullBlocks(|s|)) + SealLast(LastOf(s), pad),
                   c.E(Xor(Triple(Double(mask)), Xor(sum, Padded(LastOf(s), pad)))), counter || !Suspicious(s))
  {
    hide Xor;
    hide Double;
    hide SealLast;
    hide OpenLast;
    hide Padded;
    EffectiveLast(s, counter);
    assert LastMask(c, nonce, |s|) == Double(mask);
    assert LastPad(c, nonce, |s|) == pad;
  }

  lemma OpenAssembled(c: BlockCipher, nonce: Block, s: seq<byte>, text: seq<byte>, mask: Block, sum: Block, padded: Block)
    requires mask == Mask(c.E(nonce), FullBlocks(|s|))
    requires padded == OpenLast(LastOf(s), c.E(Xor(LengthBlock(|LastOf(s)|), Double(mask))))
    requires text == OpenBlocks(c, c.E(nonce), s, FullBlocks(|s|)) + padded[..|LastOf(s)|]
    requires sum == Checksum(text, FullBlocks(|s|))
    ensures Open(c, nonce, s) ==
            Opened(text, c.E(Xor(Triple(Double(mask)), Xor(sum, padded))), padded[..15] != Double(mask)[..15])
  {
    hide Xor;
    hide Double;
    hide SealLast;
    hide OpenLast;
    hide Padded;
    assert LastMask(c, nonce, |s|) == Double(mask);
    assert LastPad(c, nonce, |s|) == c.E(Xor(LengthBlock(|LastOf(s)|), Double(mask)));
  }

  /** The finished loop and the stored last block make up the whole message. */
  lemma SealWhole(c: BlockCipher, nonce: Block, s: seq<byte>, counter: bool, mask: Block, sum: Block, pad: Block,
                  was: seq<byte>, now: seq<byte>, eo: nat, tag: Block)
    requires SealedSoFar(c, c.E(nonce), Effective(s, counter), FullBlocks(|s|), mask, sum, was, eo)
    requires pad == c.E(Xor(LengthBlock(|LastOf(s)|), Double(mask)))
    requires SameAround(was, now, eo + 16 * FullBlocks(|s|), |LastOf(s)|)
    requires now[eo + 16 * FullBlocks(|s|)..eo + |s|] == SealLast(LastOf(s), pad)
    requires tag == c.E(Xor(Triple(Double(mask)), Xor(sum, Padded(LastOf(s), pad))))
    ensures Sealed(now[eo..eo + |s|], tag, counter || !Suspicious(s)) == Seal(c, nonce, s, counter)
  {
    hide Xor;
    hide Double;
    hide SealLast;
    hide Padded;
    hide Seal;
    hide SealBlocks;
    hide Checksum;
    hide Mask;
    hide Suspicious;
    hide Effective;
    SealAssembled(c, nonce, s, counter, mask, sum, pad);
    Extended(was, now, eo, eo + 16 * FullBlocks(|s|), |LastOf(s)|);
  }

  method OcbEncrypt(c: BlockCipher, plain: array<byte>, po: nat, encrypted: array<byte>, eo: nat, len: nat,
                    nonce: Block, counter: bool)
    returns (success: bool, tag: Block)
    requires po + len <= plain.Length && eo + len <= encrypted.Length && plain != encrypted
    modifies encrypted
    ensures Sealed(encrypted[eo..eo + len], tag, success) == Seal(c, nonce, plain[po..po + len], counter)
    ensures SameAround(old(encrypted[..]), encrypted[..], eo, len)
  {
    hide Xor;
    hide Double;
    hide Triple;
    hide SealLast;
    hide Padded;
    hide Seal;
    hide SealBlocks;
    hide Checksum;
    hide Mask;
    hide Suspicious;
    hide Effective;
    hide SameAround;
    hide SealedSoFar;
    hide LengthBlock;
    hide FullBlocks;
    hide LastOf;
    ghost var s, out := plain[po..po + len], encrypted[..];
    var delta, checksum;
    delta, checksum, success := SealLoop(c, plain, po, encrypted, eo, len, c.E(nonce), counter, s);
    var done := 16 * FullBlocks(len);
    ghost var last := LastOf(s);
    LeftOver(plain[..], po, len);
    assert s == plain[..][po..po + len];
    ghost var pad := c.E(Xor(LengthBlock(|last|), Double(delta)));
    ghost var was := encrypted[..];
    tag := SealFinish(c, plain, po + done, encrypted, eo + done, len - done, delta, checksum, last, pad);
    SealWhole(c, nonce, s, counter, delta, checksum, pad, was, encrypted[..], eo, tag);
    StillAround(out, was, encrypted[..], eo, len, eo + done, len - done);
  }

  /** The opening loop; its checksum runs over the plaintext it writes. */
  method OpenLoop(c: BlockCipher, encrypted: array<byte>, eo: nat, plain: array<byte>, po: nat, len: nat, L: Block,
                  ghost s: seq<byte>)
    returns (delta: Block, checksum: Block)
    requires po + len <= plain.Length && eo + len <= encrypted.Length && plain != encrypted
    requires s == encrypted[eo..eo + len]
    modifies plain
    ensures OpenedSoFar(c, L, s, FullBlocks(len), delta, checksum, plain[..], po)
    ensures SameAround(old(plain[..]), plain[..], po, len)
  {
    hide Xor;
    hide Double;
    hide OpenBlock;
    hide SameAround;
    ghost var m, i, out := FullBlocks(len), 0, plain[..];
    delta, checksum := L, ZERO_BLOCK;
    var rem, p, e := len, po, eo;
    SameAsItself(out, po, len);
    assert OpenedSoFar(c, L, s, 0, delta, checksum, out, po);
    hide OpenedSoFar;
    while rem > BLOCK_SIZE
      invariant i <= m && rem == len - 16 * i && p == po + 16 * i && e == eo + 16 * i
      invariant OpenedSoFar(c, L, s, i, delta, checksum, plain[..], po)
      invariant SameAround(out, plain[..], po, len)
    {
      PointedBlock(encrypted[..], eo, len, i);
      ghost var was, mask, sum := plain[..], delta, checksum;
      ghost var b;
      delta, checksum, b := OpenStep(c, encrypted, e, plain, p, delta, checksum);
      OpenedOneMore(c, L, s, i, mask, sum, was, plain[..], po, b);
      StillAround(out, was, plain[..], po, len, p, 16);
      rem, p, e, i := rem - BLOCK_SIZE, p + BLOCK_SIZE, e + BLOCK_SIZE, i + 1;
    }
  }

  /** What the receiver does after the loop, with the check for the attack. */
  method OpenFinish(c: BlockCipher, encrypted: array<byte>, e: nat, plain: array<byte>, p: nat, rem: nat,
                    mask: Block, sum: Block, ghost last: seq<byte>, ghost padded: Block)
    returns (success: bool, tag: Block)
    requires rem <= 16 && p + rem <= plain.Length && e + rem <= encrypted.Length && plain != encrypted
    requires last == encrypted[e..e + rem] && padded == OpenLast(last, c.E(Xor(LengthBlock(|last|), Double(mask))))
    modifies plain
    ensures && plain[p..p + rem] == padded[..rem]
            && tag == c.E(Xor(Triple(Double(mask)), Xor(sum, padded)))
            && (success <==> padded[..15] != Double(mask)[..15])
    ensures SameAround(old(plain[..]), plain[..], p, rem)
  {
    success := true;
    var delta := Double(mask);
    var pad := c.E(Xor(LengthBlock(rem), delta));
    var tmp := Xor(encrypted[e..e + rem] + Zeros(16 - rem), pad);
    var checksum := Xor(sum, tmp);
    CopyInto(plain, p, tmp[..rem]);
    if tmp[..15] == delta[..15] {
      success := false;
    }
    delta := Triple(delta);
    tag := c.E(Xor(delta, checksum));
  }

  /** The finished loop and the stored last block make up the whole text. */
  lemma OpenWhole(c: BlockCipher, nonce: Block, s: seq<byte>, mask: Block, sum: Block, padded: Block,
                  was: seq<byte>, now: seq<byte>, po: nat, tag: Block)
    requires OpenedSoFar(c, c.E(nonce), s, FullBlocks(|s|), mask, sum, was, po)
    requires padded == OpenLast(LastOf(s), c.E(Xor(LengthBlock(|LastOf(s)|), Double(mask))))
    requires SameAround(was, now, po + 16 * FullBlocks(|s|), |LastOf(s)|)
    requires now[po + 16 * FullBlocks(|s|)..po + |s|] == padded[..|LastOf(s)|]
    requires tag == c.E(Xor(Triple(Double(mask)), Xor(sum, padded)))
    ensures Opened(now[po..po + |s|], tag, padded[..15] != Double(mask)[..15]) == Open(c, nonce, s)
  {
    hide Xor;
    hide Double;
    hide OpenLast;
    hide Open;
    hide OpenBlocks;
    hide Checksum;
    hide Mask;
    var text, done := now[po..po + |s|], 16 * FullBlocks(|s|);
    Extended(was, now, po, po + done, |LastOf(s)|);
    ChecksumOfPrefix(was[po..po + done], text, FullBlocks(|s|));
    OpenAssembled(c, nonce, s, text, mask, sum, padded);
  }

  method OcbDecrypt(c: BlockCipher, encrypted: array<byte>, eo: nat, plain: array<byte>, po: nat, len: nat,
                    nonce: Block)
    returns (success: bool, tag: Block)
    requires po + len <= plain.Length && eo + len <= encrypted.Length && plain != encrypted
    modifies plain
    ensures Opened(plain[po..po + len], tag, success) == Open(c, nonce, encrypted[eo..eo + len])
    ensures SameAround(old(plain[..]), plain[..], po, len)
  {
    hide Xor;
    hide Double;
    hide Triple;
    hide OpenLast;
    hide Open;
    hide OpenBlocks;
    hide Checksum;
    hide Mask;
    hide SameAround;
    hide OpenedSoFar;
    hide LengthBlock;
    hide FullBlocks;
    hide LastOf;
    ghost var s, out := encrypted[eo..eo + len], plain[..];
    var delta, checksum := OpenLoop(c, encrypted, eo, plain, po, len, c.E(nonce), s);
    var done := 16 * FullBlocks(len);
    ghost var last := LastOf(s);
    LeftOver(encrypted[..], eo, len);
    assert s == encrypted[..][eo..eo + len];
    ghost var padded := OpenLast(last, c.E(Xor(LengthBlock(|last|), Double(delta))));
    ghost var was := plain[..];
    success, tag := OpenFinish(c, encrypted, eo + done, plain, po + done, len - done, delta, checksum, last, padded);
    OpenWhole(c, nonce, s, delta, checksum, padded, was, plain[..], po, tag);
    StillAround(out, was, plain[..], po, len, po + done, len - done);
  }
}
