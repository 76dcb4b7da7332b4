/**
 * The 2 x 64-bit build of the block arithmetic, in place on an array of native
 * little-endian words. SWAPPED is the compiler's 64-bit byte swap.
 */
module Words64 {
  import opened Bytes
  import opened Gf128

  const BLOCKSIZE: nat := 2

  type subblock = bv64

  function Swapped(x: subblock): subblock {
    (x << 56) | ((x & 0xFF00) << 40) | ((x & 0xFF0000) << 24) | ((x & 0xFF000000) << 8) |
    ((x >> 8) & 0xFF000000) | ((x >> 24) & 0xFF0000) | ((x >> 40) & 0xFF00) | (x >> 56)
  }

  /** Byte `j` of a native word, in memory order. */
  function WordByte(w: subblock, j: nat): byte
    requires j < 8
  {
    match j
    case 0 => (w & 0xFF) as byte
    case 1 => ((w >> 8) & 0xFF) as byte
    case 2 => ((w >> 16) & 0xFF) as byte
    case 3 => ((w >> 24) & 0xFF) as byte
    case 4 => ((w >> 32) & 0xFF) as byte
    case 5 => ((w >> 40) & 0xFF) as byte
    case 6 => ((w >> 48) & 0xFF) as byte
    case _ => (w >> 56) as byte
  }

  /** The sixteen bytes a keyblock occupies. */
  function Memory(w: seq<subblock>): Block
    requires |w| == BLOCKSIZE
  {
    seq(16, k requires 0 <= k < 16 => WordByte(w[k / 8], k % 8))
  }

  // ---- What the statements of S2 and S3 store, word by word ----

  function ShiftWord(w: subblock, right: subblock): subblock {
    Swapped((Swapped(w) << 1) | (Swapped(right) >> 63))
  }

  function ShiftLastWord(w: subblock, carry: subblock): subblock {
    Swapped((Swapped(w) << 1) ^ (carry * 0x87))
  }

  function XorWord(x: subblock, y: subblock): subblock {
    x ^ y
  }

  lemma ShiftWordLowBytes(w: subblock, right: subblock, j: nat)
    requires j < 4
    ensures WordByte(ShiftWord(w, right), j) == ShiftByte(WordByte(w, j), WordByte(w, j + 1))
  {
    if
    case j == 0 =>
    case j == 1 =>
    case j == 2 =>
    case j == 3 =>
  }

  lemma ShiftWordHighBytes(w: subblock, right: subblock, j: nat)
    requires 4 <= j < 8
    ensures WordByte(ShiftWord(w, right), j) ==
            ShiftByte(WordByte(w, j), if j < 7 then WordByte(w, j + 1) else WordByte(right, 0))
  {
    if
    case j == 4 =>
    case j == 5 =>
    case j == 6 =>
    case j == 7 =>
  }

  lemma ShiftWordBytes(w: subblock, right: subblock, j: nat)
    requires j < 8
    ensures WordByte(ShiftWord(w, right), j) ==
            ShiftByte(WordByte(w, j), if j < 7 then WordByte(w, j + 1) else WordByte(right, 0))
  {
    hide WordByte;
    hide ShiftWord;
    hide ShiftByte;
    if j < 4 {
      ShiftWordLowBytes(w, right, j);
    } else {
      ShiftWordHighBytes(w, right, j);
    }
  }

  lemma ShiftLastWordBytes(w: subblock, first: subblock, j: nat)
    requires j < 8
    ensures WordByte(ShiftLastWord(w, Swapped(first) >> 63), j) ==
            if j < 7 then ShiftByte(WordByte(w, j), WordByte(w, j + 1))
            else ShiftLastByte(WordByte(w, 7), WordByte(first, 0))
  {
    if
    case j == 0 =>
    case j == 1 =>
    case j == 2 =>
    case j == 3 =>
    case j == 4 =>
    case j == 5 =>
    case j == 6 =>
    case j == 7 =>
  }

  lemma XorWordBytes(x: subblock, y: subblock, j: nat)
    requires j < 8
    ensures WordByte(XorWord(x, y), j) == XorByte(WordByte(x, j), WordByte(y, j))
  {
    if
    case j == 0 =>
    case j == 1 =>
    case j == 2 =>
    case j == 3 =>
    case j == 4 =>
    case j == 5 =>
    case j == 6 =>
    case j == 7 =>
  }

  /** Word `i` of the doubled block, in terms of the words before the update. */
  function DoubledWord(w: seq<subblock>, i: nat): subblock
    requires |w| == BLOCKSIZE && i < BLOCKSIZE
  {
    if i < BLOCKSIZE - 1 then ShiftWord(w[i], w[i + 1]) else ShiftLastWord(w[i], Swapped(w[0]) >> 63)
  }

  lemma DoubledByte(w: seq<subblock>, i: nat, j: nat)
    requires |w| == BLOCKSIZE && i < BLOCKSIZE && j < 8
    ensures WordByte(DoubledWord(w, i), j) == DoubleByte(Memory(w), 8 * i + j)
  {
    var m, k := Memory(w), 8 * i + j;
    assert m[0] == WordByte(w[0], 0) && m[k] == WordByte(w[i], j);
    if j < 7 {
      assert k + 1 < 16 && m[k + 1] == WordByte(w[i], j + 1);
    } else if i < BLOCKSIZE - 1 {
      assert k + 1 < 16 && m[k + 1] == WordByte(w[i + 1], 0);
    }
    if i < BLOCKSIZE - 1 {
      ShiftWordBytes(w[i], w[i + 1], j);
    } else {
      ShiftLastWordBytes(w[i], w[0], j);
    }
  }

  function DoubledWords(w: seq<subblock>): (r: seq<subblock>)
    requires |w| == BLOCKSIZE
    ensures |r| == BLOCKSIZE
  {
    seq(BLOCKSIZE, i requires 0 <= i < BLOCKSIZE => DoubledWord(w, i))
  }

  lemma DoubledMemory(w: seq<subblock>)
    requires |w| == BLOCKSIZE
    ensures Memory(DoubledWords(w)) == Double(Memory(w))
  {
    forall k | 0 <= k < 16
      ensures Memory(DoubledWords(w))[k] == Double(Memory(w))[k]
    {
      DoubledByte(w, k / 8, k % 8);
    }
  }

  lemma XoredMemory(x: seq<subblock>, y: seq<subblock>, r: seq<subblock>)
    requires |x| == |y| == |r| == BLOCKSIZE
    requires forall i | 0 <= i < BLOCKSIZE :: r[i] == XorWord(x[i], y[i])
    ensures Memory(r) == Xor(Memory(x), Memory(y))
  {
    forall k | 0 <= k < 16
      ensures Memory(r)[k] == XorByte(Memory(x)[k], Memory(y)[k])
    {
      XorWordBytes(x[k / 8], y[k / 8], k % 8);
    }
  }

  // ---- The in-place operations ----

  /** The destination may be one of the operands. */
  method XOR(dst: array<subblock>, a: array<subblock>, b: array<subblock>)
    requires dst.Length == a.Length == b.Length == BLOCKSIZE
    modifies dst
    ensures Memory(dst[..]) == Xor(old(Memory(a[..])), old(Memory(b[..])))
  {
    for i := 0 to BLOCKSIZE
      invariant forall k | 0 <= k < i :: dst[k] == XorWord(old(a[k]), old(b[k]))
      invariant forall k | i <= k < BLOCKSIZE :: a[k] == old(a[k]) && b[k] == old(b[k])
    {
      dst[i] := XorWord(a[i], b[i]);
    }
    XoredMemory(old(a[..]), old(b[..]), dst[..]);
  }

  method S2(block: array<subblock>)
    requires block.Length == BLOCKSIZE
    modifies block
    ensures Memory(block[..]) == Double(old(Memory(block[..])))
  {
    ghost var w := block[..];
    ghost var d := DoubledWords(w);
    var carry := Swapped(block[0]) >> 63;
    for i := 0 to BLOCKSIZE - 1
      invariant forall k | 0 <= k < i :: block[k] == d[k]
      invariant forall k | i <= k < BLOCKSIZE :: block[k] == w[k]
    {
      block[i] := ShiftWord(block[i], block[i + 1]);
    }
    block[BLOCKSIZE - 1] := ShiftLastWord(block[BLOCKSIZE - 1], carry);
    assert block[..] == d;
    DoubledMemory(w);
  }

  method S3(block: array<subblock>)
    requires block.Length == BLOCKSIZE
    modifies block
    ensures Memory(block[..]) == Triple(old(Memory(block[..])))
  {
    ghost var w := block[..];
    ghost var d := DoubledWords(w);
    var carry := Swapped(block[0]) >> 63;
    for i := 0 to BLOCKSIZE - 1
      invariant forall k | 0 <= k < i :: block[k] == XorWord(d[k], w[k])
      invariant forall k | i <= k < BLOCKSIZE :: block[k] == w[k]
    {
      XorWordCommutes(block[i], ShiftWord(block[i], block[i + 1]));
      block[i] := XorWord(block[i], ShiftWord(block[i], block[i + 1]));
    }
    var last := BLOCKSIZE - 1;
    XorWordCommutes(block[last], ShiftLastWord(block[last], carry));
    block[last] := XorWord(block[last], ShiftLastWord(block[last], carry));
    DoubledMemory(w);
    XoredMemory(d, w, block[..]);
  }

  lemma XorWordCommutes(x: subblock, y: subblock)
    ensures XorWord(x, y) == XorWord(y, x)
  {
  }
}
