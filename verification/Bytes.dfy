/** Bytes and 16-byte blocks, with the XOR group the cipher mode works in. */
module Bytes {
  type byte = bv8

  const BLOCK_SIZE: nat := 16

  type Block = b: seq<byte> | |b| == 16 witness Zeros(16)

  function ZeroByte(): byte { 0 }

  function Zeros(n: nat): (r: seq<byte>)
    ensures |r| == n
  {
    seq(n, i requires 0 <= i < n => ZeroByte())
  }

  const ZERO_BLOCK: Block := Zeros(16)

  function XorByte(x: byte, y: byte): byte {
    x ^ y
  }

  function Xor(a: Block, b: Block): (r: Block) {
    seq(16, i requires 0 <= i < 16 => XorByte(a[i], b[i]))
  }

  lemma XorByteCancels(x: byte, y: byte)
    ensures XorByte(x, XorByte(x, y)) == y
  {
  }

  lemma XorByteCommutes(x: byte, y: byte)
    ensures XorByte(x, y) == XorByte(y, x)
  {
  }

  lemma XorByteUnit(x: byte)
    ensures XorByte(ZeroByte(), x) == x
  {
  }

  /** XOR with a mask undoes itself. */
  lemma XorCancels(a: Block, b: Block)
    ensures Xor(a, Xor(a, b)) == b
  {
    forall i | 0 <= i < 16
      ensures Xor(a, Xor(a, b))[i] == b[i]
    {
      XorByteCancels(a[i], b[i]);
    }
  }

  /** Writes `src` into `dst` from position `at` on, as memcpy does. */
  method CopyInto(dst: array<byte>, at: nat, src: seq<byte>)
    requires at + |src| <= dst.Length
    modifies dst
    ensures dst[at..at + |src|] == src
    ensures dst[..at] == old(dst[..at]) && dst[at + |src|..] == old(dst[at + |src|..])
  {
    forall i | 0 <= i < |src| {
      dst[at + i] := src[i];
    }
  }
}
