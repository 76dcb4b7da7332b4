/**
 * What the mode computes, said without its own definitions: equations over the inverse
 * cipher and over polynomials, which one text, one ciphertext and one tag fulfil.
 */
module Ocb2Meaning {
  import opened Bytes
  import opened Gf128
  import opened Ocb2

  // ---- Powers of x, up to a multiple of the modulus ----

  function TimesXTo(p: Poly, k: nat): Poly {
    set e | e in p :: e + k
  }

  /** The polynomial of `z` is x^k times that of `l`, up to a multiple of the modulus. */
  ghost predicate IsPower(z: Block, l: Block, k: nat) {
    exists q :: PolyOf(z) == Sum(TimesXTo(PolyOf(l), k), Multiple(q))
  }

  lemma TimesXToNext(p: Poly, k: nat)
    ensures TimesX(TimesXTo(p, k)) == TimesXTo(p, k + 1)
  {
    forall e: nat
      ensures e in TimesX(TimesXTo(p, k)) <==> e in TimesXTo(p, k + 1)
    {
      ShiftedTerm(TimesXTo(p, k), e);
      assert e in TimesXTo(p, k + 1) <==> e >= k + 1 && e - k - 1 in p;
      assert e > 0 ==> (e - 1 in TimesXTo(p, k) <==> e - 1 >= k && e - 1 - k in p);
    }
  }

  lemma SumsRegroup(p: Poly, q: Poly, r: Poly)
    ensures Sum(Sum(p, q), r) == Sum(p, Sum(r, q))
  {
  }

  lemma SumsSwap(p: Poly, q: Poly, r: Poly)
    ensures Sum(Sum(p, q), r) == Sum(Sum(p, r), q)
  {
  }

  lemma DoubleIsNextPower(z: Block, l: Block, k: nat)
    requires IsPower(z, l, k)
    ensures IsPower(Double(z), l, k + 1)
  {
    hide PolyOf;
    hide Double;
    hide TimesX;
    hide TimesXTo;
    hide Sum;
    var q :| PolyOf(z) == Sum(TimesXTo(PolyOf(l), k), Multiple(q));
    var next := [127 in PolyOf(z)] + q;
    var feedback: Poly := if next[0] then MODULUS else {};
    assert next[1..] == q;
    DoubleIsTimesX(z);
    TimesXIsLinear(TimesXTo(PolyOf(l), k), Multiple(q));
    TimesXToNext(PolyOf(l), k);
    SumUnit(TimesX(PolyOf(z)));
    SumsRegroup(TimesXTo(PolyOf(l), k + 1), TimesX(Multiple(q)), feedback);
    assert PolyOf(Double(z)) == Sum(TimesXTo(PolyOf(l), k + 1), Multiple(next));
  }

  lemma SumUnit(p: Poly)
    ensures Sum(p, {}) == p
  {
  }

  /** The mask of block `k` is the encrypted nonce times x^k. */
  lemma {:induction false} MaskIsPower(l: Block, k: nat)
    ensures IsPower(Mask(l, k), l, k)
  {
    hide PolyOf;
    hide Double;
    if k == 0 {
      assert TimesXTo(PolyOf(l), 0) == PolyOf(l);
      assert PolyOf(l) == Sum(TimesXTo(PolyOf(l), 0), Multiple([]));
    } else {
      MaskIsPower(l, k - 1);
      DoubleIsNextPower(Mask(l, k - 1), l, k - 1);
    }
  }

  lemma {:induction false} SumOfMultiples(p: seq<bool>, q: seq<bool>) returns (r: seq<bool>)
    ensures Multiple(r) == Sum(Multiple(p), Multiple(q))
    decreases |p|
  {
    hide TimesX;
    if |p| == 0 {
      r := q;
    } else if |q| == 0 {
      r := p;
    } else {
      var rest := SumOfMultiples(p[1..], q[1..]);
      r := [p[0] != q[0]] + rest;
      assert r[1..] == rest;
      TimesXIsLinear(Multiple(p[1..]), Multiple(q[1..]));
      SumsCross(if p[0] then MODULUS else {}, TimesX(Multiple(p[1..])),
                if q[0] then MODULUS else {}, TimesX(Multiple(q[1..])));
    }
  }

  lemma SumsCross(a: Poly, p: Poly, b: Poly, q: Poly)
    ensures Sum(Sum(a, p), Sum(b, q)) == Sum(Sum(a, b), Sum(p, q))
  {
  }

  lemma CommonPart(z: Poly, y: Poly, t: Poly, p: Poly, q: Poly)
    requires z == Sum(t, p) && y == Sum(t, q)
    ensures Sum(z, y) == Sum(p, q)
  {
  }

  /** Two blocks that are the same up to multiples of the modulus are the same. */
  lemma ReducedOnce(y: Block, z: Block, t: Poly, p: seq<bool>, q: seq<bool>)
    requires PolyOf(y) == Sum(t, Multiple(p)) && PolyOf(z) == Sum(t, Multiple(q))
    ensures y == z
  {
    CommonPart(PolyOf(y), PolyOf(z), t, Multiple(p), Multiple(q));
    var r := SumOfMultiples(p, q);
    var e := OtherMultiplesAreLarge(r);
    assert forall f | f in Multiple(r) :: f < 128;
    assert 128 in MODULUS;
    assert Sum(PolyOf(y), PolyOf(z)) == {};
    PolyDeterminesBlock(y, z);
  }

  lemma PowerIsUnique(y: Block, z: Block, l: Block, k: nat)
    requires IsPower(y, l, k) && IsPower(z, l, k)
    ensures y == z
  {
    var p :| PolyOf(y) == Sum(TimesXTo(PolyOf(l), k), Multiple(p));
    var q :| PolyOf(z) == Sum(TimesXTo(PolyOf(l), k), Multiple(q));
    ReducedOnce(y, z, TimesXTo(PolyOf(l), k), p, q);
  }

  /** The mask is the one reduced power, so it is settled by what it has to be. */
  lemma PowerIffMask(z: Block, l: Block, k: nat)
    ensures IsPower(z, l, k) <==> z == Mask(l, k)
  {
    hide IsPower;
    MaskIsPower(l, k);
    if IsPower(z, l, k) {
      PowerIsUnique(z, Mask(l, k), l, k);
    }
  }

  // ---- The length of the last block, in bits ----

  /** The exponents of the powers of two that add up to `n`. */
  function BinaryOf(n: nat): Poly {
    if n == 0 then {} else (if n % 2 == 1 then {0} else {}) + TimesX(BinaryOf(n / 2))
  }

  lemma BinaryDigit(n: nat, e: nat)
    ensures e in BinaryOf(n) <==> if e == 0 then n % 2 == 1 else e - 1 in BinaryOf(n / 2)
  {
    ShiftedTerm(BinaryOf(n / 2), e);
    assert BinaryOf(0) == {};
  }

  lemma BinaryOfEight(n: nat, e: nat)
    ensures e in BinaryOf(8 * n) <==> e >= 3 && e - 3 in BinaryOf(n)
  {
    hide BinaryOf;
    BinaryDigit(8 * n, e);
    if e > 0 {
      BinaryDigit(4 * n, e - 1);
    }
    if e > 1 {
      BinaryDigit(2 * n, e - 2);
    }
  }

  predicate SmallDigit(n: nat, e: nat) {
    match e
    case 0 => n % 2 == 1
    case 1 => n / 2 % 2 == 1
    case 2 => n / 4 % 2 == 1
    case 3 => n / 8 % 2 == 1
    case 4 => n / 16 % 2 == 1
    case _ => false
  }

  /** A number of at most sixteen, digit by digit. */
  lemma {:induction false} SmallBinary(n: nat, e: nat)
    requires n <= 16
    ensures e in BinaryOf(n) <==> SmallDigit(n, e)
  {
    hide BinaryOf;
    BinaryDigit(n, e);
    if e > 0 {
      if n == 0 {
        NoDigits(e - 1);
      } else {
        SmallBinary(n / 2, e - 1);
      }
    }
  }

  lemma NoDigits(e: nat)
    ensures e !in BinaryOf(0)
  {
  }

  lemma LengthBit(n: nat, k: nat)
    requires n <= 16 && k < 8
    ensures HasBit((n * 8) as byte, k) <==> k >= 3 && SmallDigit(n, k - 3)
  {
    if
    case n < 4 => if n < 2 { if n == 0 {} else {} } else if n == 2 {} else {}
    case 4 <= n < 8 => if n < 6 { if n == 4 {} else {} } else if n == 6 {} else {}
    case 8 <= n < 12 => if n < 10 { if n == 8 {} else {} } else if n == 10 {} else {}
    case 12 <= n => if n < 14 { if n == 12 {} else {} } else if n == 14 {} else if n == 15 {} else {}
  }

  lemma LengthBlockTerm(n: nat, e: nat)
    requires n <= 16 && e < 128
    ensures HasTerm(LengthBlock(n), e) <==> e in BinaryOf(8 * n)
  {
    hide BinaryOf;
    BinaryOfEight(n, e);
    if e < 8 {
      LengthBit(n, e);
    } else {
      NoBitOfZero(e % 8);
    }
    if e >= 3 {
      SmallBinary(n, e - 3);
    }
  }

  lemma NoBitOfZero(k: nat)
    requires k < 8
    ensures !HasBit(ZeroByte(), k)
  {
    hide BitMask;
    assert 0 & BitMask(k) == 0;
  }

  lemma LengthBlockIsBinary(n: nat)
    requires n <= 16
    ensures PolyOf(LengthBlock(n)) == BinaryOf(8 * n)
  {
    hide BinaryOf;
    hide HasTerm;
    hide LengthBlock;
    forall e: nat
      ensures e in PolyOf(LengthBlock(n)) <==> e in BinaryOf(8 * n)
    {
      if e < 128 {
        LengthBlockTerm(n, e);
      } else {
        BinaryOfEight(n, e);
        SmallBinary(n, e - 3);
      }
    }
  }

  // ---- Sealing ----

  /** The sum of the polynomials of whole blocks. */
  function Total(s: seq<byte>): Poly
    requires |s| % 16 == 0
  {
    if |s| == 0 then {} else Sum(PolyOf(s[..16]), Total(s[16..]))
  }

  /** `p` is the encryption of `z` plus the number of bits among `n` bytes. */
  ghost predicate IsPad(c: BlockCipher, z: Block, n: nat, p: Block) {
    PolyOf(c.D(p)) == Sum(PolyOf(z), BinaryOf(8 * n))
  }

  /** `tag` is the encryption of (x + 1) * z plus the polynomials of some whole blocks. */
  ghost predicate IsTag(c: BlockCipher, z: Block, blocks: seq<byte>, tag: Block)
    requires |blocks| % 16 == 0
  {
    exists q :: PolyOf(c.D(tag)) == Sum(Sum(Sum(TimesX(PolyOf(z)), PolyOf(z)), Total(blocks)), Multiple(q))
  }

  /** The mask of block `i`: x^(i + 1) times the encrypted nonce. */
  ghost predicate IsMask(c: BlockCipher, nonce: Block, i: nat, z: Block) {
    IsPower(z, c.E(nonce), i + 1)
  }

  predicate Unmasks(c: BlockCipher, z: Block, s: seq<byte>, t: seq<byte>, i: nat)
    requires |t| == |s| && 16 * i + 16 <= |s|
  {
    c.D(Xor(z, t[16 * i..16 * i + 16])) == Xor(z, s[16 * i..16 * i + 16])
  }

  /** Under its mask, block `i` of the ciphertext decrypts to block `i` of the text. */
  ghost predicate BlockIsSealed(c: BlockCipher, nonce: Block, s: seq<byte>, t: seq<byte>, i: nat)
    requires |t| == |s| && 16 * i + 16 <= |s|
  {
    exists z :: IsMask(c, nonce, i, z) && Unmasks(c, z, s, t, i)
  }

  /** The last bytes, from `n` on, differ by the pad; it completes the last block in the tag. */
  ghost predicate EndIsSealed(c: BlockCipher, z: Block, s: seq<byte>, t: seq<byte>, tag: Block, n: nat, pad: Block)
    requires |t| == |s| && n % 16 == 0 && n <= |s| <= n + 16
  {
    && IsPad(c, z, |s| - n, pad)
    && (forall j | n <= j < |s| :: XorByte(t[j], s[j]) == pad[j - n])
    && IsTag(c, z, s + pad[|s| - n..], tag)
  }

  /**
   * The standard's equations between a text, its ciphertext and its tag: full blocks, of
   * which there are `m`, under the powers of x from the first on, and then the last bytes.
   */
  ghost predicate IsSealed(c: BlockCipher, nonce: Block, s: seq<byte>, t: seq<byte>, tag: Block, m: nat)
    requires 16 * m <= |s| <= 16 * m + 16
  {
    && |t| == |s|
    && (forall i | 0 <= i < m :: BlockIsSealed(c, nonce, s, t, i))
    && exists z, pad :: IsMask(c, nonce, m, z) && EndIsSealed(c, z, s, t, tag, 16 * m, pad)
  }

  lemma {:induction false} SealBlocksAt(c: BlockCipher, l: Block, s: seq<byte>, n: nat, i: nat)
    requires 16 * n <= |s| && i < n
    ensures SealBlocks(c, l, s, n)[16 * i..16 * i + 16] == SealBlock(c, Mask(l, i + 1), BlockAt(s, i))
  {
    hide SealBlock;
    hide Mask;
    if i < n - 1 {
      SealBlocksAt(c, l, s, n - 1, i);
    }
  }

  lemma BlockSealed(c: BlockCipher, nonce: Block, s: seq<byte>, i: nat)
    requires c.Valid() && i < FullBlocks(|s|)
    ensures BlockIsSealed(c, nonce, s, SealExact(c, nonce, s).text, i)
  {
    hide Xor;
    hide Mask;
    hide IsPower;
    hide TagOf;
    hide LastPad;
    hide SealLast;
    var l, m := c.E(nonce), FullBlocks(|s|);
    MaskIsPower(l, i + 1);
    SealBlocksAt(c, l, s, m, i);
    var z, t, b := Mask(l, i + 1), SealExact(c, nonce, s).text, BlockAt(s, i);
    assert t[16 * i..16 * i + 16] == SealBlocks(c, l, s, m)[16 * i..16 * i + 16];
    XorCancels(z, c.E(Xor(z, b)));
    assert IsMask(c, nonce, i, z) && Unmasks(c, z, s, t, i);
  }

  lemma PadIsPad(c: BlockCipher, nonce: Block, n: nat)
    requires c.Valid()
    ensures IsPad(c, LastMask(c, nonce, n), n - 16 * FullBlocks(n), LastPad(c, nonce, n))
  {
    hide Xor;
    hide PolyOf;
    hide LengthBlock;
    hide LastMask;
    hide BinaryOf;
    var last := n - 16 * FullBlocks(n);
    XorIsSum(LengthBlock(last), LastMask(c, nonce, n));
    LengthBlockIsBinary(last);
    SumCommutes(PolyOf(LengthBlock(last)), PolyOf(LastMask(c, nonce, n)));
  }

  lemma SumCommutes(p: Poly, q: Poly)
    ensures Sum(p, q) == Sum(q, p)
  {
  }

  lemma {:induction false} TotalIsChecksum(s: seq<byte>, n: nat, b: Block)
    requires 16 * n <= |s|
    ensures Total(s[..16 * n] + b) == Sum(PolyOf(Checksum(s, n)), PolyOf(b))
  {
    hide PolyOf;
    hide Xor;
    hide Sum;
    if n == 0 {
      TotalOfOne(b);
      assert s[..0] + b == b;
      ZeroBlockIsEmpty();
      SumCommutes({}, PolyOf(b));
      SumUnit(PolyOf(b));
    } else {
      var head, last := Checksum(s, n - 1), BlockAt(s, n - 1);
      XorIsSum(head, last);
      TotalIsChecksum(s, n - 1, last);
      assert s[..16 * n] == s[..16 * (n - 1)] + last;
      TotalSnoc(s[..16 * n], b);
    }
  }

  lemma TotalOfOne(b: Block)
    ensures Total(b) == PolyOf(b)
  {
    hide PolyOf;
    assert b[..16] == b && b[16..] == [];
    SumUnit(PolyOf(b));
  }

  lemma ZeroBlockIsEmpty()
    ensures PolyOf(ZERO_BLOCK) == {}
  {
    hide HasBit;
    forall e: nat | e < 128
      ensures !HasTerm(ZERO_BLOCK, e)
    {
      NoBitOfZero(e % 8);
    }
  }

  lemma {:induction false} TotalSnoc(s: seq<byte>, b: Block)
    requires |s| % 16 == 0
    ensures Total(s + b) == Sum(Total(s), PolyOf(b))
  {
    hide PolyOf;
    if |s| == 0 {
      assert s + b == b;
      TotalOfOne(b);
      SumCommutes({}, PolyOf(b));
      SumUnit(PolyOf(b));
    } else {
      assert (s + b)[..16] == s[..16] && (s + b)[16..] == s[16..] + b;
      TotalSnoc(s[16..], b);
      SumsRegroup(PolyOf(s[..16]), PolyOf(b), Total(s[16..]));
    }
  }

  lemma LastIsSealed(c: BlockCipher, nonce: Block, s: seq<byte>)
    ensures var t, pad := SealExact(c, nonce, s).text, LastPad(c, nonce, |s|);
            forall j | 16 * FullBlocks(|s|) <= j < |s| ::
              XorByte(t[j], s[j]) == pad[j - 16 * FullBlocks(|s|)]
  {
    hide TagOf;
    hide LastPad;
    hide SealBlocks;
    var n, t, pad := 16 * FullBlocks(|s|), SealExact(c, nonce, s).text, LastPad(c, nonce, |s|);
    forall j | n <= j < |s|
      ensures XorByte(t[j], s[j]) == pad[j - n]
    {
      assert t[j] == SealLast(LastOf(s), pad)[j - n] == XorByte(pad[j - n], s[j]);
      XorByteTwice(pad[j - n], s[j]);
    }
  }

  lemma XorByteTwice(x: byte, y: byte)
    ensures XorByte(XorByte(x, y), y) == x
  {
  }

  lemma TagIsTag(c: BlockCipher, nonce: Block, s: seq<byte>, padded: Block)
    requires c.Valid()
    ensures IsTag(c, LastMask(c, nonce, |s|), s[..16 * FullBlocks(|s|)] + padded, TagOf(c, nonce, s, padded))
  {
    hide Xor;
    hide PolyOf;
    hide TimesX;
    hide Sum;
    hide Triple;
    hide Double;
    hide Checksum;
    hide LastMask;
    var m, z := FullBlocks(|s|), LastMask(c, nonce, |s|);
    var sum, blocks := Xor(Checksum(s, m), padded), s[..16 * m] + padded;
    XorIsSum(Triple(z), sum);
    XorIsSum(Checksum(s, m), padded);
    TotalIsChecksum(s, m, padded);
    TripleIsTimesXPlusOne(z);
    DoubleIsTimesX(z);
    var q := [127 in PolyOf(z)];
    FirstMultiple(q[0]);
    SumUnit(TimesX(PolyOf(z)));
    var p := TimesX(PolyOf(z));
    SumsSwap(p, Multiple(q), PolyOf(z));
    SumsSwap(Sum(p, PolyOf(z)), Multiple(q), Total(blocks));
    assert PolyOf(Triple(z)) == Sum(Sum(p, Multiple(q)), PolyOf(z));
    assert PolyOf(Xor(Triple(z), sum)) == Sum(PolyOf(Triple(z)), Total(blocks));
    assert c.D(TagOf(c, nonce, s, padded)) == Xor(Triple(z), sum);
  }

  lemma FirstMultiple(b: bool)
    ensures Multiple([b]) == if b then MODULUS else {}
  {
    assert [b][1..] == [];
    assert TimesX({}) == {};
  }

  lemma SealExactIsSealed(c: BlockCipher, nonce: Block, s: seq<byte>)
    requires c.Valid()
    ensures var z := SealExact(c, nonce, s); IsSealed(c, nonce, s, z.text, z.tag, FullBlocks(|s|))
  {
    hide IsPower;
    hide IsPad;
    hide IsTag;
    hide LastPad;
    hide TagOf;
    hide LastMask;
    hide BlockIsSealed;
    var m, z, pad := FullBlocks(|s|), LastMask(c, nonce, |s|), LastPad(c, nonce, |s|);
    forall i | 0 <= i < m
      ensures BlockIsSealed(c, nonce, s, SealExact(c, nonce, s).text, i)
    {
      BlockSealed(c, nonce, s, i);
    }
    LastMaskIsMask(c, nonce, |s|);
    PadIsPad(c, nonce, |s|);
    LastIsSealed(c, nonce, s);
    TagIsTag(c, nonce, s, Padded(LastOf(s), pad));
    assert s[..16 * m] + Padded(LastOf(s), pad) == s + pad[|s| - 16 * m..];
    var t, tag := SealExact(c, nonce, s).text, SealExact(c, nonce, s).tag;
    assert EndIsSealed(c, z, s, t, tag, 16 * m, pad);
  }

  lemma LastMaskIsMask(c: BlockCipher, nonce: Block, n: nat)
    ensures IsMask(c, nonce, FullBlocks(n), LastMask(c, nonce, n))
  {
    hide IsPower;
    MaskIsPower(c.E(nonce), FullBlocks(n) + 1);
  }

  // ---- There is one such ciphertext and tag ----

  lemma DecryptsOnce(c: BlockCipher, a: Block, b: Block)
    requires c.Valid() && PolyOf(c.D(a)) == PolyOf(c.D(b))
    ensures a == b
  {
    PolyDeterminesBlock(c.D(a), c.D(b));
    assert c.E(c.D(a)) == a && c.E(c.D(b)) == b;
  }

  lemma BlockSealedOnce(c: BlockCipher, nonce: Block, s: seq<byte>, t: seq<byte>, u: seq<byte>, i: nat)
    requires c.Valid() && |t| == |u| == |s| && 16 * i + 16 <= |s|
    requires BlockIsSealed(c, nonce, s, t, i) && BlockIsSealed(c, nonce, s, u, i)
    ensures t[16 * i..16 * i + 16] == u[16 * i..16 * i + 16]
  {
    hide Xor;
    hide IsPower;
    var y :| IsMask(c, nonce, i, y) && Unmasks(c, y, s, t, i);
    var z :| IsMask(c, nonce, i, z) && Unmasks(c, z, s, u, i);
    PowerIsUnique(y, z, c.E(nonce), i + 1);
    var a, b: Block := t[16 * i..16 * i + 16], u[16 * i..16 * i + 16];
    DecryptsOnce(c, Xor(z, a), Xor(z, b));
    XorCancels(z, a);
    XorCancels(z, b);
  }

  lemma TagOnce(c: BlockCipher, z: Block, blocks: seq<byte>, a: Block, b: Block)
    requires c.Valid() && |blocks| % 16 == 0
    requires IsTag(c, z, blocks, a) && IsTag(c, z, blocks, b)
    ensures a == b
  {
    var t := Sum(Sum(TimesX(PolyOf(z)), PolyOf(z)), Total(blocks));
    var p :| PolyOf(c.D(a)) == Sum(t, Multiple(p));
    var q :| PolyOf(c.D(b)) == Sum(t, Multiple(q));
    ReducedOnce(c.D(a), c.D(b), t, p, q);
    DecryptsOnce(c, a, b);
  }

  lemma PadOnce(c: BlockCipher, z: Block, n: nat, p: Block, q: Block)
    requires c.Valid() && IsPad(c, z, n, p) && IsPad(c, z, n, q)
    ensures p == q
  {
    DecryptsOnce(c, p, q);
  }

  lemma EndSealedOnce(c: BlockCipher, z: Block, s: seq<byte>, t: seq<byte>, a: Block, p: Block, u: seq<byte>, b: Block,
                      q: Block, n: nat)
    requires c.Valid() && |t| == |u| == |s| && n % 16 == 0 && n <= |s| <= n + 16
    requires EndIsSealed(c, z, s, t, a, n, p) && EndIsSealed(c, z, s, u, b, n, q)
    ensures a == b && t[n..] == u[n..]
  {
    hide IsPad;
    hide IsTag;
    PadOnce(c, z, |s| - n, p, q);
    TagOnce(c, z, s + p[|s| - n..], a, b);
    forall j | n <= j < |s|
      ensures t[j] == u[j]
    {
      XorByteTwice(t[j], s[j]);
      XorByteTwice(u[j], s[j]);
    }
  }

  lemma SealedOnce(c: BlockCipher, nonce: Block, s: seq<byte>, t: seq<byte>, a: Block, u: seq<byte>, b: Block, m: nat)
    requires c.Valid() && 16 * m <= |s| <= 16 * m + 16
    requires IsSealed(c, nonce, s, t, a, m) && IsSealed(c, nonce, s, u, b, m)
    ensures t == u && a == b
  {
    hide IsPower;
    hide EndIsSealed;
    hide BlockIsSealed;
    forall j | 0 <= j < 16 * m
      ensures t[j] == u[j]
    {
      var i := j / 16;
      BlockSealedOnce(c, nonce, s, t, u, i);
      assert t[j] == t[16 * i..16 * i + 16][j - 16 * i];
      assert u[j] == u[16 * i..16 * i + 16][j - 16 * i];
    }
    var y, p :| IsMask(c, nonce, m, y) && EndIsSealed(c, y, s, t, a, 16 * m, p);
    var z, q :| IsMask(c, nonce, m, z) && EndIsSealed(c, z, s, u, b, 16 * m, q);
    PowerIsUnique(y, z, c.E(nonce), m + 1);
    EndSealedOnce(c, z, s, t, a, p, u, b, q, 16 * m);
    assert t[..16 * m] == u[..16 * m];
    assert t == t[..16 * m] + t[16 * m..] && u == u[..16 * m] + u[16 * m..];
  }

  /** Sealing gives the one ciphertext and tag that fulfil the standard's equations. */
  lemma SealIsTheStandard(c: BlockCipher, nonce: Block, s: seq<byte>, t: seq<byte>, tag: Block, m: nat)
    requires c.Valid() && 16 * m <= |s| <= 16 * m + 16 && (|s| > 0 ==> |s| > 16 * m)
    ensures SealExact(c, nonce, s) == Sealed(t, tag, true) <==> IsSealed(c, nonce, s, t, tag, m)
  {
    hide SealExact;
    hide IsSealed;
    var z := SealExact(c, nonce, s);
    assert m == FullBlocks(|s|);
    SealExactIsSealed(c, nonce, s);
    SealIsOk(c, nonce, s);
    if IsSealed(c, nonce, s, t, tag, m) {
      SealedOnce(c, nonce, s, t, tag, z.text, z.tag, m);
    }
  }

  lemma SealIsOk(c: BlockCipher, nonce: Block, s: seq<byte>)
    ensures SealExact(c, nonce, s).ok
  {
  }

  /**
   * Opening gives the one text that the standard's equations take to that ciphertext, with
   * its tag, and reports whether the completed last block differs from its mask before the
   * last byte.
   */
  lemma OpenIsTheStandard(c: BlockCipher, nonce: Block, s: seq<byte>, t: seq<byte>, tag: Block, m: nat)
    requires c.Valid() && 16 * m <= |s| <= 16 * m + 16 && (|s| > 0 ==> |s| > 16 * m)
    ensures var o := Open(c, nonce, t);
            (o.text == s && o.tag == tag) <==> IsSealed(c, nonce, s, t, tag, m)
  {
    hide SealExact;
    hide Open;
    hide Collides;
    hide IsSealed;
    SealIsTheStandard(c, nonce, s, t, tag, m);
    SealOpened(c, nonce, t);
    OpenSealed(c, nonce, s);
    SealIsOk(c, nonce, s);
  }

  lemma OpenReports(c: BlockCipher, nonce: Block, t: seq<byte>, m: nat, z: Block, pad: Block)
    requires c.Valid() && 16 * m <= |t| <= 16 * m + 16 && (|t| > 0 ==> |t| > 16 * m)
    requires IsMask(c, nonce, m, z) && IsPad(c, z, |t| - 16 * m, pad)
    ensures var o := Open(c, nonce, t);
            |o.text| == |t| && (o.ok <==> exists j | 0 <= j < 15 :: (o.text[16 * m..] + pad[|t| - 16 * m..])[j] != z[j])
  {
    hide SealExact;
    hide OpenBlocks;
    hide IsPower;
    hide IsPad;
    hide LastPad;
    hide LastMask;
    hide OpenLast;
    hide TagOf;
    var o := Open(c, nonce, t);
    OpenSealed(c, nonce, o.text);
    SealOpened(c, nonce, t);
    LastMaskIsMask(c, nonce, |t|);
    PowerIsUnique(z, LastMask(c, nonce, |t|), c.E(nonce), m + 1);
    PadIsPad(c, nonce, |t|);
    PadOnce(c, z, |t| - 16 * m, pad, LastPad(c, nonce, |t|));
    var last := o.text[16 * m..] + pad[|t| - 16 * m..];
    assert last == Padded(LastOf(o.text), LastPad(c, nonce, |t|));
    SameFront(last, z);
  }

  lemma SameFront(a: Block, b: Block)
    ensures a[..15] == b[..15] <==> !exists j | 0 <= j < 15 :: a[j] != b[j]
  {
    if a[..15] == b[..15] {
      forall j | 0 <= j < 15
        ensures a[j] == b[j]
      {
        assert a[j] == a[..15][j] && b[j] == b[..15][j];
      }
    }
  }

  // ---- The counter-measure ----

  /** The texts whose second-to-last block starts with fifteen zero bytes change there, at the first byte. */
  lemma HardenedIff(s: seq<byte>, k: nat)
    requires |s| > 16 ==> k % 16 == 0 && 16 < |s| - k <= 32
    ensures Harden(s) == if |s| > 16 && (forall j | k <= j < k + 15 :: s[j] == ZeroByte()) then s[k := 1] else s
  {
    HardenSetsOneBit(s);
    if |s| > 16 {
      SuspiciousIff(s, k);
      assert 16 * (FullBlocks(|s|) - 1) == k;
    }
  }

  lemma SuspiciousIff(s: seq<byte>, k: nat)
    requires k % 16 == 0 && 16 < |s| - k <= 32
    ensures Suspicious(s) <==> forall j | k <= j < k + 15 :: s[j] == ZeroByte()
  {
    var b := s[k..k + 16];
    assert b == BlockAt(s, FullBlocks(|s|) - 1) && b[..15] == s[k..k + 15];
    AllZeros(s, k);
  }

  lemma AllZeros(s: seq<byte>, k: nat)
    requires k + 15 <= |s|
    ensures s[k..k + 15] == Zeros(15) <==> forall j | k <= j < k + 15 :: s[j] == ZeroByte()
  {
    if s[k..k + 15] == Zeros(15) {
      forall j | k <= j < k + 15
        ensures s[j] == ZeroByte()
      {
        assert s[k..k + 15][j - k] == Zeros(15)[j - k];
      }
    }
  }

  /** With the counter-measure the changed text is sealed; without it, a text it would change is reported. */
  lemma SealHardens(c: BlockCipher, nonce: Block, s: seq<byte>, counter: bool)
    ensures Seal(c, nonce, s, counter) ==
            SealExact(c, nonce, if counter then Harden(s) else s).(ok := counter || Harden(s) == s)
  {
    hide SealBlocks;
    hide TagOf;
    hide LastPad;
    hide SealLast;
    HardenSetsOneBit(s);
  }

  // ---- One value ----

  /** A cipher that moves the last byte to the front. */
  function Front(b: Block): Block {
    [b[15]] + b[..15]
  }

  function Back(b: Block): Block {
    b[1..] + [b[0]]
  }

  const ROTATION := BlockCipher(Front, Back)

  lemma RotationIsCipher()
    ensures ROTATION.Valid()
  {
    forall b: Block
      ensures Back(Front(b)) == b && Front(Back(b)) == b
    {
    }
  }

  /** The block with `x` at place `i`, `y` at place `j` and zeros elsewhere. */
  function Two(i: nat, x: byte, j: nat, y: byte): (b: Block)
    ensures forall k | 0 <= k < 16 :: b[k] == if k == i then x else if k == j then y else ZeroByte()
  {
    seq(16, k requires 0 <= k < 16 => if k == i then x else if k == j then y else ZeroByte())
  }

  lemma DoubleOfTop()
    ensures Double(Two(0, 0x80, 15, 0)) == Two(14, 0, 15, 0x87)
  {
    hide ShiftByte;
    hide ShiftLastByte;
    ShiftsOfTop();
    var b, r := Double(Two(0, 0x80, 15, 0)), Two(14, 0, 15, 0x87);
    forall i | 0 <= i < 16
      ensures b[i] == r[i]
    {
    }
  }

  lemma ShiftsOfTop()
    ensures ShiftByte(0x80, 0) == 0 && ShiftByte(0, 0) == 0 && ShiftLastByte(0, 0x80) == 0x87
  {
  }

  lemma DoubleOfFeedback()
    ensures Double(Two(14, 0, 15, 0x87)) == Two(14, 1, 15, 0x0E)
  {
    hide ShiftByte;
    hide ShiftLastByte;
    ShiftsOfFeedback();
    var b, r := Double(Two(14, 0, 15, 0x87)), Two(14, 1, 15, 0x0E);
    forall i | 0 <= i < 16
      ensures b[i] == r[i]
    {
    }
  }

  lemma ShiftsOfFeedback()
    ensures ShiftByte(0, 0) == 0 && ShiftByte(0, 0x87) == 1 && ShiftLastByte(0x87, 0) == 0x0E
  {
  }

  lemma XorAt(a: Block, b: Block, r: Block)
    requires forall k | 0 <= k < 16 :: XorByte(a[k], b[k]) == r[k]
    ensures Xor(a, b) == r
  {
  }

  lemma XorsOfVector()
    ensures Xor(Two(15, 8, 0, 0), Two(14, 0, 15, 0x87)) == Two(14, 0, 15, 0x8F)
    ensures Xor(Two(0, 0x8F, 1, 0), Two(0, 0x41, 1, 0)) == Two(0, 0xCE, 1, 0)
    ensures Xor(Two(14, 1, 15, 0x0E), Two(14, 0, 15, 0x87)) == Two(14, 1, 15, 0x89)
  {
    XorAt(Two(15, 8, 0, 0), Two(14, 0, 15, 0x87), Two(14, 0, 15, 0x8F));
    XorAt(Two(0, 0x8F, 1, 0), Two(0, 0x41, 1, 0), Two(0, 0xCE, 1, 0));
    XorAt(Two(14, 1, 15, 0x0E), Two(14, 0, 15, 0x87), Two(14, 1, 15, 0x89));
  }

  lemma FrontIs(b: Block, r: Block)
    requires r[0] == b[15] && forall k | 0 < k < 16 :: r[k] == b[k - 1]
    ensures Front(b) == r
  {
  }

  lemma FirstMask(l: Block)
    ensures Mask(l, 1) == Double(l)
  {
    hide Double;
    assert Mask(l, 0) == l;
  }

  lemma VectorMask()
    ensures LastMask(ROTATION, Two(15, 0x80, 0, 0), 1) == Two(14, 0, 15, 0x87)
  {
    hide Double;
    FrontIs(Two(15, 0x80, 0, 0), Two(0, 0x80, 15, 0));
    FirstMask(Two(0, 0x80, 15, 0));
    DoubleOfTop();
  }

  lemma LengthOfOne()
    ensures LengthBlock(1) == Two(15, 8, 0, 0)
  {
    var b, r := LengthBlock(1), Two(15, 8, 0, 0);
    assert b[15] == r[15];
    forall k: nat | k < 15
      ensures b[k] == r[k]
    {
      assert b[k] == Zeros(15)[k];
      assert Zeros(15)[k] == ZeroByte();
    }
  }

  lemma VectorPad()
    ensures LastPad(ROTATION, Two(15, 0x80, 0, 0), 1) == Two(0, 0x8F, 1, 0)
  {
    hide Xor;
    hide LastMask;
    VectorMask();
    XorsOfVector();
    LengthOfOne();
    FrontIs(Two(14, 0, 15, 0x8F), Two(0, 0x8F, 1, 0));
  }

  lemma VectorTag()
    ensures TagOf(ROTATION, Two(15, 0x80, 0, 0), [0x41], Two(0, 0x41, 1, 0)) == [0x89, 0x41] + Zeros(13) + [0x01]
  {
    hide Double;
    hide LastMask;
    VectorMask();
    DoubleOfFeedback();
    XorsOfVector();
    var sum: Block := [0x41] + Zeros(13) + [0x01, 0x89];
    XorAt(ZERO_BLOCK, Two(0, 0x41, 1, 0), Two(0, 0x41, 1, 0));
    XorAt(Two(14, 1, 15, 0x89), Two(0, 0x41, 1, 0), sum);
    FrontIs(sum, [0x89, 0x41] + Zeros(13) + [0x01]);
  }

  /** One byte under a nonce whose first mask takes the feedback: every byte of the answer. */
  lemma OneByteSealed()
    ensures ROTATION.Valid()
    ensures SealExact(ROTATION, Two(15, 0x80, 0, 0), [0x41]) ==
            Sealed([0xCE], [0x89, 0x41] + Zeros(13) + [0x01], true)
  {
    hide Xor;
    hide TagOf;
    hide LastPad;
    var s: seq<byte> := [0x41];
    RotationIsCipher();
    VectorPad();
    VectorTag();
    XorsOfVector();
    assert LastOf(s) == s;
    assert Padded(s, Two(0, 0x8F, 1, 0)) == Two(0, 0x41, 1, 0);
  }
}
