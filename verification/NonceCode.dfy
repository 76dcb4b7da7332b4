/**
 * The receiver's branches on the stored nonce: the low byte is replaced by the one in the
 * packet, and the bytes above it carry or borrow.
 */
module NonceCode {
  import opened Bytes
  import opened IvBytes
  import opened NonceTracker
  import opened Wrappers

  /** The branches of the receiver, on the low byte it holds and the one it was sent. */
  function BranchOffset(cur: int, b: int): Option<int> {
    if (cur + 1) % 256 == b then Some(1)
    else
      var diff := b - cur;
      var diff := if diff > 128 then diff - 256 else if diff < -128 then diff + 256 else diff;
      if b < cur && diff > -30 && diff < 0 then Some(diff)
      else if b > cur && diff > -30 && diff < 0 then Some(diff)
      else if b > cur && diff > 0 then Some(diff)
      else if b < cur && diff > 0 then Some(diff)
      else None
  }

  lemma BranchesFindWindow(c: int, b: int)
    requires 0 <= b < 256
    ensures BranchOffset(LowByte(c), b) == Offset(c, b)
  {
    var cur, q := c % 256, c / 256;
    assert b - c == (b - cur) - 256 * q;
    ModOfShift(q, b - cur);
    assert (b - cur) % 256 == if b >= cur then b - cur else b - cur + 256;
  }

  const HIGH_WRAP: int := 0x1_0000_0000_0000_0000_0000_0000_0000_00

  lemma NonceSizes()
    ensures Pow256(15) == HIGH_WRAP && Pow256(16) == WRAP == 256 * HIGH_WRAP
  {
    assert Pow256(4) == 0x1_0000_0000;
    assert Pow256(8) == 0x1_0000_0000_0000_0000;
    assert Pow256(12) == 0x1_0000_0000_0000_0000_0000_0000;
  }

  /** A new low byte and a carry of -1, 0 or 1 into the rest move the counter by `o`. */
  lemma MovedBy(cur: int, hi: int, b: int, k: int, o: int)
    requires 0 <= cur < 256 && 0 <= b < 256 && 0 <= hi < HIGH_WRAP && -1 <= k <= 1
    requires cur + o == b + 256 * k
    ensures (cur + 256 * hi + o) % WRAP ==
            b + 256 * (if hi + k == HIGH_WRAP then 0 else if hi + k < 0 then HIGH_WRAP - 1 else hi + k)
  {
    var v := b + 256 * (hi + k);
    assert cur + 256 * hi + o == v;
    if hi + k == HIGH_WRAP {
      ModShift(1, b);
    } else if hi + k < 0 {
      ModShift(-1, b + 256 * (HIGH_WRAP - 1));
    }
  }

  lemma SplitLow(b: int, h: int)
    requires 0 <= b < 256
    ensures (b + 256 * h) % 256 == b && (b + 256 * h) / 256 == h
  {
  }

  lemma ValueUnfolds(s: seq<byte>)
    requires |s| > 0
    ensures Value(s) == ByteValue(s[0]) + 256 * Value(s[1..])
  {
    hide ByteValue;
    hide Pow256;
  }

  lemma ValueSplit(s: seq<byte>)
    requires |s| == 16
    ensures Value(s) == ByteValue(s[0]) + 256 * Value(s[1..])
    ensures LowByte(Value(s)) == ByteValue(s[0]) && Value(s) / 256 == Value(s[1..])
    ensures 0 <= Value(s[1..]) < HIGH_WRAP && 0 <= Value(s) < WRAP
  {
    hide Pow256;
    hide ByteValue;
    hide Value;
    ValueUnfolds(s);
    NonceSizes();
    SplitLow(ByteValue(s[0]), Value(s[1..]));
  }

  /** The stored bytes `r` after a new low byte and a carry of `k`: the counter moved by `o`. */
  lemma Moved(s: seq<byte>, r: seq<byte>, k: int, o: int)
    requires |s| == |r| == 16 && -1 <= k <= 1
    requires ByteValue(s[0]) + o == ByteValue(r[0]) + 256 * k
    requires r[1..] == if k == 1 then Increment(s[1..]) else if k == -1 then Decrement(s[1..]) else s[1..]
    ensures Value(r) == (Value(s) + o) % WRAP
  {
    hide *;
    NonceSizes();
    ValueSplit(s);
    ValueSplit(r);
    IncrementAddsOne(s[1..]);
    DecrementTakesOne(s[1..]);
    MovedBy(ByteValue(s[0]), Value(s[1..]), ByteValue(r[0]), k, o);
  }

  lemma IncrementedHigh(s: seq<byte>, b: byte)
    requires |s| == 16
    ensures IncrementAt(s[0 := b], 1)[0] == b && IncrementAt(s[0 := b], 1)[1..] == Increment(s[1..])
    ensures DecrementAt(s[0 := b], 1)[0] == b && DecrementAt(s[0 := b], 1)[1..] == Decrement(s[1..])
    ensures s[0 := b][1..] == s[1..]
  {
    hide Increment;
    hide Decrement;
    assert s[0 := b][1..] == s[1..];
  }

  /** The packet carries the next nonce. */
  method NextIv(iv: array<byte>, ivbyte: byte)
    requires iv.Length == 16 && (ByteValue(iv[0]) + 1) % 256 == ByteValue(ivbyte)
    modifies iv
    ensures Value(iv[..]) == (Value(old(iv[..])) + 1) % WRAP && iv[0] == ivbyte
  {
    hide Increment;
    hide Decrement;
    hide IncrementAt;
    hide DecrementAt;
    hide Value;
    hide ByteValue;
    ghost var s := iv[..];
    IncrementedHigh(s, ivbyte);
    var cur, b := ByteValue(iv[0]), ByteValue(ivbyte);
    ghost var k := 0;
    if b > cur {
      iv[0] := ivbyte;
      assert iv[..] == s[0 := ivbyte];
    } else if b < cur {
      iv[0] := ivbyte;
      assert iv[..] == s[0 := ivbyte];
      IncrementFrom(iv, 1);
      k := 1;
    } else {
      assert false;
    }
    Moved(s, iv[..], k, 1);
  }

  /** The packet is early, late, or names no nonce near enough. */
  method OtherIv(iv: array<byte>, ivbyte: byte) returns (known: bool, late: int, lost: int, restore: bool)
    requires iv.Length == 16 && (ByteValue(iv[0]) + 1) % 256 != ByteValue(ivbyte)
    modifies iv
    ensures match BranchOffset(ByteValue(old(iv[0])), ByteValue(ivbyte))
            case None => !known && iv[..] == old(iv[..])
            case Some(o) =>
              && known && Value(iv[..]) == (Value(old(iv[..])) + o) % WRAP && iv[0] == ivbyte
              && o != 1 && (restore <==> o < 0)
              && late == (if o < 0 then 1 else 0) && lost == (if o < 0 then -1 else o - 1)
  {
    hide Increment;
    hide Decrement;
    hide IncrementAt;
    hide DecrementAt;
    hide Value;
    hide ByteValue;
    ghost var s := iv[..];
    IncrementedHigh(s, ivbyte);
    var cur, b := ByteValue(iv[0]), ByteValue(ivbyte);
    known, late, lost, restore := true, 0, 0, false;
    ghost var k := 0;
    var diff := b - cur;
    if diff > 128 {
      diff := diff - 256;
    } else if diff < -128 {
      diff := diff + 256;
    }
    if b < cur && diff > -30 && diff < 0 {
      late, lost := 1, -1;
      iv[0] := ivbyte;
      assert iv[..] == s[0 := ivbyte];
      restore := true;
    } else if b > cur && diff > -30 && diff < 0 {
      late, lost := 1, -1;
      iv[0] := ivbyte;
      assert iv[..] == s[0 := ivbyte];
      DecrementFrom(iv, 1);
      restore, k := true, -1;
    } else if b > cur && diff > 0 {
      lost := b - cur - 1;
      iv[0] := ivbyte;
      assert iv[..] == s[0 := ivbyte];
    } else if b < cur && diff > 0 {
      lost := 256 - cur + b - 1;
      iv[0] := ivbyte;
      assert iv[..] == s[0 := ivbyte];
      IncrementFrom(iv, 1);
      k := 1;
    } else {
      known := false;
      return;
    }
    Moved(s, iv[..], k, diff);
  }
}
