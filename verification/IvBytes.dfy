/** A nonce as little-endian bytes: its value, and counting up and down in place. */
module IvBytes {
  import opened Bytes

  function Pow256(n: nat): (p: nat)
    ensures p > 0
  {
    if n == 0 then 1 else 256 * Pow256(n - 1)
  }

  function ByteValue(b: byte): (v: int)
    ensures 0 <= v < 256
  {
    b as int
  }

  function Value(s: seq<byte>): (v: int)
    ensures 0 <= v < Pow256(|s|)
  {
    if |s| == 0 then 0 else ByteValue(s[0]) + 256 * Value(s[1..])
  }

  function ByteOf(v: int): byte
    requires 0 <= v < 256
  {
    v as byte
  }

  /** The low `n` bytes of a number. */
  function LittleEndian(v: int, n: nat): (s: seq<byte>)
    ensures |s| == n
    decreases n
  {
    if n == 0 then [] else [ByteOf(v % 256)] + LittleEndian(v / 256, n - 1)
  }

  lemma ByteOfValue(b: byte)
    ensures ByteOf(ByteValue(b)) == b
  {
    ConvertThere(b);
  }

  lemma ConvertThere(b: byte)
    ensures (b as int) as byte == b
  {
  }

  /** Every number below 256 is the value of its byte: counted up from zero. */
  lemma {:induction false} ValueOfByteOf(v: int)
    requires 0 <= v < 256
    ensures ByteValue(ByteOf(v)) == v
    decreases v
  {
    if v == 0 {
      ZeroBytes();
    } else {
      hide ByteOf;
      hide ByteValue;
      hide NextByte;
      var b := ByteOf(v - 1);
      ValueOfByteOf(v - 1);
      NextByteValue(b);
      ByteOfValue(NextByte(b));
    }
  }

  lemma ZeroBytes()
    ensures ByteOf(0) == 0 && ByteValue(0) == 0
  {
  }

  lemma {:induction false} LittleEndianOfValue(s: seq<byte>)
    ensures LittleEndian(Value(s), |s|) == s
  {
    hide ByteOf;
    hide ByteValue;
    if |s| > 0 {
      LittleEndianOfValue(s[1..]);
      ByteOfValue(s[0]);
      assert Value(s) / 256 == Value(s[1..]) && Value(s) % 256 == ByteValue(s[0]);
    }
  }

  lemma {:induction false} ValueOfLittleEndian(v: int, n: nat)
    requires 0 <= v < Pow256(n)
    ensures Value(LittleEndian(v, n)) == v
  {
    if n > 0 {
      ValueOfLittleEndian(v / 256, n - 1);
      ValueOfByteOf(v % 256);
      hide ByteOf;
      hide ByteValue;
    }
  }

  // ---- Counting with carry and borrow ----

  function NextByte(b: byte): byte {
    b + 1
  }

  function PreviousByte(b: byte): byte {
    b - 1
  }

  lemma NextByteValue(b: byte)
    ensures ByteValue(NextByte(b)) == if ByteValue(b) == 255 then 0 else ByteValue(b) + 1
  {
  }

  lemma PreviousByteValue(b: byte)
    ensures ByteValue(PreviousByte(b)) == if ByteValue(b) == 0 then 255 else ByteValue(b) - 1
  {
  }

  lemma ZeroIffValueZero(b: byte)
    ensures b == 0 <==> ByteValue(b) == 0
  {
  }

  function Increment(s: seq<byte>): (r: seq<byte>)
    ensures |r| == |s|
  {
    if |s| == 0 then []
    else [NextByte(s[0])] + if NextByte(s[0]) != 0 then s[1..] else Increment(s[1..])
  }

  function Decrement(s: seq<byte>): (r: seq<byte>)
    ensures |r| == |s|
  {
    if |s| == 0 then []
    else [PreviousByte(s[0])] + if s[0] != 0 then s[1..] else Decrement(s[1..])
  }

  lemma {:induction false} IncrementAddsOne(s: seq<byte>)
    ensures Value(Increment(s)) == if Value(s) + 1 == Pow256(|s|) then 0 else Value(s) + 1
  {
    hide ByteValue;
    hide NextByte;
    hide PreviousByte;
    if |s| > 0 {
      NextByteValue(s[0]);
      ZeroIffValueZero(NextByte(s[0]));
      IncrementAddsOne(s[1..]);
      assert Increment(s)[1..] == if NextByte(s[0]) != 0 then s[1..] else Increment(s[1..]);
    }
  }

  lemma {:induction false} DecrementTakesOne(s: seq<byte>)
    ensures Value(Decrement(s)) == if Value(s) == 0 then Pow256(|s|) - 1 else Value(s) - 1
  {
    hide ByteValue;
    hide NextByte;
    hide PreviousByte;
    if |s| > 0 {
      PreviousByteValue(s[0]);
      ZeroIffValueZero(s[0]);
      DecrementTakesOne(s[1..]);
      assert Decrement(s)[1..] == if s[0] != 0 then s[1..] else Decrement(s[1..]);
    }
  }

  /** Counting up in the bytes from `i` on. */
  function IncrementAt(s: seq<byte>, i: nat): (r: seq<byte>)
    requires i <= |s|
    ensures |r| == |s|
  {
    s[..i] + Increment(s[i..])
  }

  lemma IncrementStep(t: seq<byte>, i: nat)
    requires i < |t|
    ensures var u := t[i := NextByte(t[i])];
            IncrementAt(t, i) == if NextByte(t[i]) != 0 then u else IncrementAt(u, i + 1)
  {
    hide NextByte;
    var u := t[i := NextByte(t[i])];
    assert t[i..][1..] == t[i + 1..] == u[i + 1..];
    assert u[..i + 1] == t[..i] + [NextByte(t[i])];
    assert NextByte(t[i]) != 0 ==> u == u[..i + 1] + t[i + 1..];
  }

  lemma IncrementAtEnd(s: seq<byte>)
    ensures IncrementAt(s, |s|) == s
  {
  }

  /** Counting down in the bytes from `i` on. */
  function DecrementAt(s: seq<byte>, i: nat): (r: seq<byte>)
    requires i <= |s|
    ensures |r| == |s|
  {
    s[..i] + Decrement(s[i..])
  }

  lemma DecrementStep(t: seq<byte>, i: nat)
    requires i < |t|
    ensures var u := t[i := PreviousByte(t[i])];
            DecrementAt(t, i) == if t[i] != 0 then u else DecrementAt(u, i + 1)
  {
    hide PreviousByte;
    var u := t[i := PreviousByte(t[i])];
    assert t[i..][1..] == t[i + 1..] == u[i + 1..];
    assert u[..i + 1] == t[..i] + [PreviousByte(t[i])];
    assert t[i] != 0 ==> u == u[..i + 1] + t[i + 1..];
  }

  lemma DecrementAtEnd(s: seq<byte>)
    ensures DecrementAt(s, |s|) == s
  {
  }

  /** Adds one at byte `from`, carrying upwards; a carry out of the last byte is dropped. */
  method IncrementFrom(iv: array<byte>, from: nat)
    requires from <= iv.Length
    modifies iv
    ensures iv[..] == IncrementAt(old(iv[..]), from)
  {
    hide *;
    ghost var cur := iv[..];
    for i := from to iv.Length
      invariant cur == iv[..] && IncrementAt(cur, i) == IncrementAt(old(iv[..]), from)
    {
      IncrementStep(cur, i);
      var b := iv[i];
      iv[i] := NextByte(b);
      cur := cur[i := NextByte(b)];
      if iv[i] != 0 {
        return;
      }
    }
    IncrementAtEnd(cur);
  }

  /** Takes one off at byte `from`, borrowing upwards. */
  method DecrementFrom(iv: array<byte>, from: nat)
    requires from <= iv.Length
    modifies iv
    ensures iv[..] == DecrementAt(old(iv[..]), from)
  {
    hide *;
    ghost var cur := iv[..];
    for i := from to iv.Length
      invariant cur == iv[..] && DecrementAt(cur, i) == DecrementAt(old(iv[..]), from)
    {
      DecrementStep(cur, i);
      var b := iv[i];
      iv[i] := PreviousByte(b);
      cur := cur[i := PreviousByte(b)];
      if b != 0 {
        return;
      }
    }
    DecrementAtEnd(cur);
  }
}
