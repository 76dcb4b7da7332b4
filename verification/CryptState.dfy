/**
 * The crypt state of one connection: key, the sender's nonce, the receiver's nonce with its
 * replay table, and the counters. Encrypting and decrypting packets change it in place.
 */
module CryptState {
  import opened Bytes
  import opened IvBytes
  import opened Ocb2
  import opened OcbCode
  import opened NonceTracker
  import opened NonceCode
  import opened Packets
  import opened Wrappers

  function HistoryValues(h: seq<byte>): (r: seq<int>)
    ensures |r| == |h|
  {
    seq(|h|, i requires 0 <= i < |h| => ByteValue(h[i]))
  }

  lemma SameByteValue(b: byte, d: byte)
    ensures b == d <==> ByteValue(b) == ByteValue(d)
  {
    ByteOfValue(b);
    ByteOfValue(d);
  }

  lemma HistoryUpdate(h: seq<byte>, i: nat, b: byte)
    requires i < |h|
    ensures HistoryValues(h[i := b]) == HistoryValues(h)[i := ByteValue(b)]
  {
  }

  /** The stored nonce bytes are those of the counter they stand for. */
  lemma StoredNonce(s: seq<byte>)
    requires |s| == 16
    ensures 0 <= Value(s) < WRAP && Nonce(Value(s)) == s
    ensures ByteValue(s[0]) == LowByte(Value(s)) && ByteValue(s[1]) == SecondByte(Value(s))
  {
    hide *;
    ValueSplit(s);
    ValueUnfolds(s[1..]);
    SplitLow(ByteValue(s[1]), Value(s[1..][1..]));
    SecondOfValue(Value(s));
    LittleEndianOfValue(s);
    NonceOfSmall(Value(s));
  }

  lemma SecondOfValue(v: int)
    ensures SecondByte(v) == v / 256 % 256
  {
  }

  lemma NonceOfSmall(v: int)
    requires 0 <= v < WRAP
    ensures Nonce(v) == LittleEndian(v, 16)
  {
    hide LittleEndian;
  }

  lemma NonceOfWrapped(v: int)
    ensures Nonce(v % WRAP) == Nonce(v)
  {
    hide LittleEndian;
  }

  class Crypt {
    /** The block cipher each raw key stands for. */
    const aes: Block -> BlockCipher

    var rawKey: Block
    const encryptIv: array<byte>
    const decryptIv: array<byte>
    const decryptHistory: array<byte>
    var uiGood: nat
    var uiLate: nat
    var uiLost: nat
    var bInit: bool

    ghost predicate Valid() {
      && encryptIv.Length == 16 && decryptIv.Length == 16 && decryptHistory.Length == 256
      && encryptIv != decryptIv && encryptIv != decryptHistory && decryptIv != decryptHistory
    }

    /** The receiver's side, as the tracker sees it. */
    ghost function Tracking(): (t: Tracker)
      requires Valid()
      reads this`uiGood, this`uiLate, this`uiLost, decryptIv, decryptHistory
      ensures t.Valid() && t.iv == Value(decryptIv[..])
    {
      StoredNonce(decryptIv[..]);
      Tracker(Value(decryptIv[..]), HistoryValues(decryptHistory[..]), uiGood, uiLate, uiLost)
    }

    constructor (aes: Block -> BlockCipher)
      ensures Valid() && fresh(encryptIv) && fresh(decryptIv) && fresh(decryptHistory)
      ensures this.aes == aes && rawKey == Zeros(16) && !bInit
      ensures encryptIv[..] == Zeros(16) && decryptIv[..] == Zeros(16) && decryptHistory[..] == Zeros(256)
      ensures uiGood == uiLate == uiLost == 0
    {
      this.aes := aes;
      rawKey := Zeros(16);
      encryptIv := new byte[16](_ => ZeroByte());
      decryptIv := new byte[16](_ => ZeroByte());
      decryptHistory := new byte[256](_ => ZeroByte());
      uiGood, uiLate, uiLost, bInit := 0, 0, 0, false;
    }

    /** Installs a key and both nonces; the replay table and the counters stay. */
    method SetKey(rkey: seq<byte>, eiv: seq<byte>, div: seq<byte>) returns (ok: bool)
      requires Valid()
      modifies this`rawKey, this`bInit, encryptIv, decryptIv
      ensures ok <==> |rkey| == 16 && |eiv| == 16 && |div| == 16
      ensures ok ==> rawKey == rkey && encryptIv[..] == eiv && decryptIv[..] == div && bInit
      ensures !ok ==> rawKey == old(rawKey) && bInit == old(bInit)
                      && encryptIv[..] == old(encryptIv[..]) && decryptIv[..] == old(decryptIv[..])
      ensures decryptHistory[..] == old(decryptHistory[..])
    {
      if |rkey| == 16 && |eiv| == 16 && |div| == 16 {
        rawKey := rkey;
        CopyInto(encryptIv, 0, eiv);
        CopyInto(decryptIv, 0, div);
        bInit := true;
        assert encryptIv[..] == encryptIv[0..16] && decryptIv[..] == decryptIv[0..16];
        return true;
      }
      return false;
    }

    /** Seals a message under the next nonce and puts the packet header in front of it. */
    method Encrypt(source: array<byte>, dst: array<byte>, plainLength: nat) returns (ok: bool)
      requires Valid() && plainLength <= source.Length && plainLength + 4 <= dst.Length
      requires dst != source && dst != encryptIv && source != encryptIv
      modifies encryptIv, dst
      ensures ok && Value(encryptIv[..]) == (Value(old(encryptIv[..])) + 1) % WRAP
      ensures dst[..plainLength + 4] ==
              PacketOf(aes(rawKey), Value(encryptIv[..]), old(source[..plainLength]))
    {
      hide Value;
      hide ByteValue;
      hide IncrementAt;
      hide Seal;
      hide PacketOf;
      hide Nonce;
      StoredNonce(encryptIv[..]);
      NonceSizes();
      IncrementWhole(encryptIv[..]);
      IncrementFrom(encryptIv, 0);
      ghost var iv := encryptIv[..];
      StoredNonce(iv);
      var tag;
      ok, tag := OcbEncrypt(aes(rawKey), source, 0, dst, 4, plainLength, encryptIv[..], true);
      dst[0] := encryptIv[0];
      dst[1] := tag[0];
      dst[2] := tag[1];
      dst[3] := tag[2];
      assert source[0..plainLength] == old(source[..plainLength]);
      Assembled(aes(rawKey), iv, old(source[..plainLength]), dst[..plainLength + 4], ok, tag);
    }

    /** The replay check: the slot of the stored nonce already shows its second byte. */
    method Replayed() returns (r: bool)
      requires Valid()
      ensures r <==> Tracking().history[LowByte(Tracking().iv)] == SecondByte(Tracking().iv)
    {
      hide Value;
      hide ByteValue;
      hide SecondByte;
      hide LowByte;
      StoredNonce(decryptIv[..]);
      SameByteValue(decryptHistory[ByteValue(decryptIv[0])], decryptIv[1]);
      r := decryptHistory[ByteValue(decryptIv[0])] == decryptIv[1];
    }

    /** Puts the nonce back to saved bytes. */
    method RestoreIv(saveiv: seq<byte>)
      requires Valid() && |saveiv| == 16
      modifies decryptIv
      ensures decryptIv[..] == saveiv && Tracking() == old(Tracking()).(iv := Value(saveiv))
    {
      hide Value;
      hide HistoryValues;
      CopyInto(decryptIv, 0, saveiv);
      assert decryptIv[..] == decryptIv[0..16];
    }

    /** Moves the stored nonce to the one right after it. */
    method StepNext(ivbyte: byte)
      requires Valid() && (ByteValue(decryptIv[0]) + 1) % 256 == ByteValue(ivbyte)
      modifies decryptIv
      ensures Tracking() == old(Tracking()).(iv := (old(Tracking()).iv + 1) % WRAP)
    {
      hide Value;
      hide ByteValue;
      hide HistoryValues;
      NextIv(decryptIv, ivbyte);
    }

    /** Moves the stored nonce to another one that is near enough. */
    method StepOther(ivbyte: byte) returns (known: bool, late: int, lost: int, restore: bool)
      requires Valid() && (ByteValue(decryptIv[0]) + 1) % 256 != ByteValue(ivbyte)
      modifies decryptIv
      ensures match BranchOffset(ByteValue(old(decryptIv[0])), ByteValue(ivbyte))
              case None => !known && decryptIv[..] == old(decryptIv[..]) && Tracking() == old(Tracking())
              case Some(o) =>
                && known && Tracking() == old(Tracking()).(iv := (old(Tracking()).iv + o) % WRAP)
                && o != 1 && (restore <==> o < 0)
                && late == (if o < 0 then 1 else 0) && lost == (if o < 0 then -1 else o - 1)
    {
      hide Value;
      hide ByteValue;
      hide HistoryValues;
      hide BranchOffset;
      known, late, lost, restore := OtherIv(decryptIv, ivbyte);
    }

    /**
     * Moves the stored nonce to the one the packet names, unless that is too far off or the
     * replay check stops it; then the stored nonce is put back.
     */
    method Locate(ivbyte: byte) returns (known: bool, late: int, lost: int, restore: bool)
      requires Valid()
      modifies decryptIv
      ensures !known ==> decryptIv[..] == old(decryptIv[..]) && Tracking() == old(Tracking())
      ensures known <==> Located(old(Tracking()), ByteValue(ivbyte)).Some?
      ensures known ==> var o := Located(old(Tracking()), ByteValue(ivbyte)).value;
                        && Tracking() == old(Tracking()).(iv := (old(Tracking()).iv + o) % WRAP)
                        && (restore <==> o < 0) && late == (if o < 0 then 1 else 0)
                        && lost == (if o < 0 then -1 else o - 1)
    {
      hide Value;
      hide ByteValue;
      hide BranchOffset;
      hide SecondByte;
      hide LowByte;
      hide HistoryValues;
      hide Located;
      hide Tracking;
      known, late, lost, restore := true, 0, 0, false;
      var saveiv := decryptIv[..];
      StoredNonce(saveiv);
      LocatedByBranch(Tracking(), ByteValue(ivbyte));
      FirstBranch(ByteValue(saveiv[0]), ByteValue(ivbyte));
      if (ByteValue(decryptIv[0]) + 1) % 256 == ByteValue(ivbyte) {
        StepNext(ivbyte);
      } else {
        known, late, lost, restore := StepOther(ivbyte);
        if !known {
          return;
        }
        var replayed := Replayed();
        if replayed {
          RestoreIv(saveiv);
          known := false;
        }
      }
    }

    /** Notes the stored nonce's second byte in its slot of the replay table. */
    method Record()
      requires Valid()
      modifies decryptHistory
      ensures var t := old(Tracking());
              Tracking() == t.(history := t.history[LowByte(t.iv) := SecondByte(t.iv)])
    {
      hide Value;
      hide ByteValue;
      hide SecondByte;
      hide LowByte;
      hide HistoryValues;
      StoredNonce(decryptIv[..]);
      HistoryUpdate(decryptHistory[..], ByteValue(decryptIv[0]), decryptIv[1]);
      ghost var h := decryptHistory[..][ByteValue(decryptIv[0]) := decryptIv[1]];
      decryptHistory[ByteValue(decryptIv[0])] := decryptIv[1];
      assert decryptHistory[..] == h;
    }

    /** Updates the counters, which never go below zero. */
    method Count(late: int, lost: int)
      requires Valid()
      modifies this`uiGood, this`uiLate, this`uiLost
      ensures uiGood == old(uiGood) + 1
      ensures uiLate == if late > 0 then old(uiLate) + late else if old(uiLate) > -late then old(uiLate) + late else old(uiLate)
      ensures uiLost == if lost > 0 then old(uiLost) + lost else if old(uiLost) > -lost then old(uiLost) + lost else old(uiLost)
    {
      uiGood := uiGood + 1;
      if late > 0 {
        uiLate := uiLate + late;
      } else if uiLate > Abs(late) {
        uiLate := uiLate - Abs(late);
      }
      if lost > 0 {
        uiLost := uiLost + lost;
      } else if uiLost > Abs(lost) {
        uiLost := uiLost - Abs(lost);
      }
    }

    /** Books an accepted packet: its slot, the counters, and the nonce of a late one put back. */
    method Commit(saveiv: seq<byte>, late: int, lost: int, restore: bool, ghost t: Tracker, ghost o: int)
      requires Valid() && |saveiv| == 16 && t.Valid() && Value(saveiv) == t.iv && o != 0
      requires Tracking() == t.(iv := (t.iv + o) % WRAP)
      requires (restore <==> o < 0) && late == (if o < 0 then 1 else 0) && lost == (if o < 0 then -1 else o - 1)
      modifies this`uiGood, this`uiLate, this`uiLost, decryptIv, decryptHistory
      ensures Tracking() == Accept(t, o)
    {
      hide Value;
      hide SecondByte;
      hide LowByte;
      hide HistoryValues;
      Record();
      ghost var v := (t.iv + o) % WRAP;
      LowByteRange(v);
      assert Tracking() == t.(iv := v, history := t.history[LowByte(v) := SecondByte(v)]);
      if restore {
        RestoreIv(saveiv);
      }
      Count(late, lost);
    }

    /** Opens the packet's ciphertext under the stored nonce and compares the tag bytes. */
    method Unseal(source: array<byte>, dst: array<byte>, cryptedLength: nat) returns (ok: bool)
      requires Valid() && 4 <= cryptedLength <= source.Length && cryptedLength <= dst.Length + 4
      requires dst != source && dst != decryptIv
      modifies dst
      ensures ok <==> Authentic(aes(rawKey), Tracking().iv, old(source[..cryptedLength]))
      ensures dst[..cryptedLength - 4] == Open(aes(rawKey), Nonce(Tracking().iv), old(source[4..cryptedLength])).text
    {
      hide Value;
      hide ByteValue;
      hide Open;
      hide Nonce;
      hide HistoryValues;
      hide SameAround;
      hide Tracking;
      ghost var p := source[..cryptedLength];
      var plainLength := cryptedLength - 4;
      StoredNonce(decryptIv[..]);
      var success, tag := OcbDecrypt(aes(rawKey), source, 4, dst, 0, plainLength, decryptIv[..]);
      assert source[4..4 + plainLength] == p[4..] && source[1..4] == p[1..4];
      assert dst[..plainLength] == dst[0..plainLength];
      ok := success && tag[..3] == source[1..4];
    }

    /**
     * Opens a packet. The receiver's state moves as the tracker says, on the packet's low
     * nonce byte and on whether it is authentic under the nonce rebuilt from it.
     */
    method Decrypt(source: array<byte>, dst: array<byte>, cryptedLength: nat) returns (ok: bool)
      requires Valid() && cryptedLength <= source.Length && cryptedLength <= dst.Length + 4
      requires dst != source && dst != decryptIv && dst != decryptHistory && dst != encryptIv
      requires source != decryptIv && source != decryptHistory
      modifies this`uiGood, this`uiLate, this`uiLost, decryptIv, decryptHistory, dst
      ensures var r := Receive(aes(rawKey), old(Tracking()), old(source[..cryptedLength]));
              && Tracking() == r.t && (ok <==> r.text.Some?)
              && (ok ==> dst[..cryptedLength - 4] == r.text.value)
      ensures !ok ==> decryptIv[..] == old(decryptIv[..]) && decryptHistory[..] == old(decryptHistory[..])
    {
      hide Value;
      hide ByteValue;
      hide Open;
      hide Nonce;
      hide HistoryValues;
      hide Receive;
      hide Located;
      hide Accept;
      hide Authentic;
      hide Tracking;
      if cryptedLength < 4 {
        ShortPacket(aes(rawKey), Tracking(), source[..cryptedLength]);
        return false;
      }
      ghost var t, p, c := Tracking(), source[..cryptedLength], aes(rawKey);
      var saveiv := decryptIv[..];
      var known, late, lost, restore := Locate(source[0]);
      if !known {
        NotLocated(c, t, p);
        return false;
      }
      ghost var o := Located(t, ByteValue(p[0])).value;
      assert source[4..cryptedLength] == p[4..];
      var authentic := Unseal(source, dst, cryptedLength);
      LocatedPacket(c, t, p, o);
      if !authentic {
        RestoreIv(saveiv);
        return false;
      }
      Commit(saveiv, late, lost, restore, t, o);
      return true;
    }
  }

  /** How far the packet with that nonce byte lies, when near enough and not seen before. */
  function Located(t: Tracker, b: int): Option<int>
    requires t.Valid()
  {
    match Offset(t.iv, b)
    case None => None
    case Some(o) =>
      var v := (t.iv + o) % WRAP;
      if o != 1 && t.history[LowByte(v)] == SecondByte(v) then None else Some(o)
  }

  lemma LocatedByBranch(t: Tracker, b: int)
    requires t.Valid() && 0 <= b < 256
    ensures match BranchOffset(LowByte(t.iv), b)
            case None => Located(t, b) == None
            case Some(o) =>
              var v := (t.iv + o) % WRAP;
              Located(t, b) == if o != 1 && t.history[LowByte(v)] == SecondByte(v) then None else Some(o)
  {
    hide BranchOffset;
    hide Offset;
    hide LowByte;
    BranchesFindWindow(t.iv, b);
  }

  lemma ShortPacket(c: BlockCipher, t: Tracker, p: seq<byte>)
    requires t.Valid() && |p| < 4
    ensures Receive(c, t, p) == Received(t, None)
  {
  }

  lemma NotLocated(c: BlockCipher, t: Tracker, p: seq<byte>)
    requires t.Valid() && |p| >= 4 && Located(t, ByteValue(p[0])) == None
    ensures Receive(c, t, p) == Received(t, None)
  {
    hide ByteValue;
    hide Offset;
    hide Authentic;
    hide LowByte;
    hide SecondByte;
    assert Verdict(t, EventOf(c, t, p)) == None;
  }

  lemma LocatedPacket(c: BlockCipher, t: Tracker, p: seq<byte>, o: int)
    requires t.Valid() && |p| >= 4 && Located(t, ByteValue(p[0])) == Some(o)
    ensures o != 0
    ensures var v := (t.iv + o) % WRAP;
            Receive(c, t, p) == if Authentic(c, v, p) then Received(Accept(t, o), Some(Open(c, Nonce(v), p[4..]).text))
                                else Received(t, None)
  {
    hide ByteValue;
    hide Open;
    hide Nonce;
    hide Accept;
    NonceOfWrapped(t.iv + o);
    OffsetIsNotZero(t.iv, ByteValue(p[0]));
    hide Offset;
  }

  lemma OffsetIsNotZero(c: int, b: int)
    ensures Offset(c, b) != Some(0)
  {
  }

  function Abs(x: int): nat {
    if x < 0 then -x else x
  }

  lemma FirstBranch(cur: int, b: int)
    ensures BranchOffset(cur, b) == Some(1) || (cur + 1) % 256 != b
    ensures (cur + 1) % 256 == b ==> BranchOffset(cur, b) == Some(1)
  {
  }

  lemma IncrementWhole(s: seq<byte>)
    requires |s| == 16
    ensures Value(IncrementAt(s, 0)) == (Value(s) + 1) % WRAP
  {
    hide *;
    NonceSizes();
    StoredNonce(s);
    IncrementAddsOne(s);
    IncrementAtZero(s);
    NextModulo(Value(s));
  }

  lemma NextModulo(v: int)
    requires 0 <= v < WRAP
    ensures (v + 1) % WRAP == if v + 1 == WRAP then 0 else v + 1
  {
  }

  lemma IncrementAtZero(s: seq<byte>)
    ensures IncrementAt(s, 0) == Increment(s)
  {
    hide Increment;
    assert s[..0] == [] && s[0..] == s;
  }

  lemma Assembled(c: BlockCipher, iv: seq<byte>, s: seq<byte>, p: seq<byte>, ok: bool, tag: Block)
    requires |iv| == 16 && |p| == |s| + 4
    requires Sealed(p[4..], tag, ok) == Seal(c, iv, s, true)
    requires p[0] == iv[0] && p[1] == tag[0] && p[2] == tag[1] && p[3] == tag[2]
    ensures ok && p == PacketOf(c, Value(iv), s)
  {
    hide *;
    StoredNonce(iv);
    SealSucceeds(c, iv, s);
    HeaderBytes(p, tag);
    PacketShape(c, Value(iv), s);
  }

  lemma HeaderBytes(p: seq<byte>, tag: Block)
    requires |p| >= 4 && p[1] == tag[0] && p[2] == tag[1] && p[3] == tag[2]
    ensures p == [p[0]] + tag[..3] + p[4..]
  {
    assert p == [p[0]] + [p[1], p[2], p[3]] + p[4..];
    assert tag[..3] == [tag[0], tag[1], tag[2]];
  }

  lemma PacketShape(c: BlockCipher, v: int, s: seq<byte>)
    ensures var z := Seal(c, Nonce(v), s, true);
            PacketOf(c, v, s) == [Nonce(v)[0]] + z.tag[..3] + z.text
  {
    hide Seal;
    hide Nonce;
  }

  lemma SealSucceeds(c: BlockCipher, nonce: Block, s: seq<byte>)
    ensures Seal(c, nonce, s, true).ok
  {
  }
}
