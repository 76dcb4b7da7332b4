/** Two crypt states that share a key: what one encrypts next, the other decrypts. */
module CryptExchange {
  import opened Bytes
  import opened IvBytes
  import opened Ocb2
  import opened NonceTracker
  import opened Packets
  import opened CryptState
  import opened Wrappers

  /** With equal counters the next packet is accepted, whatever the receiver's tables hold. */
  lemma NextIsDelivered(c: BlockCipher, t: Tracker, s: seq<byte>)
    requires c.Valid() && t.Valid()
    requires !Collides(c, Nonce(t.iv + 1), Harden(s))
    ensures Receive(c, t, PacketOf(c, (t.iv + 1) % WRAP, s)) ==
            Received(t.(iv := (t.iv + 1) % WRAP,
                        history := t.history[LowByte((t.iv + 1) % WRAP) := SecondByte((t.iv + 1) % WRAP)],
                        good := t.good + 1),
                     Some(Harden(s)))
  {
    hide Collides;
    hide Harden;
    hide Nonce;
    hide PacketOf;
    hide Receive;
    NonceOfWrapped(t.iv + 1);
    PacketIgnoresWraps(c, (t.iv + 1) % WRAP, t.iv + 1, s);
    EndToEnd(c, t, t.iv + 1, s);
  }

  /** The sender and the receiver share no memory with each other or with the buffers. */
  ghost predicate Apart(sender: Crypt, receiver: Crypt, source: array<byte>, wire: array<byte>, dst: array<byte>)
    reads sender, receiver
  {
    && sender != receiver && sender.Valid() && receiver.Valid()
    && source != wire && wire != dst && source != dst
    && {source, wire, dst} !! {sender.encryptIv, sender.decryptIv, sender.decryptHistory}
    && {source, wire, dst} !! {receiver.encryptIv, receiver.decryptIv, receiver.decryptHistory}
    && sender.encryptIv !in {receiver.encryptIv, receiver.decryptIv, receiver.decryptHistory}
  }

  /** One message through both states: the text arrives and the counters agree again. */
  method Exchange(sender: Crypt, receiver: Crypt, source: array<byte>, wire: array<byte>, dst: array<byte>, n: nat)
    returns (ok: bool)
    requires Apart(sender, receiver, source, wire, dst)
    requires n <= source.Length && n + 4 <= wire.Length && n <= dst.Length
    requires sender.aes(sender.rawKey) == receiver.aes(receiver.rawKey)
    requires sender.aes(sender.rawKey).Valid()
    requires Value(sender.encryptIv[..]) == Value(receiver.decryptIv[..])
    requires !Collides(sender.aes(sender.rawKey), Nonce(Value(sender.encryptIv[..]) + 1), Harden(source[..n]))
    modifies sender.encryptIv, wire, dst
    modifies receiver`uiGood, receiver`uiLate, receiver`uiLost, receiver.decryptIv, receiver.decryptHistory
    ensures ok && dst[..n] == Harden(old(source[..n]))
    ensures Value(sender.encryptIv[..]) == Value(receiver.decryptIv[..]) == (Value(old(sender.encryptIv[..])) + 1) % WRAP
    ensures receiver.uiGood == old(receiver.uiGood) + 1
    ensures receiver.uiLate == old(receiver.uiLate) && receiver.uiLost == old(receiver.uiLost)
  {
    hide Value;
    hide Collides;
    hide Harden;
    hide Nonce;
    hide PacketOf;
    hide Receive;
    hide HistoryValues;
    hide LowByte;
    hide SecondByte;
    ghost var c, t, s := sender.aes(sender.rawKey), receiver.Tracking(), source[..n];
    NextIsDelivered(c, t, s);
    var sent := sender.Encrypt(source, wire, n);
    ok := receiver.Decrypt(wire, dst, n + 4);
  }
}
