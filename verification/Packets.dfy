/**
 * Packets on the wire: low nonce byte, three bytes of tag, ciphertext. What a receiver in a
 * given state makes of a packet, and of the packets of a sender with the same key.
 */
module Packets {
  import opened Bytes
  import opened IvBytes
  import opened Ocb2
  import opened LossAccounting
  import opened NonceTracker
  import opened Wrappers

  function Nonce(v: int): Block {
    LittleEndian(v % WRAP, 16)
  }

  function PacketOf(c: BlockCipher, v: int, s: seq<byte>): (p: seq<byte>)
    ensures |p| == |s| + 4
  {
    SealKeepsLength(c, Nonce(v), s);
    var z := Seal(c, Nonce(v), s, true);
    [Nonce(v)[0]] + z.tag[..3] + z.text
  }

  lemma SealKeepsLength(c: BlockCipher, nonce: Block, s: seq<byte>)
    ensures |Seal(c, nonce, s, true).text| == |s|
  {
  }

  /** The packet opens under nonce `v` and the three bytes of tag it carries agree. */
  predicate Authentic(c: BlockCipher, v: int, p: seq<byte>)
    requires |p| >= 4
  {
    var o := Open(c, Nonce(v), p[4..]);
    o.ok && o.tag[..3] == p[1..4]
  }

  function EventOf(c: BlockCipher, t: Tracker, p: seq<byte>): Event
    requires |p| >= 4
  {
    var b := ByteValue(p[0]);
    match Offset(t.iv, b)
    case None => Event(b, false)
    case Some(o) => Event(b, Authentic(c, t.iv + o, p))
  }

  datatype Received = Received(t: Tracker, text: Option<seq<byte>>)

  function Receive(c: BlockCipher, t: Tracker, p: seq<byte>): (r: Received)
    requires t.Valid()
    ensures r.t.Valid()
  {
    if |p| < 4 then Received(t, None)
    else
      match Verdict(t, EventOf(c, t, p))
      case None => Received(t, None)
      case Some(o) => Received(Accept(t, o), Some(Open(c, Nonce(t.iv + o), p[4..]).text))
  }

  lemma NonceLowByte(v: int)
    ensures ByteValue(Nonce(v)[0]) == LowByte(v)
  {
    hide ByteValue;
    WrapKeepsBytes(v);
    ValueOfByteOf(v % WRAP % 256);
  }

  /** The replay check lets nonce `n` pass: it is the next one, or its slot shows another. */
  predicate Fresh(t: Tracker, n: int)
    requires t.Valid()
  {
    n == t.iv + 1 || t.history[LowByte(n)] != SecondByte(n)
  }

  /**
   * A packet sealed under any nonce of the receiver's window is accepted exactly when the
   * replay check passes and its padded last block does not collide; it is then delivered
   * with the sender's text, up to the announced bit, and otherwise nothing changes.
   */
  lemma EndToEnd(c: BlockCipher, t: Tracker, n: int, s: seq<byte>)
    requires c.Valid() && t.Valid() && InWindow(t.iv, n)
    ensures Receive(c, t, PacketOf(c, n, s)) ==
            if Fresh(t, n) && !Collides(c, Nonce(n), Harden(s)) then Received(Accept(t, n - t.iv), Some(Harden(s)))
            else Received(t, None)
  {
    hide Seal;
    hide Open;
    hide ByteValue;
    hide Nonce;
    hide Harden;
    hide Collides;
    hide Offset;
    hide InWindow;
    hide LowByte;
    hide SecondByte;
    var p, z := PacketOf(c, n, s), Seal(c, Nonce(n), s, true);
    assert p[4..] == z.text && p[1..4] == z.tag[..3];
    OcbRoundTrip(c, Nonce(n), s);
    NonceLowByte(n);
    LowByteRange(n);
    OffsetFindsWindow(t.iv, LowByte(n), n);
    WrapKeepsBytes(n);
  }

  /** The packet carries what sealing `s` under nonce `v` gives, and `s` does not collide. */
  predicate Carries(c: BlockCipher, v: int, s: seq<byte>, p: seq<byte>)
    requires |p| >= 4
  {
    var z := SealExact(c, Nonce(v), s);
    && ByteValue(p[0]) == LowByte(v)
    && p[4..] == z.text && p[1..4] == z.tag[..3]
    && !Collides(c, Nonce(v), s)
  }

  lemma PowerIsWrap()
    ensures Pow256(16) == WRAP
  {
    assert Pow256(4) == 0x1_0000_0000;
    assert Pow256(8) == 0x1_0000_0000 * Pow256(4);
    assert Pow256(12) == 0x1_0000_0000 * Pow256(8);
    assert Pow256(16) == 0x1_0000_0000 * Pow256(12);
  }

  /** A sent packet carries the hardened text, under the nonce that reads as the counter. */
  lemma PacketLayout(c: BlockCipher, v: int, s: seq<byte>)
    requires !Collides(c, Nonce(v), Harden(s))
    ensures Carries(c, v, Harden(s), PacketOf(c, v, s)) && Value(Nonce(v)) == v % WRAP
  {
    hide SealExact;
    hide Collides;
    hide Harden;
    hide Value;
    hide LittleEndian;
    NonceLowByte(v);
    PowerIsWrap();
    ValueOfLittleEndian(v % WRAP, 16);
    var p, z := PacketOf(c, v, s), Seal(c, Nonce(v), s, true);
    assert p[4..] == z.text && p[1..4] == z.tag[..3];
  }

  lemma CarriesIffAuthentic(c: BlockCipher, v: int, s: seq<byte>, p: seq<byte>)
    requires c.Valid() && |p| >= 4 && ByteValue(p[0]) == LowByte(v)
    ensures Carries(c, v, s, p) <==> Authentic(c, v, p) && Open(c, Nonce(v), p[4..]).text == s
  {
    hide SealExact;
    hide Open;
    hide Collides;
    hide Nonce;
    hide ByteValue;
    SealOpened(c, Nonce(v), p[4..]);
    OpenSealed(c, Nonce(v), s);
  }

  /**
   * Whatever bytes arrive, a text is delivered exactly when they carry its sealing under a
   * nonce of the window that the replay check lets pass, and the tracker then moves there.
   */
  lemma DeliveredIff(c: BlockCipher, t: Tracker, p: seq<byte>, s: seq<byte>)
    requires c.Valid() && t.Valid() && |p| >= 4
    ensures Receive(c, t, p).text == Some(s) <==>
            exists v :: InWindow(t.iv, v) && Fresh(t, v) && Carries(c, v, s, p)
  {
    hide Carries;
    hide Authentic;
    hide Open;
    hide ByteValue;
    hide Nonce;
    hide Offset;
    hide InWindow;
    hide SecondByte;
    hide LowByte;
    var b := ByteValue(p[0]);
    forall v | InWindow(t.iv, v) && LowByte(v) == b
      ensures Offset(t.iv, b) == Some(v - t.iv)
    {
      OffsetFindsWindow(t.iv, b, v);
    }
    forall v | Carries(c, v, s, p)
      ensures LowByte(v) == b
    {
      CarriesLowByte(c, v, s, p);
    }
    match Offset(t.iv, b)
    case None =>
    case Some(o) =>
      OffsetFindsWindow(t.iv, b, t.iv + o);
      CarriesIffAuthentic(c, t.iv + o, s, p);
      WrapKeepsBytes(t.iv + o);
  }

  lemma CarriesLowByte(c: BlockCipher, v: int, s: seq<byte>, p: seq<byte>)
    requires |p| >= 4 && Carries(c, v, s, p)
    ensures LowByte(v) == ByteValue(p[0])
  {
  }

  lemma RefusedUnmoved(c: BlockCipher, t: Tracker, p: seq<byte>)
    requires t.Valid() && Receive(c, t, p).text == None
    ensures Receive(c, t, p) == Received(t, None)
  {
  }

  /** A genuine packet with another byte in its tag is refused, and the receiver stays as it was. */
  lemma OtherTagRefused(c: BlockCipher, t: Tracker, n: int, s: seq<byte>, k: nat, b: byte)
    requires c.Valid() && t.Valid() && InWindow(t.iv, n)
    requires 1 <= k <= 3 && b != PacketOf(c, n, s)[k]
    ensures Receive(c, t, PacketOf(c, n, s)[k := b]) == Received(t, None)
  {
    hide Seal;
    hide Open;
    hide Nonce;
    hide ByteValue;
    hide Offset;
    hide InWindow;
    hide LowByte;
    hide SecondByte;
    var p, z := PacketOf(c, n, s), Seal(c, Nonce(n), s, true);
    var q := p[k := b];
    assert q[4..] == z.text && p[1..4] == z.tag[..3] && q[0] == p[0];
    assert q[1..4][k - 1] != p[1..4][k - 1];
    OcbRoundTrip(c, Nonce(n), s);
    NonceLowByte(n);
    LowByteRange(n);
    OffsetFindsWindow(t.iv, LowByte(n), n);
  }

  lemma LowByteRange(n: int)
    ensures 0 <= LowByte(n) < 256
  {
  }

  // ---- A lossless channel ----

  /** The packets of a sender that starts at counter `v`. */
  function SendAll(c: BlockCipher, v: int, msgs: seq<seq<byte>>): (ps: seq<seq<byte>>)
    ensures |ps| == |msgs|
    decreases |msgs|
  {
    if |msgs| == 0 then [] else [PacketOf(c, v + 1, msgs[0])] + SendAll(c, v + 1, msgs[1..])
  }

  /** The receiver's state after some packets, and what each of them delivered. */
  datatype Delivery = Delivery(t: Tracker, texts: seq<Option<seq<byte>>>)

  function ReceiveAll(c: BlockCipher, t: Tracker, ps: seq<seq<byte>>): (r: Delivery)
    requires t.Valid()
    ensures |r.texts| == |ps|
    decreases |ps|
  {
    if |ps| == 0 then Delivery(t, [])
    else
      var first := Receive(c, t, ps[0]);
      var rest := ReceiveAll(c, first.t, ps[1..]);
      Delivery(rest.t, [first.text] + rest.texts)
  }

  lemma OffsetIgnoresWraps(t: Tracker, n: int)
    requires t.Valid() && n % WRAP == t.iv
    ensures Nonce(n + 1) == Nonce(t.iv + 1) && (t.iv + 1) % WRAP == (n + 1) % WRAP
  {
    hide LittleEndian;
    WrapIsAdditive(n, 1);
  }

  lemma PacketIgnoresWraps(c: BlockCipher, n: int, m: int, s: seq<byte>)
    requires Nonce(n) == Nonce(m)
    ensures PacketOf(c, n, s) == PacketOf(c, m, s)
  {
  }

  /**
   * With equal counters, packets that arrive in order and complete are all delivered, as
   * long as none collides; the counters agree again at the end and nothing counts as lost.
   */
  lemma {:induction false} InOrderDelivery(c: BlockCipher, t: Tracker, v: int, msgs: seq<seq<byte>>)
    requires c.Valid() && t.Valid() && v % WRAP == t.iv
    requires forall i | 0 <= i < |msgs| :: !Collides(c, Nonce(v + 1 + i), Harden(msgs[i]))
    ensures var r := ReceiveAll(c, t, SendAll(c, v, msgs));
            && (forall i | 0 <= i < |msgs| :: r.texts[i] == Some(Harden(msgs[i])))
            && r.t.iv == (v + |msgs|) % WRAP
            && r.t.good == t.good + |msgs| && r.t.late == t.late && r.t.lost == t.lost
    decreases |msgs|
  {
    hide Collides;
    hide Harden;
    hide Nonce;
    hide PacketOf;
    hide Receive;
    if |msgs| > 0 {
      OffsetIgnoresWraps(t, v);
      PacketIgnoresWraps(c, v + 1, t.iv + 1, msgs[0]);
      assert !Collides(c, Nonce(v + 1 + 0), Harden(msgs[0]));
      EndToEnd(c, t, t.iv + 1, msgs[0]);
      forall i | 0 <= i < |msgs| - 1
        ensures !Collides(c, Nonce(v + 1 + 1 + i), Harden(msgs[1..][i]))
      {
        assert !Collides(c, Nonce(v + 1 + (i + 1)), Harden(msgs[i + 1]));
      }
      InOrderDelivery(c, Accept(t, 1), v + 1, msgs[1..]);
      var ps := SendAll(c, v, msgs);
      assert ps[1..] == SendAll(c, v + 1, msgs[1..]);
    }
  }

  // ---- What the runs of the tracker say about packets ----

  /** One received packet is one step of the tracker; one shorter than four bytes is none. */
  lemma ReceiveIsStep(c: BlockCipher, t: Tracker, p: seq<byte>)
    requires t.Valid()
    ensures Receive(c, t, p).t == if |p| < 4 then t else Step(t, EventOf(c, t, p))
    ensures Receive(c, t, p).text.Some? <==> |p| >= 4 && Verdict(t, EventOf(c, t, p)).Some?
  {
    hide Verdict;
    hide EventOf;
    hide Accept;
    hide Open;
  }

  /** The events that a sequence of packets brings, each judged in the state it meets. */
  function EventsMet(c: BlockCipher, t: Tracker, ps: seq<seq<byte>>): (es: seq<Event>)
    requires t.Valid()
    decreases |ps|
  {
    if |ps| == 0 then []
    else
      var rest := EventsMet(c, Receive(c, t, ps[0]).t, ps[1..]);
      if |ps[0]| < 4 then rest else [EventOf(c, t, ps[0])] + rest
  }

  /** The 128-bit nonces under which packets were opened and accepted, in order. */
  function NoncesOpened(c: BlockCipher, t: Tracker, ps: seq<seq<byte>>): seq<int>
    requires t.Valid()
    decreases |ps|
  {
    if |ps| == 0 then []
    else
      var first := Receive(c, t, ps[0]);
      var rest := NoncesOpened(c, first.t, ps[1..]);
      if first.text.None? then rest
      else [(t.iv + Verdict(t, EventOf(c, t, ps[0])).value) % WRAP] + rest
  }

  function Wrapped(vs: seq<int>): (r: seq<int>)
    ensures |r| == |vs|
  {
    seq(|vs|, i requires 0 <= i < |vs| => vs[i] % WRAP)
  }

  function RunFrom(w: World, es: seq<Event>): (r: World)
    requires w.t.Valid()
    ensures r.t.Valid()
    decreases |es|
  {
    if |es| == 0 then w else RunFrom(WorldStep(w, es[0]), es[1..])
  }

  lemma {:induction false} RunFromSnoc(w: World, es: seq<Event>, e: Event)
    requires w.t.Valid()
    ensures RunFrom(w, es + [e]) == WorldStep(RunFrom(w, es), e)
    decreases |es|
  {
    hide WorldStep;
    if |es| == 0 {
      assert es + [e] == [e] && [e][1..] == [];
      assert RunFrom(WorldStep(w, e), []) == WorldStep(w, e);
    } else {
      assert (es + [e])[1..] == es[1..] + [e];
      RunFromSnoc(WorldStep(w, es[0]), es[1..], e);
    }
  }

  lemma {:induction false} RunIsRunFrom(t: Tracker, es: seq<Event>)
    requires t.Valid()
    ensures Run(t, es) == RunFrom(Start(t), es)
    decreases |es|
  {
    hide WorldStep;
    if |es| > 0 {
      var prefix, e := es[..|es| - 1], es[|es| - 1];
      RunIsRunFrom(t, prefix);
      RunFromSnoc(Start(t), prefix, e);
      assert es == prefix + [e];
    }
  }

  lemma EventByteInRange(c: BlockCipher, t: Tracker, p: seq<byte>)
    requires t.Valid() && |p| >= 4
    ensures 0 <= EventOf(c, t, p).b < 256
  {
    hide ByteValue;
    hide Authentic;
    hide Offset;
  }

  lemma {:induction false} MetInRange(c: BlockCipher, t: Tracker, ps: seq<seq<byte>>)
    requires t.Valid()
    ensures InByteRange(EventsMet(c, t, ps))
    decreases |ps|
  {
    hide Receive;
    hide EventOf;
    if |ps| > 0 {
      MetInRange(c, Receive(c, t, ps[0]).t, ps[1..]);
      if |ps[0]| >= 4 {
        EventByteInRange(c, t, ps[0]);
      }
    }
  }

  /** What one step does to the unwrapped world. */
  lemma WorldStepIs(w: World, e: Event)
    requires w.t.Valid() && w.t.iv == w.c % WRAP
    ensures var r := WorldStep(w, e);
            && r.t == Step(w.t, e) && r.t.iv == r.c % WRAP
            && Wrapped(r.accepted) == Wrapped(w.accepted)
                 + match Verdict(w.t, e) case None => [] case Some(o) => [(w.t.iv + o) % WRAP]
  {
    match Verdict(w.t, e)
    case None =>
    case Some(o) =>
      WrapIsAdditive(w.c, o);
      hide Verdict;
      assert WorldStep(w, e).accepted == w.accepted + [w.c + o];
  }

  lemma {:induction false} ReceivingFrom(c: BlockCipher, w: World, ps: seq<seq<byte>>)
    requires w.t.Valid() && w.t.iv == w.c % WRAP
    ensures var r := RunFrom(w, EventsMet(c, w.t, ps));
            && ReceiveAll(c, w.t, ps).t == r.t
            && Wrapped(r.accepted) == Wrapped(w.accepted) + NoncesOpened(c, w.t, ps)
    decreases |ps|
  {
    hide Receive;
    hide EventOf;
    hide WorldStep;
    hide Step;
    hide Verdict;
    hide Wrapped;
    if |ps| > 0 {
      ReceiveIsStep(c, w.t, ps[0]);
      if |ps[0]| < 4 {
        ReceivingFrom(c, w, ps[1..]);
      } else {
        var e := EventOf(c, w.t, ps[0]);
        var v := WorldStep(w, e);
        WorldStepIs(w, e);
        ReceivingFrom(c, v, ps[1..]);
        var es := EventsMet(c, w.t, ps);
        assert es[0] == e && es[1..] == EventsMet(c, v.t, ps[1..]);
      }
    }
  }

  /** Receiving any byte strings one after the other is the tracker's run on the events met. */
  lemma ReceiveAllIsRun(c: BlockCipher, t: Tracker, ps: seq<seq<byte>>)
    requires t.Valid()
    ensures var w := Run(t, EventsMet(c, t, ps));
            && ReceiveAll(c, t, ps).t == w.t
            && Wrapped(w.accepted) == NoncesOpened(c, t, ps)
            && InByteRange(EventsMet(c, t, ps))
  {
    hide ReceiveAll;
    hide EventsMet;
    hide NoncesOpened;
    hide Run;
    RunIsRunFrom(t, EventsMet(c, t, ps));
    ReceivingFrom(c, Start(t), ps);
    MetInRange(c, t, ps);
    assert Wrapped([]) == [];
  }

  lemma {:induction false} RunReaches(t: Tracker, es: seq<Event>)
    requires t.Valid()
    ensures Run(t, es).c <= t.iv + 128 * |es|
  {
    if |es| > 0 {
      RunReaches(t, es[..|es| - 1]);
    }
  }

  lemma {:induction false} MetAtMostReceived(c: BlockCipher, t: Tracker, ps: seq<seq<byte>>)
    requires t.Valid()
    ensures |EventsMet(c, t, ps)| <= |ps|
    decreases |ps|
  {
    hide Receive;
    hide EventOf;
    if |ps| > 0 {
      MetAtMostReceived(c, Receive(c, t, ps[0]).t, ps[1..]);
    }
  }

  /**
   * Whatever byte strings arrive, no two are opened and accepted under the same nonce, unless
   * there are so many that the counter can have gone round.
   */
  lemma NoNonceOpensTwice(c: BlockCipher, t: Tracker, ps: seq<seq<byte>>)
    requires t.Valid() && 128 * |ps| + 29 < WRAP
    ensures Distinct(NoncesOpened(c, t, ps))
  {
    hide EventsMet;
    hide NoncesOpened;
    hide Run;
    ReceiveAllIsRun(c, t, ps);
    MetAtMostReceived(c, t, ps);
    RunReaches(t, EventsMet(c, t, ps));
    NoReplay(t, EventsMet(c, t, ps));
  }

  /**
   * The counters kept over the packets really received: `good` accounts for what is missing,
   * and `lost` is exactly what is missing and the excess.
   */
  lemma ReceivedLoss(c: BlockCipher, t: Tracker, ps: seq<seq<byte>>)
    requires t.Valid() && t.good == 0 && t.lost == 0
    ensures var es := EventsMet(c, t, ps);
            var w, r := Run(t, es), ReceiveAll(c, t, ps).t;
            && r.good + |Missing(w, t.iv)| == (w.c - t.iv) + |Early(w, t.iv)|
            && r.lost == |Missing(w, t.iv)| + Excess(t, es)
            && -|Early(w, t.iv)| <= Excess(t, es) <= 1
            && (Early(w, t.iv) == {} ==> Excess(t, es) == if EverCaughtUp(t, es) then 1 else 0)
  {
    hide *;
    ReceiveAllIsRun(c, t, ps);
    LossAccounting.LossAccounting(t, EventsMet(c, t, ps));
    ExcessIsCatchingUp(t, EventsMet(c, t, ps));
  }

  /** The late counter over the packets really received. */
  lemma ReceivedLate(c: BlockCipher, t: Tracker, ps: seq<seq<byte>>)
    requires t.Valid()
    ensures var w, r := Run(t, EventsMet(c, t, ps)), ReceiveAll(c, t, ps).t;
            r.late == t.late + |Behind(t.iv, w.accepted)| && r.good == t.good + |NoncesOpened(c, t, ps)|
  {
    hide *;
    ReceiveAllIsRun(c, t, ps);
    LateIsBehind(t, EventsMet(c, t, ps));
  }

  // ---- The replay check against packets never seen ----

  /** The check can stop a packet that was never received: a table of zeros, a counter of 5. */
  lemma UnseenIsRefused(c: BlockCipher, s: seq<byte>)
    requires c.Valid()
    ensures var t := Tracker(5, seq(256, _ => 0), 0, 0, 0);
            Receive(c, t, PacketOf(c, 7, s)) == Received(t, None)
  {
    hide Receive;
    hide PacketOf;
    EndToEnd(c, Tracker(5, seq(256, _ => 0), 0, 0, 0), 7, s);
  }

  /** All slots of the counters up to 128 ahead, but the next one, show those counters already. */
  ghost predicate Stalled(t: Tracker)
    requires t.Valid()
  {
    forall n | t.iv + 2 <= n <= t.iv + 128 :: t.history[LowByte(n)] == SecondByte(n)
  }

  /** So it is when the low byte leaves room for the window and the slots hold the second byte. */
  lemma FilledSlotsStall(t: Tracker)
    requires t.Valid() && LowByte(t.iv) < 128
    requires forall k | LowByte(t.iv) + 2 <= k <= LowByte(t.iv) + 128 :: t.history[k] == SecondByte(t.iv)
    ensures Stalled(t)
  {
    forall n | t.iv + 2 <= n <= t.iv + 128
      ensures t.history[LowByte(n)] == SecondByte(n)
    {
      var k := LowByte(t.iv) + (n - t.iv);
      assert n == 256 * (t.iv / 256) + k;
      assert LowByte(n) == k && n / 256 == t.iv / 256;
    }
  }

  /**
   * Then one lost packet stops the rest of the window: of any packets sealed under counters
   * from two to 128 ahead, in any order and number, none is delivered, and nothing moves.
   */
  lemma {:induction false} OneLossStalls(c: BlockCipher, t: Tracker, ns: seq<int>, msgs: seq<seq<byte>>)
    requires c.Valid() && t.Valid() && Stalled(t) && LowByte(t.iv) < 128
    requires |ns| == |msgs| && forall i | 0 <= i < |ns| :: t.iv + 2 <= ns[i] <= t.iv + 128
    ensures var r := ReceiveAll(c, t, SealedUnder(c, ns, msgs));
            r.t == t && forall i | 0 <= i < |r.texts| :: r.texts[i] == None
    decreases |ns|
  {
    hide PacketOf;
    hide Receive;
    hide Harden;
    hide Collides;
    hide Nonce;
    if |ns| > 0 {
      EndToEnd(c, t, ns[0], msgs[0]);
      OneLossStalls(c, t, ns[1..], msgs[1..]);
      var ps := SealedUnder(c, ns, msgs);
      assert ps[0] == PacketOf(c, ns[0], msgs[0]) && ps[1..] == SealedUnder(c, ns[1..], msgs[1..]);
    }
  }

  function SealedUnder(c: BlockCipher, ns: seq<int>, msgs: seq<seq<byte>>): (ps: seq<seq<byte>>)
    requires |ns| == |msgs|
    ensures |ps| == |ns|
  {
    seq(|ns|, i requires 0 <= i < |ns| => PacketOf(c, ns[i], msgs[i]))
  }

  /** Each of those counters is refused, whatever the text, if and only if its slot shows it. */
  lemma RefusedIff(c: BlockCipher, t: Tracker, n: int, s: seq<byte>)
    requires c.Valid() && t.Valid() && InWindow(t.iv, n) && n != t.iv + 1
    requires !Collides(c, Nonce(n), Harden(s))
    ensures Receive(c, t, PacketOf(c, n, s)) == Received(t, None) <==> t.history[LowByte(n)] == SecondByte(n)
  {
    hide PacketOf;
    hide Receive;
    hide Collides;
    hide Harden;
    hide Accept;
    EndToEnd(c, t, n, s);
  }
}
