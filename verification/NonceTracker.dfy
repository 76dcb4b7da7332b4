/**
 * The receiver's nonce tracking: from the low byte of a packet's nonce it rebuilds the full
 * 128-bit counter, rejects what it has seen, and keeps the good, late and lost counters.
 *
 * The counter is followed as an unwrapped integer; the receiver stores it modulo 2^128.
 */
module NonceTracker {
  import opened Wrappers

  const WRAP: int := 0x1_0000_0000_0000_0000_0000_0000_0000_0000

  /** The receiver's state: counter, replay table of second bytes, and statistics. */
  datatype Tracker = Tracker(iv: nat, history: seq<int>, good: nat, late: nat, lost: nat) {
    predicate Valid() {
      iv < WRAP && |history| == 256
    }
  }

  function LowByte(v: int): int {
    v % 256
  }

  function SecondByte(v: int): int {
    v / 256 % 256
  }

  // ---- Rebuilding the counter ----

  /** The counters the receiver at `c` can be moved to: a little back, further forward. */
  predicate InWindow(c: int, v: int) {
    v != c && c - 29 <= v <= c + 128 && (v == c + 128 ==> LowByte(c) < 128)
  }

  /** How far the packet with low byte `b` lies from `c`, when it lies in the window. */
  function Offset(c: int, b: int): Option<int> {
    var d := (b - c) % 256;
    if 1 <= d <= 127 || (d == 128 && LowByte(c) < 128) then Some(d)
    else if 227 <= d then Some(d - 256)
    else None
  }

  /** The offset finds the one counter of the window with that low byte, if there is one. */
  lemma OffsetFindsWindow(c: int, b: int, v: int)
    requires 0 <= b < 256
    ensures Offset(c, b) == Some(v - c) <==> InWindow(c, v) && LowByte(v) == b
  {
    var d := (b - c) % 256;
    if InWindow(c, v) && LowByte(v) == b {
      assert (v - c - (b - c)) % 256 == 0;
      if v > c {
        assert d == v - c;
      } else {
        assert d == v - c + 256;
      }
    }
  }

  lemma OffsetIsNone(c: int, b: int)
    requires 0 <= b < 256
    ensures Offset(c, b) == None <==> forall v :: InWindow(c, v) ==> LowByte(v) != b
  {
    match Offset(c, b)
    case Some(o) => OffsetFindsWindow(c, b, c + o);
    case None =>
      forall v | InWindow(c, v)
        ensures LowByte(v) != b
      {
        OffsetFindsWindow(c, b, v);
      }
  }

  /**
   * The window is meant to reach from 29 back to 128 forward. It does exactly when the low
   * byte of the counter is below 128; otherwise the step of +128 is refused.
   */
  lemma FullWindowIff(c: int)
    ensures (forall v | v != c && c - 29 <= v <= c + 128 :: Offset(c, LowByte(v)) == Some(v - c)) <==> LowByte(c) < 128
  {
    forall v
      ensures Offset(c, LowByte(v)) == Some(v - c) <==> InWindow(c, v)
    {
      OffsetFindsWindow(c, LowByte(v), v);
    }
    assert Offset(c, LowByte(c + 128)) == Some(c + 128 - c) <==> InWindow(c, c + 128);
  }

  /** The low bytes that are understood and those that are not, distance by distance. */
  lemma WindowByDistance(c: int, o: int)
    requires -128 <= o <= 128
    ensures Offset(c, (c + o) % 256) ==
            if -29 <= o <= -1 || 1 <= o <= 127 || (o == 128 && c % 256 <= 127) then Some(o)
            else if o == -128 && c % 256 <= 127 then Some(128) else None
  {
    ModOfShift(0, c + o);
    assert ((c + o) % 256 - c) % 256 == o % 256;
  }

  lemma StepOf128Refused()
    ensures Offset(200, LowByte(328)) == None
  {
  }

  // ---- One packet ----

  /** A packet as the tracker sees it: its nonce byte and whether it opens under that nonce. */
  datatype Event = Event(b: int, authentic: bool)

  /** The distance to the packet's counter, when the packet is accepted. */
  function Verdict(t: Tracker, e: Event): Option<int>
    requires t.Valid()
  {
    match Offset(t.iv, e.b)
    case None => None
    case Some(o) =>
      var v := (t.iv + o) % WRAP;
      if (o != 1 && t.history[LowByte(v)] == SecondByte(v)) || !e.authentic then None else Some(o)
  }

  /** Accepting the packet `o` away; a late one leaves the counter where it is. */
  function Accept(t: Tracker, o: int): (r: Tracker)
    requires t.Valid()
    ensures r.Valid()
  {
    var v := (t.iv + o) % WRAP;
    Tracker(if o < 0 then t.iv else v, t.history[LowByte(v) := SecondByte(v)], t.good + 1,
            if o < 0 then t.late + 1 else t.late,
            if o > 0 then t.lost + (o - 1) else if t.lost > 1 then t.lost - 1 else t.lost)
  }

  function Step(t: Tracker, e: Event): (r: Tracker)
    requires t.Valid()
    ensures r.Valid()
  {
    match Verdict(t, e)
    case None => t
    case Some(o) => Accept(t, o)
  }

  // ---- Runs ----

  /** The tracker together with its unwrapped counter and the counters accepted so far. */
  datatype World = World(t: Tracker, c: int, accepted: seq<int>)

  function Start(t: Tracker): World {
    World(t, t.iv, [])
  }

  function WorldStep(w: World, e: Event): (r: World)
    requires w.t.Valid()
    ensures r.t.Valid()
  {
    match Verdict(w.t, e)
    case None => w.(t := Step(w.t, e))
    case Some(o) => World(Step(w.t, e), if o < 0 then w.c else w.c + o, w.accepted + [w.c + o])
  }

  function Run(t: Tracker, es: seq<Event>): (w: World)
    requires t.Valid()
    ensures w.t.Valid()
  {
    if |es| == 0 then Start(t) else WorldStep(Run(t, es[..|es| - 1]), es[|es| - 1])
  }

  ghost predicate Distinct(s: seq<int>) {
    forall i, j | 0 <= i < j < |s| :: s[i] != s[j]
  }

  /** What every run keeps, for a start at `c0` with any history table. */
  ghost predicate Inv(w: World, c0: int) {
    && w.t.Valid()
    && w.t.iv == w.c % WRAP && c0 <= w.c
    && (forall v | v in w.accepted :: c0 - 29 <= v <= w.c)
    && Distinct(w.accepted)
    // every accepted counter a late packet could name again still shows in its slot
    && (forall v | v in w.accepted && w.c - 29 <= v :: w.t.history[LowByte(v)] == SecondByte(v))
  }

  lemma BytesOfShift(k: int, r: int)
    ensures LowByte(65536 * k + r) == LowByte(r) && SecondByte(65536 * k + r) == SecondByte(r)
  {
    assert (65536 * k + r) / 256 == 256 * k + r / 256;
  }

  lemma WrapKeepsBytes(v: int)
    ensures LowByte(v % WRAP) == LowByte(v) && SecondByte(v % WRAP) == SecondByte(v)
  {
    var k := v / WRAP * 0x1_0000_0000_0000_0000_0000_0000_0000;
    assert v == 65536 * k + v % WRAP;
    BytesOfShift(k, v % WRAP);
  }

  lemma OffsetOfWrapped(c: int, b: int)
    ensures Offset(c % WRAP, b) == Offset(c, b)
  {
    var k, r := c / WRAP * 0x100_0000_0000_0000_0000_0000_0000_0000, c % WRAP;
    assert c == 256 * k + r;
    ModOfShift(k, b - r);
    ModOfShift(-k, r);
  }

  lemma ModOfShift(k: int, x: int)
    ensures (x - 256 * k) % 256 == x % 256
  {
  }

  lemma WrapIsAdditive(c: int, o: int)
    ensures (c % WRAP + o) % WRAP == (c + o) % WRAP
  {
    var q := c / WRAP;
    assert c + o == q * WRAP + (c % WRAP + o);
    ModShift(q, c % WRAP + o);
  }

  lemma ModShift(q: int, r: int)
    ensures (q * WRAP + r) % WRAP == r % WRAP
  {
  }

  /** What an accepting verdict says about the unwrapped counter. */
  lemma VerdictUnwrapped(w: World, e: Event, c0: int, o: int)
    requires Inv(w, c0) && 0 <= e.b < 256 && Verdict(w.t, e) == Some(o)
    ensures InWindow(w.c, w.c + o) && LowByte(w.c + o) == e.b && e.authentic
    ensures o != 1 ==> w.t.history[LowByte(w.c + o)] != SecondByte(w.c + o)
    ensures Accept(w.t, o).iv == (if o < 0 then w.c else w.c + o) % WRAP
    ensures Accept(w.t, o).history == w.t.history[LowByte(w.c + o) := SecondByte(w.c + o)]
  {
    hide Offset;
    hide InWindow;
    hide SecondByte;
    OffsetOfWrapped(w.c, e.b);
    OffsetFindsWindow(w.c, e.b, w.c + o);
    WrapIsAdditive(w.c, o);
    WrapKeepsBytes(w.c + o);
  }

  lemma CloseBytesDiffer(u: int, v: int)
    requires u != v && -256 < u - v < 256
    ensures LowByte(u) != LowByte(v)
  {
  }

  lemma StepKeepsInv(w: World, e: Event, c0: int)
    requires Inv(w, c0) && 0 <= e.b < 256
    ensures Inv(WorldStep(w, e), c0)
  {
    hide Offset;
    hide SecondByte;
    match Verdict(w.t, e)
    case None =>
    case Some(o) =>
      VerdictUnwrapped(w, e, c0, o);
      hide Verdict;
      var v, r := w.c + o, WorldStep(w, e);
      assert r.t == Accept(w.t, o);
      hide Accept;
      assert v !in w.accepted;
      forall u | u in r.accepted && r.c - 29 <= u
        ensures r.t.history[LowByte(u)] == SecondByte(u)
      {
        if u != v {
          assert u in w.accepted;
          CloseBytesDiffer(u, v);
        }
      }
  }

  ghost predicate InByteRange(es: seq<Event>) {
    forall i | 0 <= i < |es| :: 0 <= es[i].b < 256
  }

  lemma {:induction false} RunKeepsInv(t: Tracker, es: seq<Event>)
    requires t.Valid() && InByteRange(es)
    ensures Inv(Run(t, es), t.iv)
  {
    if |es| > 0 {
      RunKeepsInv(t, es[..|es| - 1]);
      StepKeepsInv(Run(t, es[..|es| - 1]), es[|es| - 1], t.iv);
    }
  }

  /**
   * No counter is accepted twice in a run, whatever the history table held before; and as
   * long as the counter has not gone round, no 128-bit nonce is either.
   */
  lemma NoReplay(t: Tracker, es: seq<Event>)
    requires t.Valid() && InByteRange(es)
    ensures Distinct(Run(t, es).accepted)
    ensures var w := Run(t, es);
            w.c - t.iv + 29 < WRAP ==>
              forall i, j | 0 <= i < j < |w.accepted| :: w.accepted[i] % WRAP != w.accepted[j] % WRAP
  {
    RunKeepsInv(t, es);
    var w := Run(t, es);
    if w.c - t.iv + 29 < WRAP {
      forall i, j | 0 <= i < j < |w.accepted|
        ensures w.accepted[i] % WRAP != w.accepted[j] % WRAP
      {
        assert w.accepted[i] in w.accepted && w.accepted[j] in w.accepted;
        CloseNumbersDiffer(w.accepted[i], w.accepted[j]);
      }
    }
  }

  lemma CloseNumbersDiffer(u: int, v: int)
    requires u != v && -WRAP < u - v < WRAP
    ensures u % WRAP != v % WRAP
  {
  }
}
