/**
 * What the good and lost counters say after a run that began with both at zero: how they
 * relate to the counters really missing between the start and now.
 */
module LossAccounting {
  import opened NonceTracker
  import opened Wrappers

  /** The counters after `c0` up to `c`. */
  function Interval(c0: int, c: int): set<int> {
    set v | c0 < v <= c && Between(c0, v, c)
  }

  predicate Between(c0: int, v: int, c: int) {
    c0 < v <= c
  }

  function Seen(w: World): set<int> {
    set v | v in w.accepted
  }

  /** Counters passed over and never accepted. */
  function Missing(w: World, c0: int): set<int> {
    Interval(c0, w.c) - Seen(w)
  }

  /** Accepted counters from before the start of the run. */
  function Early(w: World, c0: int): set<int> {
    Seen(w) - Interval(c0, w.c)
  }

  lemma {:induction false} IntervalSize(c0: int, c: int)
    requires c0 <= c
    ensures |Interval(c0, c)| == c - c0
    decreases c - c0
  {
    if c0 < c {
      IntervalSize(c0, c - 1);
      assert Interval(c0, c) == Interval(c0, c - 1) + {c};
    } else {
      assert Interval(c0, c) == {};
    }
  }

  lemma {:induction false} DistinctSize(s: seq<int>)
    requires Distinct(s)
    ensures |set v | v in s| == |s|
  {
    if |s| > 0 {
      var p, last := s[..|s| - 1], s[|s| - 1];
      assert s == p + [last];
      DistinctSize(p);
      assert (set v | v in s) == (set v | v in p) + {last};
    }
  }

  /**
   * Good packets and missing ones together make up the distance travelled, plus the
   * packets that were already behind the start.
   */
  lemma GoodPlusMissing(w: World, c0: int)
    requires Inv(w, c0)
    ensures |w.accepted| + |Missing(w, c0)| == (w.c - c0) + |Early(w, c0)|
  {
    IntervalSize(c0, w.c);
    DistinctSize(w.accepted);
    var i, a := Interval(c0, w.c), Seen(w);
    assert i - a == i - (i * a) && a - i == a - (i * a);
  }

  /** What accepting the packet `o` away does to the missing and the early counters. */
  lemma StepMoves(w: World, e: Event, c0: int, o: int)
    requires Inv(w, c0) && 0 <= e.b < 256 && Verdict(w.t, e) == Some(o)
    ensures var r := WorldStep(w, e);
            var v := w.c + o;
            && (o > 0 ==> Missing(r, c0) == Missing(w, c0) + Interval(w.c, v - 1) && Early(r, c0) == Early(w, c0)
                          && Missing(w, c0) !! Interval(w.c, v - 1))
            && (o < 0 && v > c0 ==> v in Missing(w, c0) && Missing(r, c0) == Missing(w, c0) - {v}
                                    && Early(r, c0) == Early(w, c0))
            && (o < 0 && v <= c0 ==> Missing(r, c0) == Missing(w, c0) && Early(r, c0) == Early(w, c0) + {v}
                                     && v !in Early(w, c0))
  {
    StepKeepsInv(w, e, c0);
    VerdictUnwrapped(w, e, c0, o);
    hide Verdict;
    var v, r := w.c + o, WorldStep(w, e);
    assert r.accepted == w.accepted + [v];
    assert Seen(r) == Seen(w) + {v};
    assert r.accepted[|w.accepted|] == v;
    assert v !in Seen(w);
  }

  // ---- The counters over a run ----

  ghost predicate Balanced(w: World, c0: int) {
    && w.t.good == |w.accepted|
    && -|Early(w, c0)| <= w.t.lost - |Missing(w, c0)| <= 1
  }

  /** The packet is late and fills the only gap left. */
  ghost predicate ClosesLastGap(w: World, e: Event, c0: int)
    requires w.t.Valid()
  {
    Verdict(w.t, e).Some? && Verdict(w.t, e).value < 0 && |Missing(w, c0)| == 1
  }

  /** At some moment of the run a late packet filled the only gap left. */
  ghost predicate EverCaughtUp(t: Tracker, es: seq<Event>)
    requires t.Valid()
  {
    |es| > 0 && (EverCaughtUp(t, es[..|es| - 1]) || ClosesLastGap(Run(t, es[..|es| - 1]), es[|es| - 1], t.iv))
  }

  lemma AcceptedStep(w: World, e: Event, c0: int, o: int)
    requires Inv(w, c0) && 0 <= e.b < 256 && Verdict(w.t, e) == Some(o)
    ensures w.t.Valid() && WorldStep(w, e).t == Accept(w.t, o) && o != 0
    ensures |WorldStep(w, e).accepted| == |w.accepted| + 1
  {
    VerdictUnwrapped(w, e, c0, o);
  }

  /** A packet from further on adds what it skips to the missing, and to the lost counter. */
  lemma ForwardCounts(w: World, e: Event, c0: int, o: int)
    requires Inv(w, c0) && 0 <= e.b < 256 && Verdict(w.t, e) == Some(o) && o > 0
    ensures var r := WorldStep(w, e);
            && |Missing(r, c0)| == |Missing(w, c0)| + (o - 1) && |Early(r, c0)| == |Early(w, c0)|
            && r.t.lost == w.t.lost + (o - 1) && r.t.good == w.t.good + 1
  {
    hide *;
    StepMoves(w, e, c0, o);
    AcceptedStep(w, e, c0, o);
    AcceptCounts(w.t, o);
    IntervalSize(w.c, w.c + o - 1);
    DisjointSize(Missing(w, c0), Interval(w.c, w.c + o - 1));
  }

  /** A late packet takes itself off the missing, or was missed before the run began. */
  lemma LateCounts(w: World, e: Event, c0: int, o: int)
    requires Inv(w, c0) && 0 <= e.b < 256 && Verdict(w.t, e) == Some(o) && o <= 0
    ensures var r := WorldStep(w, e);
            && (w.c + o > c0 ==> |Missing(r, c0)| == |Missing(w, c0)| - 1 && |Early(r, c0)| == |Early(w, c0)|)
            && (w.c + o <= c0 ==> |Missing(r, c0)| == |Missing(w, c0)| && |Early(r, c0)| == |Early(w, c0)| + 1)
            && r.t.lost == (if w.t.lost > 1 then w.t.lost - 1 else w.t.lost) && r.t.good == w.t.good + 1
            && o < 0
  {
    hide *;
    StepMoves(w, e, c0, o);
    AcceptedStep(w, e, c0, o);
    AcceptCounts(w.t, o);
    var r, v := WorldStep(w, e), w.c + o;
    if v > c0 {
      DisjointSize(Missing(r, c0), {v});
      assert Missing(w, c0) == Missing(r, c0) + {v};
    } else {
      DisjointSize(Early(w, c0), {v});
    }
  }

  lemma DisjointSize(a: set<int>, b: set<int>)
    requires a !! b
    ensures |a + b| == |a| + |b|
  {
  }

  lemma AcceptCounts(t: Tracker, o: int)
    requires t.Valid()
    ensures var r := Accept(t, o);
            && r.good == t.good + 1
            && (o > 0 ==> r.lost == t.lost + (o - 1))
            && (o < 0 ==> r.lost == if t.lost > 1 then t.lost - 1 else t.lost)
  {
  }

  lemma {:induction false} RunIsBalanced(t: Tracker, es: seq<Event>)
    requires t.Valid() && t.good == 0 && t.lost == 0 && InByteRange(es)
    ensures Balanced(Run(t, es), t.iv)
  {
    if |es| == 0 {
      IntervalSize(t.iv, t.iv);
      assert Missing(Start(t), t.iv) == {} && Early(Start(t), t.iv) == {};
    } else {
      var w, e := Run(t, es[..|es| - 1]), es[|es| - 1];
      RunIsBalanced(t, es[..|es| - 1]);
      RunKeepsInv(t, es[..|es| - 1]);
      match Verdict(w.t, e)
      case None =>
      case Some(o) =>
        AcceptedStep(w, e, t.iv, o);
        if o > 0 {
          ForwardCounts(w, e, t.iv, o);
        } else {
          LateCounts(w, e, t.iv, o);
        }
        hide Missing;
        hide Early;
    }
  }

  /** What the guard of the decrement makes of one accepted packet: too many, or too few. */
  function Slip(w: World, e: Event, c0: int): int
    requires w.t.Valid()
  {
    match Verdict(w.t, e)
    case None => 0
    case Some(o) =>
      if o < 0 && w.c + o > c0 && w.t.lost <= 1 then 1
      else if o < 0 && w.c + o <= c0 && w.t.lost > 1 then -1
      else 0
  }

  /**
   * How far the lost counter is off after a run: one more for each late packet of the run that
   * met a counter of one or less, one less for each packet from before the run that met more.
   */
  function Excess(t: Tracker, es: seq<Event>): int
    requires t.Valid()
  {
    if |es| == 0 then 0
    else Excess(t, es[..|es| - 1]) + Slip(Run(t, es[..|es| - 1]), es[|es| - 1], t.iv)
  }

  /** The lost counter is known exactly after every run. */
  lemma {:induction false} LostIsExact(t: Tracker, es: seq<Event>)
    requires t.Valid() && t.lost == 0 && InByteRange(es)
    ensures Run(t, es).t.lost == |Missing(Run(t, es), t.iv)| + Excess(t, es)
  {
    if |es| == 0 {
      assert Missing(Start(t), t.iv) == {};
    } else {
      var w, e := Run(t, es[..|es| - 1]), es[|es| - 1];
      LostIsExact(t, es[..|es| - 1]);
      RunKeepsInv(t, es[..|es| - 1]);
      match Verdict(w.t, e)
      case None =>
      case Some(o) =>
        if o > 0 {
          ForwardCounts(w, e, t.iv, o);
        } else {
          LateCounts(w, e, t.iv, o);
        }
        hide Missing;
        hide Early;
    }
  }

  /**
   * After any run from zero counters: good packets plus missing ones account for every
   * counter since the start; the lost counter is the missing ones and the excess, which is at
   * most one, and below zero by at most the packets from before the start.
   */
  lemma LossAccounting(t: Tracker, es: seq<Event>)
    requires t.Valid() && t.good == 0 && t.lost == 0 && InByteRange(es)
    ensures var w := Run(t, es);
            && w.t.good + |Missing(w, t.iv)| == (w.c - t.iv) + |Early(w, t.iv)|
            && w.t.lost == |Missing(w, t.iv)| + Excess(t, es)
            && -|Early(w, t.iv)| <= Excess(t, es) <= 1
  {
    RunIsBalanced(t, es);
    RunKeepsInv(t, es);
    GoodPlusMissing(Run(t, es), t.iv);
    LostIsExact(t, es);
  }

  /**
   * Without packets from before the start, the excess is zero until a late packet first fills
   * the only gap left; from then on it is one.
   */
  lemma {:induction false} ExcessIsCatchingUp(t: Tracker, es: seq<Event>)
    requires t.Valid() && t.good == 0 && t.lost == 0 && InByteRange(es)
    ensures Early(Run(t, es), t.iv) == {} ==> Excess(t, es) == if EverCaughtUp(t, es) then 1 else 0
  {
    if |es| > 0 {
      var w, e := Run(t, es[..|es| - 1]), es[|es| - 1];
      RunKeepsInv(t, es[..|es| - 1]);
      LostIsExact(t, es[..|es| - 1]);
      ExcessIsCatchingUp(t, es[..|es| - 1]);
      match Verdict(w.t, e)
      case None =>
      case Some(o) =>
        if o > 0 {
          ForwardCounts(w, e, t.iv, o);
        } else {
          LateCounts(w, e, t.iv, o);
        }
        EarlyNeverShrinks(w, e, t.iv, o);
        hide Missing;
        hide Early;
    }
  }

  lemma EarlyNeverShrinks(w: World, e: Event, c0: int, o: int)
    requires Inv(w, c0) && 0 <= e.b < 256 && Verdict(w.t, e) == Some(o)
    ensures Early(w, c0) <= Early(WorldStep(w, e), c0)
    ensures o < 0 && w.c + o <= c0 ==> Early(WorldStep(w, e), c0) != {}
  {
    StepMoves(w, e, c0, o);
    VerdictUnwrapped(w, e, c0, o);
    if o < 0 && w.c + o <= c0 {
      assert w.c + o in Early(WorldStep(w, e), c0);
    }
  }

  // ---- Inputs ----

  lemma RunOfTwo(t: Tracker, a: Event, b: Event)
    requires t.Valid()
    ensures Run(t, [a, b]) == WorldStep(WorldStep(Start(t), a), b)
  {
    hide WorldStep;
    assert [a, b][..1] == [a] && [a][..0] == [];
    assert Run(t, []) == Start(t);
    assert Run(t, [a]) == WorldStep(Start(t), a);
  }

  /** A tracker at 100, none of whose slots shows the second byte zero. */
  function Sample(): Tracker {
    Tracker(100, seq(256, _ => 7), 0, 0, 0)
  }

  /** The first packet skips some counters. */
  lemma SampleSkips(b: int, c: nat)
    requires 101 <= b <= 200 && c == b - 101
    ensures var w := WorldStep(Start(Sample()), Event(b, true));
            w == World(Tracker(b, Sample().history[b := 0], 1, 0, c), b, [b])
  {
  }

  /** The second one is late. */
  lemma SampleIsLate(b: int, v: int)
    requires 101 <= b <= 200 && b - 29 <= v < b
    ensures var w := Run(Sample(), [Event(b, true), Event(v, true)]);
            && w.c == b && w.accepted == [b, v]
            && w.t.lost == if b - 101 > 1 then b - 102 else b - 101
  {
    RunOfTwo(Sample(), Event(b, true), Event(v, true));
    SampleSkips(b, b - 101);
    var w := WorldStep(Start(Sample()), Event(b, true));
    hide WorldStep;
    LateStep(w, b, v);
  }

  lemma LateStep(w: World, b: int, v: int)
    requires 101 <= b <= 200 && b - 29 <= v < b
    requires w == World(Tracker(b, Sample().history[b := 0], 1, 0, b - 101), b, [b])
    ensures var r := WorldStep(w, Event(v, true));
            && r.c == b && r.accepted == [b, v]
            && r.t.lost == if b - 101 > 1 then b - 102 else b - 101
  {
    OffsetFindsWindow(b, v, v);
    assert Offset(b, v) == Some(v - b);
    hide Offset;
    assert w.t.history[v] == 7;
    assert SecondByte(v) == 0 && LowByte(v) == v;
    assert Verdict(w.t, Event(v, true)) == Some(v - b);
  }

  lemma MissingAfterTwo(w: World, b: int, v: int)
    requires w.c == b && w.accepted == [b, v]
    ensures forall x :: x in Missing(w, 100) <==> 100 < x <= b && x != b && x != v
  {
    assert w.accepted[0] == b && w.accepted[1] == v;
  }

  /** The excess does occur: skip one packet, then let it arrive late. */
  lemma CatchingUpOvercounts()
    ensures var w := Run(Sample(), [Event(102, true), Event(101, true)]);
            w.t.lost == 1 && w.accepted == [102, 101] && Missing(w, 100) == {}
  {
    hide Run;
    hide Missing;
    SampleIsLate(102, 101);
    var w := Run(Sample(), [Event(102, true), Event(101, true)]);
    MissingAfterTwo(w, 102, 101);
    assert forall x | x in Missing(w, 100) :: false;
  }

  /** So does the shortfall: skip two packets, then let one from before the start arrive. */
  lemma EarlyPacketUndercounts()
    ensures var w := Run(Sample(), [Event(103, true), Event(99, true)]);
            w.t.lost == 1 && w.accepted == [103, 99] && Missing(w, 100) == {101, 102}
  {
    hide Run;
    hide Missing;
    SampleIsLate(103, 99);
    var w := Run(Sample(), [Event(103, true), Event(99, true)]);
    MissingAfterTwo(w, 103, 99);
    assert forall x :: x in Missing(w, 100) <==> x in {101, 102};
  }

  // ---- Late packets ----

  /** The accepted counters, by place, that lie behind the start or behind one accepted before. */
  ghost function Behind(c0: int, vs: seq<int>): set<nat> {
    set j | 0 <= j < |vs| && IsBehind(c0, vs, j)
  }

  ghost predicate IsBehind(c0: int, vs: seq<int>, j: nat)
    requires j < |vs|
  {
    vs[j] < c0 || exists i | 0 <= i < j :: vs[i] > vs[j]
  }

  lemma BehindGrows(c0: int, vs: seq<int>, v: int)
    ensures Behind(c0, vs + [v]) == Behind(c0, vs) + if IsBehind(c0, vs + [v], |vs|) then {|vs|} else {}
  {
    var ws := vs + [v];
    forall j | 0 <= j < |vs|
      ensures IsBehind(c0, ws, j) <==> IsBehind(c0, vs, j)
    {
      if IsBehind(c0, vs, j) && vs[j] >= c0 {
        var i :| 0 <= i < j && vs[i] > vs[j];
        assert ws[i] > ws[j];
      }
    }
  }

  ghost predicate CountsLate(w: World, t: Tracker) {
    && (forall v | v in w.accepted :: v <= w.c) && t.iv <= w.c
    && (w.c == t.iv || w.c in w.accepted)
    && w.t.late == t.late + |Behind(t.iv, w.accepted)|
    && w.t.good == t.good + |w.accepted|
  }

  lemma BehindIffLate(w: World, t: Tracker, v: int)
    requires CountsLate(w, t)
    ensures IsBehind(t.iv, w.accepted + [v], |w.accepted|) <==> v < w.c
  {
    var vs := w.accepted + [v];
    forall i | 0 <= i < |w.accepted|
      ensures vs[i] <= w.c
    {
      assert w.accepted[i] in w.accepted;
    }
    if v < w.c && v >= t.iv {
      var i :| 0 <= i < |w.accepted| && w.accepted[i] == w.c;
      assert vs[i] > vs[|w.accepted|];
    }
  }

  lemma StepCountsLate(w: World, t: Tracker, e: Event)
    requires w.t.Valid() && CountsLate(w, t)
    ensures CountsLate(WorldStep(w, e), t)
  {
    hide Behind;
    match Verdict(w.t, e)
    case None =>
    case Some(o) =>
      hide Verdict;
      BehindIffLate(w, t, w.c + o);
      BehindGrows(t.iv, w.accepted, w.c + o);
      NoPlaceBeyond(t.iv, w.accepted);
  }

  lemma NoPlaceBeyond(c0: int, vs: seq<int>)
    ensures |vs| !in Behind(c0, vs)
  {
  }

  /**
   * In every run `good` grows by the accepted packets, and `late` by those among them whose
   * counter lies behind the first one or behind one accepted before.
   */
  lemma {:induction false} LateIsBehind(t: Tracker, es: seq<Event>)
    requires t.Valid()
    ensures var w := Run(t, es);
            w.t.late == t.late + |Behind(t.iv, w.accepted)| && w.t.good == t.good + |w.accepted|
  {
    CountsLateAlong(t, es);
  }

  lemma {:induction false} CountsLateAlong(t: Tracker, es: seq<Event>)
    requires t.Valid()
    ensures CountsLate(Run(t, es), t)
  {
    hide CountsLate;
    if |es| == 0 {
      NothingLate(t);
    } else {
      CountsLateAlong(t, es[..|es| - 1]);
      StepCountsLate(Run(t, es[..|es| - 1]), t, es[|es| - 1]);
    }
  }

  lemma NothingLate(t: Tracker)
    ensures CountsLate(Start(t), t)
  {
    assert Behind(t.iv, []) == {};
  }
}
