/**
 * What the reclaim protocol does not promise by itself, with the exact conditions: releasing
 * a reference only without pins, not touching a stream after its release, and the node that
 * the walk of the main thread saves across a hook.
 */
module ReclaimRuns {
  import opened LinkedList
  import opened Reclaim
  import opened Wrappers

  // ---- Sequences of steps ----

  predicate Feasible(s: State, steps: seq<Step>)
    decreases |steps|
  {
    |steps| == 0 || (Enabled(s, steps[0]) && Feasible(Do(s, steps[0]), steps[1..]))
  }

  function End(s: State, steps: seq<Step>): State
    requires Feasible(s, steps)
    decreases |steps|
  {
    if |steps| == 0 then s else End(Do(s, steps[0]), steps[1..])
  }

  lemma {:induction false} Joined(s: State, a: seq<Step>, b: seq<Step>)
    requires Feasible(s, a) && Feasible(End(s, a), b)
    ensures Feasible(s, a + b) && End(s, a + b) == End(End(s, a), b)
    decreases |a|
  {
    hide Enabled;
    hide Do;
    if |a| == 0 {
      assert a + b == b;
    } else {
      Joined(Do(s, a[0]), a[1..], b);
      assert (a + b)[0] == a[0] && (a + b)[1..] == a[1..] + b;
    }
  }

  lemma OneStep(s: State, e: Step)
    requires Enabled(s, e)
    ensures Feasible(s, [e]) && End(s, [e]) == Do(s, e)
  {
    hide Enabled;
    hide Do;
    assert [e][1..] == [];
    assert Feasible(Do(s, e), []) && End(Do(s, e), []) == Do(s, e);
  }

  lemma {:induction false} StepsKeepInv(s: State, steps: seq<Step>)
    requires Inv(s) && Feasible(s, steps)
    ensures Inv(End(s, steps))
    decreases |steps|
  {
    hide Enabled;
    hide Do;
    hide Inv;
    if |steps| > 0 {
      StepKeepsInv(s, steps[0]);
      StepsKeepInv(Do(s, steps[0]), steps[1..]);
    }
  }

  // ---- The node saved across a hook ----

  predicate Unlists(s: State, e: Step, id: nat) {
    e.StopUnlist? && s.m.id == id
  }

  /** A stream leaves the list by its own stop and by nothing else. */
  lemma OnlyItsStopUnlists(s: State, e: Step, id: nat)
    requires Inv(s) && Enabled(s, e) && In(s.streamList, id)
    ensures In(Do(s, e).streamList, id) <==> !Unlists(s, e, id)
  {
    if e.StopUnlist? {
      StopUnlistsOne(s, id);
    } else if e.PlayAdd? {
      InPrepended(Entry(s.streams[s.m.id].refrence, s.m.id), s.streamList, id);
    } else {
      OtherStepsKeepList(s, e);
    }
  }

  lemma ListedIsKnown(s: State, id: nat)
    requires Base(s) && In(s.streamList, id)
    ensures id in s.streams
  {
  }

  lemma StopUnlistsOne(s: State, id: nat)
    requires Inv(s) && Enabled(s, StopUnlist) && In(s.streamList, id)
    ensures In(Do(s, StopUnlist).streamList, id) <==> s.m.id != id
  {
    ListedIsKnown(s, id);
    assert Fine(s, id) && Fine(s, s.m.id);
    if s.streams[s.m.id].refrence > NOREF {
      NodeIsOwn(s, s.m.id);
      UnlistedIs(s, s.streamList, s.m.id);
    }
  }

  lemma OtherStepsKeepList(s: State, e: Step)
    requires Enabled(s, e) && !e.StopUnlist? && !e.PlayAdd?
    ensures Do(s, e).streamList == s.streamList
  {
    hide RemoveFirst;
    if IsThreadStep(e) {
      ThreadStepsKeepList(s, e);
      hide DoThread;
    }
  }

  lemma ThreadStepsKeepList(s: State, e: Step)
    requires IsThreadStep(e) && ThreadEnabled(s, e)
    ensures DoThread(s, e).streamList == s.streamList
  {
    hide RemoveFirst;
    if e.t.Buffer? {
      assert DoThread(s, e).streamList == s.streamList;
    }
  }

  /** The stream stays listed through all the steps. */
  predicate StaysListed(s: State, steps: seq<Step>, id: nat)
    requires Feasible(s, steps)
    decreases |steps|
  {
    In(s.streamList, id) && (|steps| == 0 || StaysListed(Do(s, steps[0]), steps[1..], id))
  }

  predicate NeverUnlisted(s: State, steps: seq<Step>, id: nat)
    requires Feasible(s, steps)
    decreases |steps|
  {
    |steps| == 0 || (!Unlists(s, steps[0], id) && NeverUnlisted(Do(s, steps[0]), steps[1..], id))
  }

  /**
   * The walk of the main thread keeps the node after the one it works on while it does not
   * hold the mutex. That node is in the list all the time if and only if no stop took its
   * stream out, whatever either thread does meanwhile.
   */
  lemma {:induction false} SavedNodeStaysIff(s: State, steps: seq<Step>, id: nat)
    requires Inv(s) && Feasible(s, steps) && In(s.streamList, id)
    ensures StaysListed(s, steps, id) <==> NeverUnlisted(s, steps, id)
    decreases |steps|
  {
    hide Enabled;
    hide Do;
    hide Inv;
    hide In;
    hide Unlists;
    if |steps| > 0 {
      OnlyItsStopUnlists(s, steps[0], id);
      StepKeepsInv(s, steps[0]);
      if In(Do(s, steps[0]).streamList, id) {
        SavedNodeStaysIff(Do(s, steps[0]), steps[1..], id);
      }
    }
  }

  // ---- Touching a stream ----

  /** The step reads or writes a field of the stream. */
  predicate Touches(s: State, e: Step, id: nat) {
    match e
    case LockWalk(_) => false
    case UnlockWalk(_) => false
    case PinLoad(_, k) => k < |s.streamList| && s.streamList[k].data == id
    case PinUnlock(_) => false
    case UnpinLock(_) => false
    case PinAdd(t) => PcOf(s, t).id == id
    case PinCheck(t) => PcOf(s, t).id == id
    case PinUndo(t) => PcOf(s, t).id == id
    case UnpinSub(t) => PcOf(s, t).id == id
    case UnpinLoad(t) => PcOf(s, t).id == id
    case UnpinCheckRef(t) => PcOf(s, t).id == id
    case UnpinAdd(t) => PcOf(s, t).id == id
    case StopBegin(i) => i == id
    case PlayBegin(i) => i == id
    case StopLock => false
    case StopQueueLock => false
    case PlayDelistLock => false
    case PlayLock => false
    case CleanLock => false
    case CleanPop => false
    case _ => s.m.id == id
  }

  /** The script enters the protocol with a stream it still has hold of. */
  predicate Begins(e: Step, id: nat) {
    e == StopBegin(id) || e == PlayBegin(id)
  }

  /** A thread is busy with the stream, or a list still leads to it. */
  predicate Exposed(s: State, id: nat) {
    || Names(s.b, id) || Names(s.m, id) || Under(s.m) == Some(id)
    || In(s.reclaimList, id) || In(s.streamList, id)
  }

  lemma InSmaller(l: seq<Entry<nat>>, index: int, id: nat)
    ensures In(RemoveFirst(l, index), id) ==> In(l, id)
  {
    var r := RemoveFirst(l, index);
    if k :| 0 <= k < |r| && r[k].data == id {
      RemoveFirstMembers(l, index, r[k]);
    }
  }

  lemma ThreadKeepsUnexposed(s: State, e: Step, id: nat)
    requires Base(s) && Enabled(s, e) && IsThreadStep(e) && !e.PinLoad? && !e.UnpinAdd?
    requires !Exposed(s, id)
    ensures !Touches(s, e, id) && !Exposed(Do(s, e), id)
  {
    hide ListInv;
    hide RemoveFirst;
    hide In;
    if e.t.Buffer? {
      assert !Touches(s, e, id) && !Exposed(Do(s, e), id);
    }
  }

  lemma PinLoadKeepsUnexposed(s: State, e: Step, id: nat)
    requires Base(s) && Enabled(s, e) && e.PinLoad? && !Exposed(s, id)
    ensures !Touches(s, e, id) && !Exposed(Do(s, e), id)
  {
    assert In(s.streamList, s.streamList[e.k].data);
    hide RemoveFirst;
    hide ListInv;
    hide In;
  }

  lemma UnpinAddKeepsUnexposed(s: State, e: Step, id: nat)
    requires Base(s) && Enabled(s, e) && e.UnpinAdd? && !Exposed(s, id)
    ensures !Touches(s, e, id) && !Exposed(Do(s, e), id)
  {
    var i := PcOf(s, e.t).id;
    InPrepended(Entry(s.streams[i].reclaimRef, i), s.reclaimList, id);
    hide RemoveFirst;
    hide ListInv;
    hide In;
  }

  lemma StopKeepsUnexposed(s: State, e: Step, id: nat)
    requires Base(s) && Enabled(s, e) && IsStop(e) && !Begins(e, id) && !Exposed(s, id)
    ensures !Touches(s, e, id) && !Exposed(Do(s, e), id)
  {
    if e.StopQueueAdd? {
      InPrepended(Entry(s.streams[s.m.id].reclaimRef, s.m.id), s.reclaimList, id);
    } else if e.StopUnlist? {
      InSmaller(s.streamList, s.streams[s.m.id].refrence, id);
    }
    hide RemoveFirst;
    hide ListInv;
    hide In;
  }

  lemma PlayKeepsUnexposed(s: State, e: Step, id: nat)
    requires Base(s) && Enabled(s, e) && !IsThreadStep(e) && !IsStop(e) && !Begins(e, id) && !Exposed(s, id)
    requires !e.CleanLock? && !e.CleanPop? && !e.CleanUnref?
    ensures !Touches(s, e, id) && !Exposed(Do(s, e), id)
  {
    if e.PlayAdd? {
      InPrepended(Entry(s.streams[s.m.id].refrence, s.m.id), s.streamList, id);
    } else if e.PlayDelist? {
      InSmaller(s.reclaimList, s.streams[s.m.id].refrence, id);
    }
    hide RemoveFirst;
    hide ListInv;
    hide In;
  }

  lemma CleanKeepsUnexposed(s: State, e: Step, id: nat)
    requires Base(s) && Enabled(s, e) && (e.CleanLock? || e.CleanPop? || e.CleanUnref?) && !Exposed(s, id)
    ensures !Touches(s, e, id) && !Exposed(Do(s, e), id)
  {
    if e.CleanPop? && |s.reclaimList| > 0 {
      assert In(s.reclaimList, s.reclaimList[0].data);
      InSmaller(s.reclaimList, s.reclaimList[0].index, id);
    }
    hide RemoveFirst;
    hide ListInv;
    hide In;
  }

  /** Once nothing leads to a stream, no step of either thread touches it, and nothing will lead to it. */
  lemma UnexposedStays(s: State, e: Step, id: nat)
    requires Base(s) && Enabled(s, e) && !Begins(e, id) && !Exposed(s, id)
    ensures !Touches(s, e, id) && !Exposed(Do(s, e), id)
  {
    hide Base;
    hide Do;
    hide Enabled;
    hide Exposed;
    hide Touches;
    if e.PinLoad? {
      PinLoadKeepsUnexposed(s, e, id);
    } else if e.UnpinAdd? {
      UnpinAddKeepsUnexposed(s, e, id);
    } else if IsThreadStep(e) {
      ThreadKeepsUnexposed(s, e, id);
    } else if IsStop(e) {
      StopKeepsUnexposed(s, e, id);
    } else if e.CleanLock? || e.CleanPop? || e.CleanUnref? {
      CleanKeepsUnexposed(s, e, id);
    } else {
      PlayKeepsUnexposed(s, e, id);
    }
  }

  // ---- What comes after a release ----

  /** How far the buffer thread is from giving the mutex back. */
  function Rank(place: Place): nat {
    match place
    case PinLoaded => 3
    case PinAdded => 2
    case PinDone => 1
    case Walking => 1
    case UnpinAdding => 1
    case _ => 0
  }

  /** The step the buffer thread takes next while it holds the mutex. */
  function NextToFree(place: Place): Step
    requires Rank(place) > 0
  {
    match place
    case PinLoaded => PinAdd(Buffer)
    case PinAdded => PinCheck(Buffer)
    case PinDone => PinUnlock(Buffer)
    case Walking => UnlockWalk(Buffer)
    case UnpinAdding => UnpinAdd(Buffer)
  }

  lemma NextComesCloser(s: State, id: nat)
    requires Inv(s) && Rank(s.b.place) > 0 && !Names(s.b, id) && In(s.reclaimList, id)
    ensures var e := NextToFree(s.b.place);
            Enabled(s, e) && var r := Do(s, e);
            r.m == s.m && r.streams.Keys == s.streams.Keys && Rank(r.b.place) < Rank(s.b.place)
            && !Names(r.b, id) && In(r.reclaimList, id)
  {
    if !s.b.place.Walking? {
      assert Fine(s, s.b.id);
      InPrepended(Entry(s.streams[s.b.id].reclaimRef, s.b.id), s.reclaimList, id);
    }
    hide ListInv;
    hide RemoveFirst;
    hide In;
  }

  lemma NobodyHasLock(s: State)
    requires Inv(s) && s.m.place.Idle? && Rank(s.b.place) == 0
    ensures s.lock.Free?
  {
    LockCases(s.lock);
    assert !HasLock(s.m) && !HasLock(s.b);
  }

  lemma LockCases(l: Lock)
    ensures l.Free? || l == HeldBy(Buffer) || l == HeldBy(Main)
  {
    match l
    case Free =>
    case HeldBy(t) => match t case Buffer => case Main =>
  }

  predicate NoBegin(steps: seq<Step>, id: nat) {
    forall e | e in steps :: !Begins(e, id)
  }

  /** With the main thread at rest, the buffer thread gives the mutex back by itself. */
  lemma {:induction false} LockComesFree(s: State, id: nat) returns (steps: seq<Step>)
    requires Inv(s) && s.m.place.Idle? && !Names(s.b, id) && In(s.reclaimList, id)
    ensures Feasible(s, steps) && NoBegin(steps, id)
    ensures var r := End(s, steps);
            Inv(r) && r.m == s.m && r.lock.Free? && In(r.reclaimList, id)
    decreases Rank(s.b.place)
  {
    if Rank(s.b.place) == 0 {
      NobodyHasLock(s);
      return [];
    }
    var e := NextToFree(s.b.place);
    NextComesCloser(s, id);
    StepKeepsInv(s, e);
    hide Inv;
    hide Do;
    hide Enabled;
    var more := LockComesFree(Do(s, e), id);
    steps := [e] + more;
    assert steps[1..] == more;
  }

  /** Cleaning goes on until the stream's entry has come off the list. */
  lemma {:induction false} CleaningReaches(s: State, id: nat) returns (steps: seq<Step>)
    requires Inv(s) && s.m.place.Idle? && s.lock.Free? && In(s.reclaimList, id)
    ensures Feasible(s, steps) && NoBegin(steps, id) && forall e | e in steps :: !e.PlayAdd?
    ensures var r := End(s, steps);
            r.m.place.CleanRelease? && r.m.id == id && r.b == s.b
            && id in s.streams && id in r.streams && r.streams[id] == s.streams[id]
    decreases |s.reclaimList|
  {
    hide Inv;
    hide Do;
    hide Enabled;
    PopsTheHead(s, id);
    var s1 := Do(s, CleanLock);
    var s2 := Do(s1, CleanPop);
    StepKeepsInv(s, CleanLock);
    StepKeepsInv(s1, CleanPop);
    TwoSteps(s, CleanLock, CleanPop);
    steps := [CleanLock, CleanPop];
    if s2.m.id != id {
      ReleasesAnother(s2, id);
      StepKeepsInv(s2, CleanUnref);
      OneStep(s2, CleanUnref);
      Joined(s, steps, [CleanUnref]);
      var more := CleaningReaches(Do(s2, CleanUnref), id);
      Joined(s, steps + [CleanUnref], more);
      steps := steps + [CleanUnref] + more;
    }
  }

  lemma TwoSteps(s: State, d: Step, e: Step)
    requires Enabled(s, d) && Enabled(Do(s, d), e)
    ensures Feasible(s, [d, e]) && End(s, [d, e]) == Do(Do(s, d), e)
  {
    hide Enabled;
    hide Do;
    OneStep(Do(s, d), e);
    assert [d, e][1..] == [e];
  }

  lemma PopsTheHead(s: State, id: nat)
    requires Inv(s) && s.m.place.Idle? && s.lock.Free? && In(s.reclaimList, id)
    ensures Enabled(s, CleanLock) && Enabled(Do(s, CleanLock), CleanPop) && |s.reclaimList| > 0
    ensures var r := Do(Do(s, CleanLock), CleanPop);
            && r.m == At(CleanRelease, s.reclaimList[0].data, None) && r.b == s.b && r.lock.Free?
            && r.streams == s.streams && id in s.streams && r.reclaimList == s.reclaimList[1..]
            && (s.reclaimList[0].data != id ==> In(r.reclaimList, id))
  {
    var k :| 0 <= k < |s.reclaimList| && s.reclaimList[k].data == id;
    assert k > 0 ==> s.reclaimList[1..][k - 1].data == id;
  }

  lemma ReleasesAnother(s: State, id: nat)
    requires Inv(s) && s.m.place.CleanRelease? && s.m.id != id && id in s.streams && s.lock.Free?
    ensures Enabled(s, CleanUnref)
    ensures var r := Do(s, CleanUnref);
            && r.m.place.Idle? && r.b == s.b && r.lock.Free? && r.reclaimList == s.reclaimList
            && id in r.streams && r.streams[id] == s.streams[id]
  {
  }

  /** A further course of the two threads, without the script's help, in which one touches the stream. */
  ghost predicate TouchedLater(s: State, id: nat) {
    exists steps: seq<Step>, e: Step :: TouchedAt(s, steps, e, id)
  }

  predicate TouchedAt(s: State, steps: seq<Step>, e: Step, id: nat) {
    Feasible(s, steps) && NoBegin(steps, id) && !Begins(e, id)
    && var r := End(s, steps); Enabled(r, e) && Touches(r, e, id)
  }

  lemma {:induction false} UnexposedIsNotTouched(s: State, steps: seq<Step>, e: Step, id: nat)
    requires Inv(s) && !Exposed(s, id)
    ensures !TouchedAt(s, steps, e, id)
    decreases |steps|
  {
    hide Enabled;
    hide Do;
    hide Exposed;
    hide Touches;
    hide Base;
    if Feasible(s, steps) && NoBegin(steps, id) && !Begins(e, id) {
      if |steps| == 0 {
        if Enabled(s, e) {
          UnexposedStays(s, e, id);
        }
      } else {
        assert !Begins(steps[0], id);
        UnexposedStays(s, steps[0], id);
        StepKeepsInv(s, steps[0]);
        UnexposedIsNotTouched(Do(s, steps[0]), steps[1..], e, id);
      }
    }
  }

  /** The step the buffer thread takes next on the stream it is busy with. */
  function NextTouch(place: Place): Step {
    match place
    case PinLoaded => PinAdd(Buffer)
    case PinAdded => PinCheck(Buffer)
    case UnpinLast => UnpinLoad(Buffer)
    case UnpinReclaimed => UnpinCheckRef(Buffer)
    case UnpinAdding => UnpinAdd(Buffer)
    case _ => UnpinSub(Buffer)
  }

  lemma NextTouchTouches(s: State, id: nat)
    requires ThreadInv(s) && Names(s.b, id) && !s.b.place.PinDone? && !s.b.place.UnpinWaiting?
    ensures var e := NextTouch(s.b.place);
            Enabled(s, e) && Touches(s, e, id) && !Begins(e, id)
  {
  }

  lemma GoesOnToTouch(s: State, id: nat, e: Step)
    requires ThreadInv(s) && Names(s.b, id)
    requires (s.b.place.PinDone? && e == PinUnlock(Buffer))
             || (s.b.place.UnpinWaiting? && e == UnpinLock(Buffer) && s.lock.Free?)
    ensures Enabled(s, e) && !Begins(e, id)
    ensures var r := Do(s, e);
            ThreadInv(r) && Names(r.b, id) && !r.b.place.PinDone? && !r.b.place.UnpinWaiting?
  {
  }

  /** The buffer thread, busy with a stream, touches it next, or after one more step. */
  lemma BusyThreadTouches(s: State, id: nat) returns (steps: seq<Step>, e: Step)
    requires Inv(s) && s.m.place.Idle? && Names(s.b, id)
    ensures TouchedAt(s, steps, e, id)
  {
    steps := [];
    if s.b.place.PinDone? || s.b.place.UnpinWaiting? {
      if s.b.place.UnpinWaiting? {
        NobodyHasLock(s);
      }
      hide Do;
      hide Enabled;
      var d := if s.b.place.PinDone? then PinUnlock(Buffer) else UnpinLock(Buffer);
      GoesOnToTouch(s, id, d);
      OneStep(s, d);
      NextTouchTouches(Do(s, d), id);
      steps, e := [d], NextTouch(Do(s, d).b.place);
    } else {
      hide Enabled;
      hide Touches;
      NextTouchTouches(s, id);
      e := NextTouch(s.b.place);
    }
  }

  lemma ListedIsTouched(s: State, id: nat) returns (steps: seq<Step>, e: Step)
    requires Inv(s) && s.m.place.Idle? && !Names(s.b, id) && In(s.reclaimList, id)
    ensures TouchedAt(s, steps, e, id)
  {
    hide Do;
    hide Inv;
    var first := LockComesFree(s, id);
    var more := CleaningReaches(End(s, first), id);
    Joined(s, first, more);
    steps, e := first + more, CleanUnref;
  }

  /**
   * With the main thread at rest, a stream that is not listed will be touched on some further
   * course, without a new stop or play of it, if and only if the buffer thread is busy with
   * it or an entry of the reclaim list still names it.
   */
  lemma TouchedLaterIff(s: State, id: nat)
    requires Inv(s) && s.m.place.Idle? && !In(s.streamList, id)
    ensures TouchedLater(s, id) <==> Names(s.b, id) || In(s.reclaimList, id)
  {
    hide Inv;
    hide TouchedAt;
    if Names(s.b, id) {
      var steps, e := BusyThreadTouches(s, id);
      assert TouchedAt(s, steps, e, id);
    } else if In(s.reclaimList, id) {
      var steps, e := ListedIsTouched(s, id);
      assert TouchedAt(s, steps, e, id);
    } else if TouchedLater(s, id) {
      var steps: seq<Step>, e: Step :| TouchedAt(s, steps, e, id);
      UnexposedIsNotTouched(s, steps, e, id);
    }
  }

  /**
   * So a stream is touched after its reference was released exactly when, at the release, the
   * buffer thread is between its decrement and the end of its unpin, or still holds a pin, or
   * a second entry is left.
   */
  lemma TouchedAfterReleaseIff(run: seq<State>, steps: seq<Step>, n: nat)
    requires Execution(run, steps) && n < |steps|
    requires steps[n] == CleanUnref && run[n].streams[run[n].m.id].reclaimRef > NOREF
    ensures var id := run[n].m.id;
            TouchedLater(run[n + 1], id) <==> Names(run[n].b, id) || In(run[n].reclaimList, id)
  {
    var s, r, id := run[n], run[n + 1], run[n].m.id;
    ExecutionKeepsInv(run, steps, n);
    ExecutionKeepsInv(run, steps, n + 1);
    assert Fine(s, id) && Fine(r, id);
    TouchedLaterIff(r, id);
  }
}
