/**
 * The protocol cannot get stuck: from every state the two threads come to rest by their own
 * next steps, and cleaning then gives back the reference of every stopped stream.
 */
module ReclaimRest {
  import opened LinkedList
  import opened Reclaim
  import opened ReclaimCalm
  import opened ReclaimCourses
  import opened ReclaimInputs
  import opened ReclaimRuns
  import opened Wrappers

  /** How many steps at most a thread is from rest, when it begins nothing new. */
  function Distance(place: Place): nat {
    match place
    case Idle => 0
    case Walking => 1 case UnpinAdding => 1 case CleanRelease => 1
    case UnpinWaiting => 2 case Cleaning => 2 case PinRollback => 2
    case UnpinReclaimed => 3 case UnpinLast => 4 case Working => 5
    case PinDone => 6 case PinAdded => 7 case PinLoaded => 8
    case StopQueueAdding => 6 case StopQueueing => 7 case StopCheck => 8 case StopTransfer => 9
    case StopMarking => 10 case StopListing => 11 case StopLocking => 12
    case PlayAdding => 6 case PlayLocking => 7 case PlayRegistering => 8 case PlayDelisting => 9
    case PlayDelistLocking => 10 case PlayMoving => 11 case PlayClearing => 12
  }

  predicate NeedsLock(place: Place) {
    place.UnpinWaiting? || place.StopLocking? || place.StopQueueing? || place.PlayDelistLocking? || place.PlayLocking?
  }

  /** The next step of a thread that goes on with what it is doing; a play takes the spare reference. */
  function OwnStep(place: Place, t: Thread, spare: int): Step
    requires !place.Idle?
  {
    match place
    case Walking => UnlockWalk(t)
    case PinLoaded => PinAdd(t)
    case PinAdded => PinCheck(t)
    case PinRollback => PinUndo(t)
    case PinDone => PinUnlock(t)
    case Working => UnpinSub(t)
    case UnpinLast => UnpinLoad(t)
    case UnpinReclaimed => UnpinCheckRef(t)
    case UnpinWaiting => UnpinLock(t)
    case UnpinAdding => UnpinAdd(t)
    case StopLocking => StopLock
    case StopListing => StopUnlist
    case StopMarking => StopMark
    case StopTransfer => StopMoveRef
    case StopCheck => StopLoad
    case StopQueueing => StopQueueLock
    case StopQueueAdding => StopQueueAdd
    case Cleaning => CleanPop
    case CleanRelease => CleanUnref
    case PlayClearing => PlayClear
    case PlayMoving => PlayMove
    case PlayDelistLocking => PlayDelistLock
    case PlayDelisting => PlayDelist
    case PlayRegistering => PlayRegister(spare)
    case PlayLocking => PlayLock
    case PlayAdding => PlayAdd
  }

  predicate BeginsAnything(e: Step) {
    e.LockWalk? || e.PinLoad? || e.StopBegin? || e.PlayBegin? || e.CleanLock?
  }

  lemma MainCan(s: State, spare: int)
    requires ThreadInv(s) && !s.m.place.Idle? && (NeedsLock(s.m.place) ==> s.lock.Free?)
    requires spare > 0 && spare !in s.registry
    ensures var e := OwnStep(s.m.place, Main, spare); Enabled(s, e) && !BeginsAnything(e)
  {
  }

  lemma BufferCan(s: State, spare: int)
    requires ThreadInv(s) && !s.b.place.Idle? && (NeedsLock(s.b.place) ==> s.lock.Free?)
    ensures var e := OwnStep(s.b.place, Buffer, spare); Enabled(s, e) && !BeginsAnything(e)
  {
  }

  lemma MainUnpinsCloser(s: State, spare: int)
    requires !s.m.place.Idle? && Enabled(s, OwnStep(s.m.place, Main, spare))
    requires !Stopping(s.m) && !Playing(s.m)
    ensures var r := Do(s, OwnStep(s.m.place, Main, spare));
            r.b == s.b && Distance(r.m.place) < Distance(s.m.place)
  {
    hide RemoveFirst;
  }

  lemma MainStopsCloser(s: State, spare: int)
    requires !s.m.place.Idle? && Enabled(s, OwnStep(s.m.place, Main, spare))
    requires Stopping(s.m)
    ensures var r := Do(s, OwnStep(s.m.place, Main, spare));
            r.b == s.b && Distance(r.m.place) < Distance(s.m.place)
  {
    hide RemoveFirst;
  }

  lemma MainListsCloser(s: State, spare: int)
    requires !s.m.place.Idle? && Enabled(s, OwnStep(s.m.place, Main, spare))
    requires s.m.place.PlayRegistering? || s.m.place.PlayLocking? || s.m.place.PlayAdding?
    ensures var r := Do(s, OwnStep(s.m.place, Main, spare));
            r.b == s.b && Distance(r.m.place) < Distance(s.m.place)
  {
    hide RemoveFirst;
  }

  lemma MainEntersCloser(s: State, spare: int)
    requires !s.m.place.Idle? && Enabled(s, OwnStep(s.m.place, Main, spare))
    requires s.m.place.PlayClearing? || s.m.place.PlayMoving? || s.m.place.PlayDelistLocking?
             || s.m.place.PlayDelisting?
    ensures var r := Do(s, OwnStep(s.m.place, Main, spare));
            r.b == s.b && Distance(r.m.place) < Distance(s.m.place)
  {
    hide RemoveFirst;
  }

  lemma MainComesCloser(s: State, spare: int)
    requires !s.m.place.Idle? && Enabled(s, OwnStep(s.m.place, Main, spare))
    ensures var r := Do(s, OwnStep(s.m.place, Main, spare));
            r.b == s.b && Distance(r.m.place) < Distance(s.m.place)
  {
    if Stopping(s.m) {
      MainStopsCloser(s, spare);
    } else if s.m.place.PlayRegistering? || s.m.place.PlayLocking? || s.m.place.PlayAdding? {
      MainListsCloser(s, spare);
    } else if Playing(s.m) {
      MainEntersCloser(s, spare);
    } else {
      MainUnpinsCloser(s, spare);
    }
    hide *;
  }

  lemma BufferComesCloser(s: State, spare: int)
    requires ThreadInv(s) && !s.b.place.Idle? && Enabled(s, OwnStep(s.b.place, Buffer, spare))
    ensures var r := Do(s, OwnStep(s.b.place, Buffer, spare));
            r.m == s.m && Distance(r.b.place) < Distance(s.b.place)
  {
    hide RemoveFirst;
  }

  /** A thread that can go on: the one that has the mutex, or any one not at rest. */
  function Chosen(s: State): Thread {
    if s.lock.HeldBy? then s.lock.owner else if s.b.place.Idle? then Main else Buffer
  }

  lemma ChosenCan(s: State)
    requires LockInv(s) && !AtRest(s)
    ensures var pc := PcOf(s, Chosen(s));
            !pc.place.Idle? && (NeedsLock(pc.place) ==> s.lock.Free?)
  {
    LockCases(s.lock);
  }

  /** One of the threads takes its next step, and the two together are closer to rest. */
  lemma OneGoesOn(s: State) returns (e: Step)
    requires LockInv(s) && ThreadInv(s) && !AtRest(s)
    ensures Enabled(s, e) && !BeginsAnything(e)
    ensures var r := Do(s, e);
            Distance(r.b.place) + Distance(r.m.place) < Distance(s.b.place) + Distance(s.m.place)
  {
    ChosenCan(s);
    var spare := Spare(s.registry.Keys);
    e := OwnStep(PcOf(s, Chosen(s)).place, Chosen(s), spare);
    hide Do;
    hide Enabled;
    hide Distance;
    if Chosen(s).Buffer? {
      BufferCan(s, spare);
      BufferComesCloser(s, spare);
    } else {
      MainCan(s, spare);
      MainComesCloser(s, spare);
    }
  }

  /** Nothing new is begun, so both threads come to rest, whatever each was in the middle of. */
  lemma {:induction false} ComesToRest(s: State) returns (steps: seq<Step>, r: State)
    requires Inv(s)
    ensures Leads(s, steps, r) && Inv(r) && AtRest(r) && forall e | e in steps :: !BeginsAnything(e)
    decreases Distance(s.b.place) + Distance(s.m.place)
  {
    if AtRest(s) {
      NoStep(s);
      return [], s;
    }
    var e := OneGoesOn(s);
    StepKeepsInv(s, e);
    hide Inv;
    hide Do;
    hide Enabled;
    hide Leads;
    steps, r := ComesToRest(Do(s, e));
    FirstStep(s, e, Do(s, e), steps, r);
    steps := [e] + steps;
  }

  // ---- Everything stopped is given back ----

  /** What cleaning leaves as it was: the list of what plays, and who has been stopped. */
  predicate SameButReclaim(s: State, r: State) {
    && r.streamList == s.streamList && r.streams.Keys == s.streams.Keys
    && (forall id | id in s.streams :: r.streams[id].refrence == s.streams[id].refrence)
    && (forall id | id in s.streams :: r.streams[id].reclaimed == s.streams[id].reclaimed)
  }

  lemma ReleaseChangesOne(s: State)
    requires s.m.place.CleanRelease? && s.b.place.Idle? && s.lock.Free? && s.m.id in s.streams
    ensures Enabled(s, CleanUnref)
    ensures var r := Do(s, CleanUnref);
            AtRest(r) && r.reclaimList == s.reclaimList && SameButReclaim(s, r)
  {
  }

  lemma ThreeSteps(s: State, c: Step, d: Step, e: Step)
    requires Enabled(s, c) && Enabled(Do(s, c), d) && Enabled(Do(Do(s, c), d), e)
    requires Inv(s)
    ensures Leads(s, [c, d, e], Do(Do(Do(s, c), d), e)) && Inv(Do(Do(Do(s, c), d), e))
  {
    hide Enabled;
    hide Do;
    hide Inv;
    StepKeepsInv(s, c);
    StepKeepsInv(Do(s, c), d);
    StepKeepsInv(Do(Do(s, c), d), e);
    hide Feasible;
    hide End;
    TwoSteps(s, c, d);
    Then(s, [c, d], e);
    assert [c, d] + [e] == [c, d, e];
  }

  /** One turn of the cleaning takes the first entry, and releases what its stream still has put aside. */
  lemma CleansOne(s: State) returns (r: State)
    requires Inv(s) && AtRest(s) && |s.reclaimList| > 0
    ensures Leads(s, [CleanLock, CleanPop, CleanUnref], r) && Inv(r) && AtRest(r)
    ensures r.reclaimList == s.reclaimList[1..] && SameButReclaim(s, r)
  {
    var id := s.reclaimList[0].data;
    assert In(s.reclaimList, id);
    PopsTheHead(s, id);
    hide Inv;
    hide Do;
    hide Enabled;
    hide Leads;
    var s2 := Do(Do(s, CleanLock), CleanPop);
    r := Do(s2, CleanUnref);
    ReleaseChangesOne(s2);
    PoppedIsSame(s);
    ThreeSteps(s, CleanLock, CleanPop, CleanUnref);
  }

  lemma PoppedIsSame(s: State)
    requires AtRest(s) && |s.reclaimList| > 0
    ensures Enabled(s, CleanLock) && Enabled(Do(s, CleanLock), CleanPop)
    ensures SameButReclaim(s, Do(Do(s, CleanLock), CleanPop))
  {
  }

  lemma {:induction false} CleansAll(s: State) returns (steps: seq<Step>, r: State)
    requires Inv(s) && AtRest(s)
    ensures Leads(s, steps, r) && Inv(r) && AtRest(r) && r.reclaimList == [] && SameButReclaim(s, r)
    decreases |s.reclaimList|
  {
    hide Inv;
    hide Leads;
    if |s.reclaimList| == 0 {
      NoStep(s);
      return [], s;
    }
    var t := CleansOne(s);
    steps, r := CleansAll(t);
    LeadsOn(s, [CleanLock, CleanPop, CleanUnref], t, steps, r);
    steps := [CleanLock, CleanPop, CleanUnref] + steps;
  }

  lemma NothingHeld(r: State, id: nat)
    requires Inv(r) && AtRest(r) && r.reclaimList == [] && id in r.streams
    ensures var st := r.streams[id];
            && st.usecount == 0 && r.registered[id] == r.released[id] + (if st.refrence > NOREF then 1 else 0)
            && (st.reclaimed ==> st.refrence == NOREF && st.reclaimRef == NOREF)
  {
    assert Fine(r, id);
  }

  /**
   * From every reachable state the threads can come to rest and clean; then no stream is in
   * use, and every reference that was taken has been given back but the ones of streams that
   * are not stopped.
   */
  lemma EverythingIsGivenBack(s: State) returns (steps: seq<Step>, r: State)
    requires Inv(s)
    ensures Leads(s, steps, r) && Inv(r) && AtRest(r) && r.reclaimList == []
    ensures forall id | id in r.streams :: r.streams[id].usecount == 0
    ensures forall id | id in r.streams :: r.streams[id].reclaimed ==> r.registered[id] == r.released[id]
    ensures forall id | id in r.streams :: r.registered[id] <= r.released[id] + 1
  {
    hide Inv;
    hide Leads;
    var a, t := ComesToRest(s);
    var b, u := CleansAll(t);
    LeadsOn(s, a, t, b, u);
    steps, r := a + b, u;
    forall id | id in r.streams
      ensures r.streams[id].usecount == 0 && (r.streams[id].reclaimed ==> r.registered[id] == r.released[id])
      ensures r.registered[id] <= r.released[id] + 1
    {
      NothingHeld(r, id);
    }
  }
}
