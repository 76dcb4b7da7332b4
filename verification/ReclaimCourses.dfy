/**
 * Where the steps of the reclaim protocol lead: what a whole pin, unpin, stop and play do, and
 * that from every state the threads come to rest and everything stopped is given back.
 */
module ReclaimCourses {
  import opened LinkedList
  import opened Reclaim
  import opened ReclaimCalm
  import opened ReclaimInputs
  import opened ReclaimRuns
  import opened Wrappers

  /** The steps can be taken from `s`, one after the other, and end in `r`. */
  predicate Leads(s: State, steps: seq<Step>, r: State) {
    Feasible(s, steps) && End(s, steps) == r
  }

  lemma FirstStep(s: State, e: Step, r: State, steps: seq<Step>, t: State)
    requires Enabled(s, e) && Do(s, e) == r && Leads(r, steps, t)
    ensures Leads(s, [e] + steps, t)
  {
    hide Enabled;
    hide Do;
    assert ([e] + steps)[0] == e && ([e] + steps)[1..] == steps;
  }

  lemma LeadsOn(s: State, a: seq<Step>, r: State, b: seq<Step>, t: State)
    requires Leads(s, a, r) && Leads(r, b, t)
    ensures Leads(s, a + b, t)
  {
    hide Feasible;
    hide End;
    Joined(s, a, b);
  }

  lemma StepLeads(s: State, e: Step, r: State)
    requires Enabled(s, e) && Do(s, e) == r
    ensures Leads(s, [e], r)
  {
    hide Enabled;
    hide Do;
    OneStep(s, e);
  }

  lemma NoStep(s: State)
    ensures Leads(s, [], s)
  {
  }

  // ---- A pin, by either thread ----

  lemma PinSteps(s: State, t: Thread, k: nat, id: nat)
    requires PcOf(s, t).place.Walking? && k < |s.streamList| && s.streamList[k].data == id
    requires id in s.streams && !s.streams[id].reclaimed
    ensures var s1 := Go(s, t, At(PinLoaded, id, None));
            var s2 := Go(SetUse(s, id, 1), t, At(PinAdded, id, None));
            var s3 := Go(s2, t, At(PinDone, id, None));
            && Enabled(s, PinLoad(t, k)) && Do(s, PinLoad(t, k)) == s1
            && Enabled(s1, PinAdd(t)) && Do(s1, PinAdd(t)) == s2
            && Enabled(s2, PinCheck(t)) && Do(s2, PinCheck(t)) == s3
            && Enabled(s3, PinUnlock(t)) && Do(s3, PinUnlock(t)) == Go(s3.(lock := Free), t, At(Working, id, None))
  {
    match t case Buffer => case Main =>
  }

  lemma ListedIsPinnable(s: State, k: nat)
    requires Inv(s) && k < |s.streamList|
    ensures var id := s.streamList[k].data; id in s.streams && !s.streams[id].reclaimed
  {
    assert In(s.streamList, s.streamList[k].data);
    assert Fine(s, s.streamList[k].data);
  }

  /**
   * Either thread, walking the list, pins whichever stream it comes to: it ends at work on it
   * with one more use, the mutex free and everything else as it was.
   */
  lemma EitherPins(s: State, t: Thread, k: nat)
    requires Inv(s) && PcOf(s, t).place.Walking? && k < |s.streamList|
    ensures var id := s.streamList[k].data;
            && id in s.streams
            && Leads(s, [PinLoad(t, k), PinAdd(t), PinCheck(t), PinUnlock(t)],
                     Go(SetUse(s, id, 1).(lock := Free), t, At(Working, id, None)))
  {
    var id := s.streamList[k].data;
    ListedIsPinnable(s, k);
    PinSteps(s, t, k, id);
    hide Do;
    hide Enabled;
    hide Leads;
    var s1 := Go(s, t, At(PinLoaded, id, None));
    var s2 := Go(SetUse(s, id, 1), t, At(PinAdded, id, None));
    var s3 := Go(s2, t, At(PinDone, id, None));
    var r := Go(SetUse(s, id, 1).(lock := Free), t, At(Working, id, None));
    StepLeads(s3, PinUnlock(t), r);
    FirstStep(s2, PinCheck(t), s3, [PinUnlock(t)], r);
    FirstStep(s1, PinAdd(t), s2, [PinCheck(t)] + [PinUnlock(t)], r);
    FirstStep(s, PinLoad(t, k), s1, [PinAdd(t)] + ([PinCheck(t)] + [PinUnlock(t)]), r);
    assert [PinLoad(t, k)] + ([PinAdd(t)] + ([PinCheck(t)] + [PinUnlock(t)]))
        == [PinLoad(t, k), PinAdd(t), PinCheck(t), PinUnlock(t)];
  }

  // ---- An unpin, by either thread ----

  /** The last unpin of a stopped stream that still holds a reference has it queued. */
  predicate QueuesAtUnpin(st: Stream) {
    st.usecount == 1 && st.reclaimed && st.reclaimRef > NOREF
  }

  function Unpinned(s: State, t: Thread, id: nat): State
    requires id in s.streams
  {
    var r := Go(SetUse(s, id, -1), t, RESTING);
    if QueuesAtUnpin(s.streams[id]) then r.(reclaimList := [Entry(s.streams[id].reclaimRef, id)] + s.reclaimList) else r
  }

  lemma UnpinSteps(s: State, t: Thread, id: nat)
    requires PcOf(s, t) == At(Working, id, None) && id in s.streams && QueuesAtUnpin(s.streams[id]) && s.lock.Free?
    ensures var s1 := Go(SetUse(s, id, -1), t, At(UnpinLast, id, None));
            var s2, s3 := Go(s1, t, At(UnpinReclaimed, id, None)), Go(s1, t, At(UnpinWaiting, id, None));
            var s4 := Go(s1.(lock := HeldBy(t)), t, At(UnpinAdding, id, None));
            && Enabled(s, UnpinSub(t)) && Do(s, UnpinSub(t)) == s1
            && Enabled(s1, UnpinLoad(t)) && Do(s1, UnpinLoad(t)) == s2
            && Enabled(s2, UnpinCheckRef(t)) && Do(s2, UnpinCheckRef(t)) == s3
            && Enabled(s3, UnpinLock(t)) && Do(s3, UnpinLock(t)) == s4
            && Enabled(s4, UnpinAdd(t)) && Do(s4, UnpinAdd(t)) == Unpinned(s, t, id)
  {
    match t case Buffer => case Main =>
  }

  lemma UnpinQueues(s: State, t: Thread, id: nat) returns (steps: seq<Step>)
    requires PcOf(s, t) == At(Working, id, None) && id in s.streams && QueuesAtUnpin(s.streams[id]) && s.lock.Free?
    ensures Leads(s, steps, Unpinned(s, t, id))
  {
    UnpinSteps(s, t, id);
    hide Do;
    hide Enabled;
    hide Leads;
    hide Unpinned;
    var s1 := Go(SetUse(s, id, -1), t, At(UnpinLast, id, None));
    var s2, s3 := Go(s1, t, At(UnpinReclaimed, id, None)), Go(s1, t, At(UnpinWaiting, id, None));
    var s4 := Go(s1.(lock := HeldBy(t)), t, At(UnpinAdding, id, None));
    var r := Unpinned(s, t, id);
    StepLeads(s4, UnpinAdd(t), r);
    FirstStep(s3, UnpinLock(t), s4, [UnpinAdd(t)], r);
    FirstStep(s2, UnpinCheckRef(t), s3, [UnpinLock(t)] + [UnpinAdd(t)], r);
    FirstStep(s1, UnpinLoad(t), s2, [UnpinCheckRef(t)] + ([UnpinLock(t)] + [UnpinAdd(t)]), r);
    steps := [UnpinLoad(t)] + ([UnpinCheckRef(t)] + ([UnpinLock(t)] + [UnpinAdd(t)]));
    FirstStep(s, UnpinSub(t), s1, steps, r);
    steps := [UnpinSub(t)] + steps;
  }

  lemma UnpinReturns(s: State, t: Thread, id: nat) returns (steps: seq<Step>)
    requires PcOf(s, t) == At(Working, id, None) && id in s.streams && !QueuesAtUnpin(s.streams[id])
    ensures Leads(s, steps, Unpinned(s, t, id))
  {
    var st, r := s.streams[id], Unpinned(s, t, id);
    assert Enabled(s, UnpinSub(t));
    var s1 := Do(s, UnpinSub(t));
    if st.usecount != 1 {
      assert s1 == r;
      StepLeads(s, UnpinSub(t), r);
      return [UnpinSub(t)];
    }
    assert s1 == Go(SetUse(s, id, -1), t, At(UnpinLast, id, None)) && Enabled(s1, UnpinLoad(t));
    var s2 := Do(s1, UnpinLoad(t));
    if !st.reclaimed {
      assert s2 == r;
      StepLeads(s1, UnpinLoad(t), r);
      FirstStep(s, UnpinSub(t), s1, [UnpinLoad(t)], r);
      return [UnpinSub(t)] + [UnpinLoad(t)];
    }
    assert s2 == Go(s1, t, At(UnpinReclaimed, id, None)) && Enabled(s2, UnpinCheckRef(t));
    assert Do(s2, UnpinCheckRef(t)) == r;
    StepLeads(s2, UnpinCheckRef(t), r);
    FirstStep(s1, UnpinLoad(t), s2, [UnpinCheckRef(t)], r);
    FirstStep(s, UnpinSub(t), s1, [UnpinLoad(t)] + [UnpinCheckRef(t)], r);
    steps := [UnpinSub(t)] + ([UnpinLoad(t)] + [UnpinCheckRef(t)]);
  }

  /** Either thread ends its work on a stream with one use less, and queues it in that one case. */
  lemma EitherUnpins(s: State, t: Thread, id: nat) returns (steps: seq<Step>)
    requires Inv(s) && PcOf(s, t) == At(Working, id, None) && s.lock.Free?
    ensures id in s.streams && Leads(s, steps, Unpinned(s, t, id))
  {
    WorksOnKnown(s, t, id);
    hide Leads;
    hide Unpinned;
    if QueuesAtUnpin(s.streams[id]) {
      steps := UnpinQueues(s, t, id);
    } else {
      steps := UnpinReturns(s, t, id);
    }
  }

  lemma WorksOnKnown(s: State, t: Thread, id: nat)
    requires ThreadInv(s) && PcOf(s, t) == At(Working, id, None)
    ensures id in s.streams
  {
    match t case Buffer => case Main =>
  }

  // ---- A stop ----

  predicate CanEnter(pc: Pc) {
    pc.place.Idle? || pc.place.Working?
  }

  function StoppedStream(st: Stream): Stream {
    if st.refrence > NOREF then Stream(NOREF, st.refrence, st.usecount, true) else st.(reclaimed := true)
  }

  /** What a whole stop does: the stream unlisted and marked, its reference put aside, and queued if unpinned. */
  function Stopped(s: State, id: nat): State
    requires id in s.streams
  {
    var st := s.streams[id];
    var r := With(s, id, StoppedStream(st)).(m := Back(Under(s.m)),
               streamList := if st.refrence > NOREF then RemoveFirst(s.streamList, st.refrence) else s.streamList);
    if st.usecount == 0 && StoppedStream(st).reclaimRef > NOREF
    then r.(reclaimList := [Entry(StoppedStream(st).reclaimRef, id)] + s.reclaimList) else r
  }

  lemma StopFirstSteps(s: State, id: nat)
    requires CanEnter(s.m) && s.lock.Free? && id in s.streams
    ensures var st, u := s.streams[id], Under(s.m);
            var s1 := s.(m := At(StopLocking, id, u));
            var s2 := s.(lock := HeldBy(Main), m := At(StopListing, id, u));
            var s3 := s.(m := At(StopMarking, id, u),
                         streamList := if st.refrence > NOREF then RemoveFirst(s.streamList, st.refrence)
                                       else s.streamList);
            && Enabled(s, StopBegin(id)) && Do(s, StopBegin(id)) == s1
            && Enabled(s1, StopLock) && Do(s1, StopLock) == s2
            && Enabled(s2, StopUnlist) && Do(s2, StopUnlist) == s3
  {
  }

  lemma StopUnlistCourse(s: State, id: nat) returns (steps: seq<Step>)
    requires CanEnter(s.m) && s.lock.Free? && id in s.streams
    ensures var st := s.streams[id];
            Leads(s, steps, s.(m := At(StopMarking, id, Under(s.m)),
                               streamList := if st.refrence > NOREF then RemoveFirst(s.streamList, st.refrence)
                                             else s.streamList))
  {
    StopFirstSteps(s, id);
    hide Do;
    hide Enabled;
    hide Leads;
    var st, u := s.streams[id], Under(s.m);
    var s1 := s.(m := At(StopLocking, id, u));
    var s2 := s.(lock := HeldBy(Main), m := At(StopListing, id, u));
    var r := s.(m := At(StopMarking, id, u),
                streamList := if st.refrence > NOREF then RemoveFirst(s.streamList, st.refrence) else s.streamList);
    StepLeads(s2, StopUnlist, r);
    FirstStep(s1, StopLock, s2, [StopUnlist], r);
    FirstStep(s, StopBegin(id), s1, [StopLock] + [StopUnlist], r);
    steps := [StopBegin(id)] + ([StopLock] + [StopUnlist]);
  }

  lemma StopMarkCourse(s: State, id: nat) returns (steps: seq<Step>)
    requires s.m == At(StopMarking, id, s.m.under) && id in s.streams
    ensures Leads(s, steps, With(s, id, StoppedStream(s.streams[id])).(m := At(StopCheck, id, s.m.under)))
  {
    var s1 := With(s, id, s.streams[id].(reclaimed := true)).(m := At(StopTransfer, id, s.m.under));
    var r := With(s, id, StoppedStream(s.streams[id])).(m := At(StopCheck, id, s.m.under));
    assert Enabled(s, StopMark) && Do(s, StopMark) == s1;
    assert Enabled(s1, StopMoveRef) && Do(s1, StopMoveRef) == r;
    hide Do;
    hide Enabled;
    StepLeads(s1, StopMoveRef, r);
    FirstStep(s, StopMark, s1, [StopMoveRef], r);
    steps := [StopMark] + [StopMoveRef];
  }

  lemma StopEndCourse(s: State, id: nat) returns (steps: seq<Step>)
    requires s.m == At(StopCheck, id, s.m.under) && s.lock.Free? && id in s.streams
    ensures var st, r := s.streams[id], s.(m := Back(s.m.under));
            Leads(s, steps, if st.usecount == 0 && st.reclaimRef > NOREF
                            then r.(reclaimList := [Entry(st.reclaimRef, id)] + s.reclaimList) else r)
  {
    var st, r := s.streams[id], s.(m := Back(s.m.under));
    assert Enabled(s, StopLoad);
    if st.usecount != 0 || st.reclaimRef <= NOREF {
      assert Do(s, StopLoad) == r;
      StepLeads(s, StopLoad, r);
      return [StopLoad];
    }
    r := r.(reclaimList := [Entry(st.reclaimRef, id)] + s.reclaimList);
    var s1 := s.(m := At(StopQueueing, id, s.m.under));
    var s2 := s.(lock := HeldBy(Main), m := At(StopQueueAdding, id, s.m.under));
    assert Do(s, StopLoad) == s1;
    assert Enabled(s1, StopQueueLock) && Do(s1, StopQueueLock) == s2;
    assert Enabled(s2, StopQueueAdd) && Do(s2, StopQueueAdd) == r;
    hide Do;
    hide Enabled;
    StepLeads(s2, StopQueueAdd, r);
    FirstStep(s1, StopQueueLock, s2, [StopQueueAdd], r);
    FirstStep(s, StopLoad, s1, [StopQueueLock] + [StopQueueAdd], r);
    steps := [StopLoad] + ([StopQueueLock] + [StopQueueAdd]);
  }

  /** A stop goes through from outside and from within work on a stream, and comes back there. */
  lemma StopGoesThrough(s: State, id: nat) returns (steps: seq<Step>)
    requires CanEnter(s.m) && s.lock.Free? && id in s.streams
    ensures Leads(s, steps, Stopped(s, id))
  {
    var st := s.streams[id];
    var s1 := s.(m := At(StopMarking, id, Under(s.m)),
                 streamList := if st.refrence > NOREF then RemoveFirst(s.streamList, st.refrence) else s.streamList);
    var s2 := With(s1, id, StoppedStream(st)).(m := At(StopCheck, id, Under(s.m)));
    hide Leads;
    hide RemoveFirst;
    var a := StopUnlistCourse(s, id);
    var b := StopMarkCourse(s1, id);
    LeadsOn(s, a, s1, b, s2);
    var c := StopEndCourse(s2, id);
    steps := a + b + c;
    LeadsOn(s, a + b, s2, c, Stopped(s, id));
  }

  // ---- A play ----

  /** The reference a play lists the stream under: the one put aside by a stop, or a new one. */
  function Played(s: State, id: nat, ref: int): State
    requires id in s.streams
  {
    var st := s.streams[id];
    var kept := st.reclaimed && st.reclaimRef > NOREF;
    var r := if kept
             then With(s, id, Stream(st.reclaimRef, NOREF, st.usecount, false)).(
                    reclaimList := RemoveFirst(s.reclaimList, st.reclaimRef))
             else With(s, id, st.(refrence := ref, reclaimed := false)).(
                    registry := s.registry[ref := id], registered := s.registered + multiset{id});
    r.(streamList := [Entry(if kept then st.reclaimRef else ref, id)] + s.streamList, m := Back(Under(s.m)))
  }

  /** From the registration on: a new reference where there is none, and a node in the list. */
  function Listed(s: State, id: nat, ref: int): State
    requires id in s.streams
  {
    var st := s.streams[id];
    var r := if st.refrence <= NOREF
             then With(s, id, st.(refrence := ref)).(registry := s.registry[ref := id],
                    registered := s.registered + multiset{id})
             else s;
    r.(streamList := [Entry(r.streams[id].refrence, id)] + s.streamList, m := Back(s.m.under))
  }

  /** The registration alone. */
  function Numbered(s: State, id: nat, ref: int): State
    requires id in s.streams
  {
    var st := s.streams[id];
    if st.refrence <= NOREF
    then With(s, id, st.(refrence := ref)).(registry := s.registry[ref := id],
           registered := s.registered + multiset{id}, m := At(PlayLocking, id, s.m.under))
    else s.(m := At(PlayLocking, id, s.m.under))
  }

  lemma RegisterStep(s: State, id: nat, ref: int)
    requires s.m == At(PlayRegistering, id, s.m.under) && s.lock.Free? && id in s.streams
    requires ref > 0 && ref !in s.registry
    ensures Enabled(s, PlayRegister(ref)) && Do(s, PlayRegister(ref)) == Numbered(s, id, ref)
  {
  }

  lemma AddSteps(s: State, id: nat)
    requires s.m == At(PlayLocking, id, s.m.under) && s.lock.Free? && id in s.streams
    ensures var s1 := s.(lock := HeldBy(Main), m := At(PlayAdding, id, s.m.under));
            && Enabled(s, PlayLock) && Do(s, PlayLock) == s1 && Enabled(s1, PlayAdd)
            && Do(s1, PlayAdd) ==
               s.(streamList := [Entry(s.streams[id].refrence, id)] + s.streamList, m := Back(s.m.under))
  {
  }

  lemma ListingCourse(s: State, id: nat, ref: int) returns (steps: seq<Step>)
    requires s.m == At(PlayRegistering, id, s.m.under) && s.lock.Free? && id in s.streams
    requires ref > 0 && ref !in s.registry
    ensures Leads(s, steps, Listed(s, id, ref))
  {
    RegisterStep(s, id, ref);
    var r, s1 := Listed(s, id, ref), Numbered(s, id, ref);
    var s2 := s1.(lock := HeldBy(Main), m := At(PlayAdding, id, s.m.under));
    AddSteps(s1, id);
    hide Do;
    hide Enabled;
    assert s1.(streamList := [Entry(s1.streams[id].refrence, id)] + s1.streamList, m := Back(s.m.under)) == r;
    hide Leads;
    StepLeads(s2, PlayAdd, r);
    FirstStep(s1, PlayLock, s2, [PlayAdd], r);
    FirstStep(s, PlayRegister(ref), s1, [PlayLock] + [PlayAdd], r);
    steps := [PlayRegister(ref)] + ([PlayLock] + [PlayAdd]);
  }

  lemma MovingBackSteps(s: State, id: nat)
    requires s.m == At(PlayMoving, id, s.m.under) && s.lock.Free? && id in s.streams && s.streams[id].reclaimRef > NOREF
    ensures var st, u := s.streams[id], s.m.under;
            var s1 := With(s, id, st.(refrence := st.reclaimRef, reclaimRef := NOREF)).(
                        m := At(PlayDelistLocking, id, u));
            var s2 := s1.(lock := HeldBy(Main), m := At(PlayDelisting, id, u));
            var r := s1.(reclaimList := RemoveFirst(s.reclaimList, st.reclaimRef), m := At(PlayRegistering, id, u));
            && Enabled(s, PlayMove) && Do(s, PlayMove) == s1
            && Enabled(s1, PlayDelistLock) && Do(s1, PlayDelistLock) == s2
            && Enabled(s2, PlayDelist) && Do(s2, PlayDelist) == r
  {
    hide RemoveFirst;
  }

  lemma MovingBackCourse(s: State, id: nat) returns (steps: seq<Step>)
    requires s.m == At(PlayMoving, id, s.m.under) && s.lock.Free? && id in s.streams && s.streams[id].reclaimRef > NOREF
    ensures var st := s.streams[id];
            Leads(s, steps, With(s, id, st.(refrence := st.reclaimRef, reclaimRef := NOREF)).(
                              reclaimList := RemoveFirst(s.reclaimList, st.reclaimRef),
                              m := At(PlayRegistering, id, s.m.under)))
  {
    var st, u := s.streams[id], s.m.under;
    var s1 := With(s, id, st.(refrence := st.reclaimRef, reclaimRef := NOREF)).(m := At(PlayDelistLocking, id, u));
    var s2 := s1.(lock := HeldBy(Main), m := At(PlayDelisting, id, u));
    var r := s1.(reclaimList := RemoveFirst(s.reclaimList, st.reclaimRef), m := At(PlayRegistering, id, u));
    MovingBackSteps(s, id);
    hide Do;
    hide Enabled;
    hide Leads;
    hide RemoveFirst;
    StepLeads(s2, PlayDelist, r);
    FirstStep(s1, PlayDelistLock, s2, [PlayDelist], r);
    FirstStep(s, PlayMove, s1, [PlayDelistLock] + [PlayDelist], r);
    steps := [PlayMove] + ([PlayDelistLock] + [PlayDelist]);
  }

  /** From the start of a play to the registration. */
  lemma EnteringCourse(s: State, id: nat) returns (steps: seq<Step>, r: State)
    requires CanEnter(s.m) && s.lock.Free? && id in s.streams && s.streams[id].refrence <= NOREF
    ensures var st := s.streams[id];
            Leads(s, steps, r) &&
            r == (if st.reclaimed && st.reclaimRef > NOREF
                  then With(s, id, Stream(st.reclaimRef, NOREF, st.usecount, false)).(
                         reclaimList := RemoveFirst(s.reclaimList, st.reclaimRef))
                  else With(s, id, st.(reclaimed := false))).(m := At(PlayRegistering, id, Under(s.m)))
  {
    var st, u := s.streams[id], Under(s.m);
    assert Enabled(s, PlayBegin(id));
    if !st.reclaimed {
      r := With(s, id, st.(reclaimed := false)).(m := At(PlayRegistering, id, u));
      assert s.streams[id := st] == s.streams;
      StepLeads(s, PlayBegin(id), r);
      return [PlayBegin(id)], r;
    }
    var s1 := s.(m := At(PlayClearing, id, u));
    var s2 := With(s, id, st.(reclaimed := false)).(m := At(PlayMoving, id, u));
    assert Do(s, PlayBegin(id)) == s1;
    assert Enabled(s1, PlayClear) && Do(s1, PlayClear) == s2;
    if st.reclaimRef <= NOREF {
      r := s2.(m := At(PlayRegistering, id, u));
      StepLeads(s2, PlayMove, r);
      steps := [PlayMove];
    } else {
      steps := MovingBackCourse(s2, id);
      r := With(s, id, Stream(st.reclaimRef, NOREF, st.usecount, false)).(
             reclaimList := RemoveFirst(s.reclaimList, st.reclaimRef), m := At(PlayRegistering, id, u));
    }
    hide Do;
    hide Enabled;
    FirstStep(s1, PlayClear, s2, steps, r);
    FirstStep(s, PlayBegin(id), s1, [PlayClear] + steps, r);
    steps := [PlayBegin(id)] + ([PlayClear] + steps);
  }

  /** A play of a stream not listed goes through, with the reference put aside where there is one. */
  lemma PlayGoesThrough(s: State, id: nat, ref: int) returns (steps: seq<Step>)
    requires CanEnter(s.m) && s.lock.Free? && id in s.streams && s.streams[id].refrence <= NOREF
    requires ref > 0 && ref !in s.registry
    ensures Leads(s, steps, Played(s, id, ref))
  {
    hide Leads;
    hide RemoveFirst;
    var a, t := EnteringCourse(s, id);
    var b := ListingCourse(t, id, ref);
    steps := a + b;
    LeadsOn(s, a, t, b, Listed(t, id, ref));
    assert Listed(t, id, ref) == Played(s, id, ref);
  }
}
