/**
 * Courses from the start, by which the states that the exact conditions of the protocol speak
 * of are really met.
 */
module ReclaimInputs {
  import opened LinkedList
  import opened Reclaim
  import opened ReclaimCalm
  import opened ReclaimRuns
  import opened Wrappers

  function With(s: State, id: nat, st: Stream): State {
    s.(streams := s.streams[id := st])
  }

  lemma Then(s: State, a: seq<Step>, e: Step)
    requires Feasible(s, a) && Enabled(End(s, a), e)
    ensures Feasible(s, a + [e]) && End(s, a + [e]) == Do(End(s, a), e)
  {
    hide Enabled;
    hide Do;
    OneStep(End(s, a), e);
    Joined(s, a, [e]);
  }

  /** A first play: a new reference, and a node in the list. */
  lemma PlayFirst(s: State, id: nat, ref: int) returns (steps: seq<Step>)
    requires s.m.place.Idle? && s.lock.Free? && id in s.streams && s.streams[id] == Stream(NOREF, NOREF, 0, false)
    requires ref > 0 && ref !in s.registry
    ensures Feasible(s, steps)
    ensures End(s, steps) ==
            With(s, id, Stream(ref, NOREF, 0, false)).(registry := s.registry[ref := id],
              registered := s.registered + multiset{id}, streamList := [Entry(ref, id)] + s.streamList, m := RESTING)
  {
    var s1 := s.(m := At(PlayRegistering, id, None));
    var s2 := With(s1, id, Stream(ref, NOREF, 0, false)).(registry := s.registry[ref := id],
                registered := s.registered + multiset{id}, m := At(PlayLocking, id, None));
    assert Enabled(s, PlayBegin(id)) && Do(s, PlayBegin(id)) == s1;
    assert Enabled(s1, PlayRegister(ref)) && Do(s1, PlayRegister(ref)) == s2;
    PlayEnds(s2, id);
    hide Enabled;
    hide Do;
    TwoSteps(s, PlayBegin(id), PlayRegister(ref));
    steps := [PlayBegin(id), PlayRegister(ref)] + [PlayLock, PlayAdd];
    Joined(s, [PlayBegin(id), PlayRegister(ref)], [PlayLock, PlayAdd]);
  }

  lemma PlayEnds(s: State, id: nat)
    requires s.m == At(PlayLocking, id, None) && s.lock.Free? && id in s.streams
    ensures Feasible(s, [PlayLock, PlayAdd])
    ensures End(s, [PlayLock, PlayAdd]) ==
            s.(streamList := [Entry(s.streams[id].refrence, id)] + s.streamList, m := RESTING)
  {
    assert Enabled(s, PlayLock);
    var s1 := Do(s, PlayLock);
    assert s1 == s.(lock := HeldBy(Main), m := At(PlayAdding, id, None));
    assert Enabled(s1, PlayAdd);
    assert Do(s1, PlayAdd) == s.(streamList := [Entry(s.streams[id].refrence, id)] + s.streamList, m := RESTING);
    hide Enabled;
    hide Do;
    TwoSteps(s, PlayLock, PlayAdd);
  }

  /** The end of a stop that finds no pins. */
  lemma StopQueues(s: State, id: nat) returns (steps: seq<Step>)
    requires s.m == At(StopCheck, id, None) && s.lock.Free? && id in s.streams
    requires s.streams[id].usecount == 0 && s.streams[id].reclaimRef > NOREF
    ensures Feasible(s, steps)
    ensures End(s, steps) == s.(reclaimList := [Entry(s.streams[id].reclaimRef, id)] + s.reclaimList, m := RESTING)
  {
    var s1 := s.(m := At(StopQueueing, id, None));
    var s2 := s1.(lock := HeldBy(Main), m := At(StopQueueAdding, id, None));
    assert Enabled(s, StopLoad) && Do(s, StopLoad) == s1;
    assert Enabled(s1, StopQueueLock) && Do(s1, StopQueueLock) == s2;
    assert Enabled(s2, StopQueueAdd);
    assert Do(s2, StopQueueAdd) ==
           s.(reclaimList := [Entry(s.streams[id].reclaimRef, id)] + s.reclaimList, m := RESTING);
    hide Enabled;
    hide Do;
    TwoSteps(s, StopLoad, StopQueueLock);
    steps := [StopLoad, StopQueueLock] + [StopQueueAdd];
    Then(s, [StopLoad, StopQueueLock], StopQueueAdd);
  }

  /** A second stop of a stream already stopped finds nothing to unlist or to put aside. */
  lemma StopAgain(s: State, id: nat) returns (steps: seq<Step>)
    requires s.m.place.Idle? && s.lock.Free? && id in s.streams
    requires s.streams[id].refrence == NOREF && s.streams[id].reclaimed
    ensures Feasible(s, steps) && End(s, steps) == s.(m := At(StopCheck, id, None))
  {
    var s1 := s.(m := At(StopLocking, id, None));
    var s2 := s1.(lock := HeldBy(Main), m := At(StopListing, id, None));
    var s3 := s.(m := At(StopMarking, id, None));
    assert Enabled(s, StopBegin(id)) && Do(s, StopBegin(id)) == s1;
    assert Enabled(s1, StopLock) && Do(s1, StopLock) == s2;
    assert Enabled(s2, StopUnlist) && Do(s2, StopUnlist) == s3;
    MarkedAgain(s3, id);
    hide Enabled;
    hide Do;
    TwoSteps(s, StopBegin(id), StopLock);
    Then(s, [StopBegin(id), StopLock], StopUnlist);
    steps := [StopBegin(id), StopLock] + [StopUnlist] + [StopMark, StopMoveRef];
    Joined(s, [StopBegin(id), StopLock] + [StopUnlist], [StopMark, StopMoveRef]);
  }

  lemma MarkedAgain(s: State, id: nat)
    requires s.m == At(StopMarking, id, None) && id in s.streams
    requires s.streams[id].refrence == NOREF && s.streams[id].reclaimed
    ensures Feasible(s, [StopMark, StopMoveRef])
    ensures End(s, [StopMark, StopMoveRef]) == s.(m := At(StopCheck, id, None))
  {
    var s1 := s.(m := At(StopTransfer, id, None));
    assert s.streams[id := s.streams[id].(reclaimed := true)] == s.streams;
    assert Enabled(s, StopMark) && Do(s, StopMark) == s1;
    assert Enabled(s1, StopMoveRef) && Do(s1, StopMoveRef) == s.(m := At(StopCheck, id, None));
    hide Enabled;
    hide Do;
    TwoSteps(s, StopMark, StopMoveRef);
  }

  /** A replay takes the reference back and drops one entry of it from the reclaim list. */
  lemma PlayAgain(s: State, id: nat, ref: int) returns (steps: seq<Step>)
    requires s.m.place.Idle? && s.lock.Free? && id in s.streams && s.streams[id] == Stream(NOREF, ref, 0, true)
    requires ref > 0
    ensures Feasible(s, steps)
    ensures End(s, steps) ==
            With(s, id, Stream(ref, NOREF, 0, false)).(reclaimList := RemoveFirst(s.reclaimList, ref),
              streamList := [Entry(ref, id)] + s.streamList, m := RESTING)
  {
    var s3 := With(s, id, Stream(ref, NOREF, 0, false)).(m := At(PlayDelistLocking, id, None));
    var first := PlayMovesBack(s, id, ref);
    var more := PlayDelists(s3, id, ref);
    steps := first + more;
    Joined(s, first, more);
  }

  lemma PlayMovesBack(s: State, id: nat, ref: int) returns (steps: seq<Step>)
    requires s.m.place.Idle? && id in s.streams && s.streams[id] == Stream(NOREF, ref, 0, true) && ref > 0
    ensures Feasible(s, steps)
    ensures End(s, steps) == With(s, id, Stream(ref, NOREF, 0, false)).(m := At(PlayDelistLocking, id, None))
  {
    var s1 := s.(m := At(PlayClearing, id, None));
    var s2 := With(s, id, Stream(NOREF, ref, 0, false)).(m := At(PlayMoving, id, None));
    assert Enabled(s, PlayBegin(id)) && Do(s, PlayBegin(id)) == s1;
    assert Enabled(s1, PlayClear) && Do(s1, PlayClear) == s2;
    assert Enabled(s2, PlayMove);
    assert Do(s2, PlayMove) == With(s, id, Stream(ref, NOREF, 0, false)).(m := At(PlayDelistLocking, id, None));
    hide Enabled;
    hide Do;
    TwoSteps(s, PlayBegin(id), PlayClear);
    steps := [PlayBegin(id), PlayClear] + [PlayMove];
    Then(s, [PlayBegin(id), PlayClear], PlayMove);
  }

  lemma PlayDelists(s: State, id: nat, ref: int) returns (steps: seq<Step>)
    requires s.m == At(PlayDelistLocking, id, None) && s.lock.Free? && id in s.streams
    requires s.streams[id].refrence == ref > 0
    ensures Feasible(s, steps)
    ensures End(s, steps) == s.(reclaimList := RemoveFirst(s.reclaimList, ref),
                                streamList := [Entry(ref, id)] + s.streamList, m := RESTING)
  {
    var spare := Spare(s.registry.Keys);
    var s1 := s.(lock := HeldBy(Main), m := At(PlayDelisting, id, None));
    var s2 := s.(reclaimList := RemoveFirst(s.reclaimList, ref), m := At(PlayRegistering, id, None));
    var s3 := s2.(m := At(PlayLocking, id, None));
    assert Enabled(s, PlayDelistLock) && Do(s, PlayDelistLock) == s1;
    assert Enabled(s1, PlayDelist) && Do(s1, PlayDelist) == s2;
    assert Enabled(s2, PlayRegister(spare)) && Do(s2, PlayRegister(spare)) == s3;
    PlayEnds(s3, id);
    hide Enabled;
    hide Do;
    TwoSteps(s, PlayDelistLock, PlayDelist);
    Then(s, [PlayDelistLock, PlayDelist], PlayRegister(spare));
    steps := [PlayDelistLock, PlayDelist] + [PlayRegister(spare)] + [PlayLock, PlayAdd];
    Joined(s, [PlayDelistLock, PlayDelist] + [PlayRegister(spare)], [PlayLock, PlayAdd]);
  }

  /** There is always a reference that is not in use. */
  lemma {:induction false} Spare(taken: set<int>) returns (ref: int)
    ensures ref > 0 && ref !in taken
  {
    if x :| x in taken {
      var bound := Bound(taken);
      ref := if bound > 0 then bound + 1 else 1;
    } else {
      ref := 1;
    }
  }

  lemma {:induction false} Bound(taken: set<int>) returns (b: int)
    ensures forall x | x in taken :: x <= b
    decreases |taken|
  {
    if y :| y in taken {
      var c := Bound(taken - {y});
      b := if c > y then c else y;
      assert forall x | x in taken :: x == y || x in taken - {y};
    } else {
      b := 0;
    }
  }

  // ---- The two courses ----

  /** Played, stopped twice and played again: an old entry of the stream is left behind. */
  lemma OldEntryIsLeft(s: State) returns (steps: seq<Step>)
    requires Initial(s) && 0 in s.streams
    ensures Feasible(s, steps)
    ensures var r := End(s, steps);
            Inv(r) && AtRest(r) && In(r.streamList, 0) && In(r.reclaimList, 0)
  {
    StartKeepsInv(s);
    var a := PlayFirst(s, 0, 1);
    var s1 := End(s, a);
    var b := StopUnlists(s1, 0);
    Joined(s, a, b);
    var s2 := End(s1, b);
    var c := StopMarks(s2, 0);
    Joined(s, a + b, c);
    var s3 := End(s2, c);
    var d := StopQueues(s3, 0);
    Joined(s, a + b + c, d);
    var s4 := End(s3, d);
    var e := StopAgain(s4, 0);
    Joined(s, a + b + c + d, e);
    var s5 := End(s4, e);
    var f := StopQueues(s5, 0);
    Joined(s, a + b + c + d + e, f);
    var s6 := End(s5, f);
    var g := PlayAgain(s6, 0, 1);
    Joined(s, a + b + c + d + e + f, g);
    steps := a + b + c + d + e + f + g;
    StepsKeepInv(s, steps);
    var r := End(s, steps);
    assert r.streamList[0] == Entry(1, 0);
    assert s6.reclaimList == [Entry(1, 0), Entry(1, 0)];
    assert r.reclaimList == [Entry(1, 0)];
  }

  lemma StartKeepsInv(s: State)
    requires Initial(s)
    ensures Inv(s)
  {
    ExecutionKeepsInv([s], [], 0);
  }

  lemma UnpinSubtracts(s: State, id: nat)
    requires s.b == At(Working, id, None) && id in s.streams && s.streams[id].usecount == 1
    ensures Feasible(s, [UnpinSub(Buffer)])
    ensures End(s, [UnpinSub(Buffer)]) ==
            With(s, id, s.streams[id].(usecount := 0)).(b := At(UnpinLast, id, None))
  {
    assert Enabled(s, UnpinSub(Buffer));
    OneStep(s, UnpinSub(Buffer));
  }

  lemma CleanReleases(s: State, id: nat, ref: int)
    requires s.m.place.Idle? && s.lock.Free? && s.reclaimList == [Entry(ref, id)] && id in s.streams
    requires s.streams[id].reclaimRef > NOREF
    ensures Feasible(s, [CleanLock, CleanPop])
    ensures var r := End(s, [CleanLock, CleanPop]);
            Enabled(r, CleanUnref) && r.m.id == id && r.streams == s.streams && r.b == s.b
  {
    var s1 := s.(lock := HeldBy(Main), m := At(Cleaning, 0, None));
    var s2 := s.(reclaimList := [], m := At(CleanRelease, id, None));
    assert Enabled(s, CleanLock) && Do(s, CleanLock) == s1;
    assert RemoveFirst(s.reclaimList, ref) == [];
    assert Enabled(s1, CleanPop) && Do(s1, CleanPop) == s2;
    assert Enabled(s2, CleanUnref);
    hide Enabled;
    hide Do;
    TwoSteps(s, CleanLock, CleanPop);
  }

  /**
   * Stopped between the buffer thread's decrement and its next load, the stream is released
   * while that thread has still to look at it.
   */
  lemma ReleasedUnderUnpin(s: State) returns (steps: seq<Step>)
    requires Initial(s) && 0 in s.streams
    ensures Feasible(s, steps) && Enabled(End(s, steps), CleanUnref)
    ensures var r := End(s, steps);
            && r.m.id == 0 && 0 in r.streams && r.streams[0].reclaimRef > NOREF
            && r.b == At(UnpinLast, 0, None) && TouchedLater(Do(r, CleanUnref), 0)
  {
    StartKeepsInv(s);
    var a := PlayFirst(s, 0, 1);
    var s1 := End(s, a);
    var b := PinListed(s1, 0, 0);
    Joined(s, a, b);
    var s2 := End(s1, b);
    var c := StopUnlists(s2, 0);
    Joined(s, a + b, c);
    var s3 := End(s2, c);
    var d := StopMarks(s3, 0);
    Joined(s, a + b + c, d);
    var s4 := End(s3, d);
    UnpinSubtracts(s4, 0);
    Joined(s, a + b + c + d, [UnpinSub(Buffer)]);
    var s5 := End(s4, [UnpinSub(Buffer)]);
    var e := StopQueues(s5, 0);
    Joined(s, a + b + c + d + [UnpinSub(Buffer)], e);
    var s6 := End(s5, e);
    CleanReleases(s6, 0, 1);
    Joined(s, a + b + c + d + [UnpinSub(Buffer)] + e, [CleanLock, CleanPop]);
    steps := a + b + c + d + [UnpinSub(Buffer)] + e + [CleanLock, CleanPop];
    StepsKeepInv(s, steps);
    TouchedNext(End(s, steps), 0);
  }

  lemma TouchedNext(s: State, id: nat)
    requires Inv(s) && Enabled(s, CleanUnref) && s.m.id == id && s.b == At(UnpinLast, id, None)
    requires id in s.streams && s.streams[id].reclaimRef > NOREF
    ensures TouchedLater(Do(s, CleanUnref), id)
  {
    StepKeepsInv(s, CleanUnref);
    var r := Do(s, CleanUnref);
    assert Fine(r, id) && r.m.place.Idle? && r.b == s.b;
    hide Inv;
    var steps, e := BusyThreadTouches(r, id);
    assert TouchedAt(r, steps, e, id);
  }
}
