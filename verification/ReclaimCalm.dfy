/**
 * When a reference is released without pins: replaying a stream may leave an old entry of it
 * in the reclaim list, and then a later release can come while the stream is pinned. Exactly
 * the replays that leave an entry behind allow that.
 */
module ReclaimCalm {
  import opened LinkedList
  import opened Reclaim
  import opened ReclaimRuns
  import opened Wrappers

  /** Places from which an entry of the stream is going to be added, or its release to follow. */
  predicate Queueing(place: Place) {
    place.UnpinWaiting? || place.UnpinAdding? || place.StopQueueing? || place.StopQueueAdding? || place.CleanRelease?
  }

  /** The stream is about to be released: entries of it are under way or listed. */
  predicate Doomed(s: State, id: nat) {
    || In(s.reclaimList, id)
    || (Names(s.b, id) && Queueing(s.b.place)) || (Names(s.m, id) && Queueing(s.m.place))
  }

  /** A stream about to be released cannot be pinned, and the buffer thread holds no pin on it. */
  ghost predicate Calm(s: State, id: nat) {
    && (Doomed(s, id) ==> Pins(s.b, id) == 0 && !In(s.streamList, id))
    && (Names(s.m, id) && s.m.place.UnpinReclaimed? ==> Pins(s.b, id) == 0 && !In(s.streamList, id))
    && (Names(s.m, id) && s.m.place.UnpinLast? && id in s.streams && s.streams[id].reclaimed ==> Pins(s.b, id) == 0)
  }

  /** A play that leaves no old entry of its stream behind, listed or on its way. */
  predicate CleanPlay(s: State, e: Step) {
    e.PlayAdd? ==> !In(s.reclaimList, s.m.id) && !(Names(s.b, s.m.id) && s.b.place.UnpinWaiting?)
  }

  predicate CleanPlays(s: State, steps: seq<Step>)
    requires Feasible(s, steps)
    decreases |steps|
  {
    |steps| == 0 || (CleanPlay(s, steps[0]) && CleanPlays(Do(s, steps[0]), steps[1..]))
  }

  // ---- Clean plays keep the calm ----

  lemma PinKeepsCalm(s: State, e: Step, id: nat)
    requires Base(s) && Enabled(s, e) && (e.LockWalk? || e.UnlockWalk? || e.PinAdd? || e.PinCheck? || e.PinUnlock?)
    requires Fine(s, id) && Calm(s, id)
    ensures Calm(Do(s, e), id)
  {
    hide LockInv;
    hide ListInv;
    hide RemoveFirst;
    hide In;
    if e.t.Buffer? {
      assert Calm(Do(s, e), id);
    }
  }

  lemma PinLoadKeepsCalm(s: State, e: Step, id: nat)
    requires Base(s) && Enabled(s, e) && e.PinLoad?
    requires Fine(s, id) && Calm(s, id)
    ensures Calm(Do(s, e), id)
  {
    hide ListInv;
    hide RemoveFirst;
    hide In;
  }

  lemma UnpinSubKeepsCalm(s: State, e: Step, id: nat)
    requires Base(s) && Enabled(s, e) && e.UnpinSub?
    requires Fine(s, id) && Calm(s, id)
    ensures Calm(Do(s, e), id)
  {
    hide LockInv;
    hide ListInv;
    hide RemoveFirst;
    hide In;
    if e.t.Buffer? {
      assert Calm(Do(s, e), id);
    }
  }

  lemma UnpinKeepsCalm(s: State, e: Step, id: nat)
    requires Base(s) && Enabled(s, e) && (e.UnpinLoad? || e.UnpinCheckRef? || e.UnpinLock?)
    requires Fine(s, id) && Calm(s, id)
    ensures Calm(Do(s, e), id)
  {
    hide LockInv;
    hide ListInv;
    hide RemoveFirst;
    hide In;
    if e.t.Buffer? {
      assert Calm(Do(s, e), id);
    }
  }

  lemma UnpinAddKeepsCalm(s: State, e: Step, id: nat)
    requires Base(s) && Enabled(s, e) && e.UnpinAdd?
    requires Fine(s, id) && Calm(s, id)
    ensures Calm(Do(s, e), id)
  {
    var i := PcOf(s, e.t).id;
    InPrepended(Entry(s.streams[i].reclaimRef, i), s.reclaimList, id);
    hide LockInv;
    hide ListInv;
    hide RemoveFirst;
    hide In;
    if e.t.Buffer? {
      assert Calm(Do(s, e), id);
    }
  }

  lemma StopKeepsCalm(s: State, e: Step, id: nat)
    requires Base(s) && Enabled(s, e) && (e.StopBegin? || e.StopLock? || e.StopMark? || e.StopMoveRef?)
    requires Fine(s, id) && Calm(s, id)
    ensures Calm(Do(s, e), id)
  {
    hide LockInv;
    hide ListInv;
    hide RemoveFirst;
    hide In;
  }

  lemma StopUnlistKeepsCalm(s: State, id: nat)
    requires Base(s) && Enabled(s, StopUnlist)
    requires Fine(s, id) && Calm(s, id)
    ensures Calm(Do(s, StopUnlist), id)
  {
    InSmaller(s.streamList, s.streams[s.m.id].refrence, id);
    hide LockInv;
    hide ListInv;
    hide RemoveFirst;
    hide In;
  }

  lemma StopQueueKeepsCalm(s: State, e: Step, id: nat)
    requires Base(s) && Enabled(s, e) && (e.StopLoad? || e.StopQueueLock? || e.StopQueueAdd?)
    requires Fine(s, id) && Calm(s, id)
    ensures Calm(Do(s, e), id)
  {
    if e.StopQueueAdd? {
      InPrepended(Entry(s.streams[s.m.id].reclaimRef, s.m.id), s.reclaimList, id);
    }
    hide LockInv;
    hide ListInv;
    hide RemoveFirst;
    hide In;
  }

  lemma CleanKeepsCalm(s: State, e: Step, id: nat)
    requires Base(s) && Enabled(s, e) && (e.CleanLock? || e.CleanPop? || e.CleanUnref?)
    requires Fine(s, id) && Calm(s, id)
    ensures Calm(Do(s, e), id)
  {
    if e.CleanPop? && |s.reclaimList| > 0 {
      assert In(s.reclaimList, s.reclaimList[0].data);
      InSmaller(s.reclaimList, s.reclaimList[0].index, id);
    }
    hide LockInv;
    hide ListInv;
    hide RemoveFirst;
    hide In;
  }

  lemma PlayKeepsCalm(s: State, e: Step, id: nat)
    requires Base(s) && Enabled(s, e) && (e.PlayBegin? || e.PlayClear? || e.PlayMove?)
    requires Fine(s, id) && Calm(s, id)
    ensures Calm(Do(s, e), id)
  {
    hide LockInv;
    hide ListInv;
    hide RemoveFirst;
    hide In;
  }

  lemma PlayEndKeepsCalm(s: State, e: Step, id: nat)
    requires Base(s) && Enabled(s, e) && (e.PlayDelistLock? || e.PlayRegister? || e.PlayLock?)
    requires Fine(s, id) && Calm(s, id)
    ensures Calm(Do(s, e), id)
  {
    hide LockInv;
    hide ListInv;
    hide RemoveFirst;
    hide In;
  }

  lemma PlayListsKeepCalm(s: State, e: Step, id: nat)
    requires Base(s) && Enabled(s, e) && (e.PlayDelist? || e.PlayAdd?) && CleanPlay(s, e)
    requires Fine(s, id) && Calm(s, id)
    ensures Calm(Do(s, e), id)
  {
    if e.PlayDelist? {
      InSmaller(s.reclaimList, s.streams[s.m.id].refrence, id);
    } else {
      InPrepended(Entry(s.streams[s.m.id].refrence, s.m.id), s.streamList, id);
    }
    hide ListInv;
    hide RemoveFirst;
    hide In;
  }

  lemma StepKeepsCalm(s: State, e: Step, id: nat)
    requires Inv(s) && Enabled(s, e) && CleanPlay(s, e)
    requires id in s.streams && Calm(s, id)
    ensures Calm(Do(s, e), id)
  {
    RollbackNeverRuns(s, e);
    assert Base(s) && Fine(s, id);
    hide Fine;
    hide Base;
    hide Calm;
    hide CleanPlay;
    hide Do;
    hide Enabled;
    if e.PinLoad? {
      PinLoadKeepsCalm(s, e, id);
    } else if e.UnpinSub? {
      UnpinSubKeepsCalm(s, e, id);
    } else if e.UnpinLoad? || e.UnpinCheckRef? || e.UnpinLock? {
      UnpinKeepsCalm(s, e, id);
    } else if e.UnpinAdd? {
      UnpinAddKeepsCalm(s, e, id);
    } else if IsThreadStep(e) {
      PinKeepsCalm(s, e, id);
    } else if e.StopUnlist? {
      StopUnlistKeepsCalm(s, id);
    } else if e.StopLoad? || e.StopQueueLock? || e.StopQueueAdd? {
      StopQueueKeepsCalm(s, e, id);
    } else if IsStop(e) {
      StopKeepsCalm(s, e, id);
    } else if e.CleanLock? || e.CleanPop? || e.CleanUnref? {
      CleanKeepsCalm(s, e, id);
    } else if e.PlayDelist? || e.PlayAdd? {
      PlayListsKeepCalm(s, e, id);
    } else if e.PlayBegin? || e.PlayClear? || e.PlayMove? {
      PlayKeepsCalm(s, e, id);
    } else {
      PlayEndKeepsCalm(s, e, id);
    }
  }

  lemma {:induction false} StepsKeepCalm(s: State, steps: seq<Step>, id: nat)
    requires Inv(s) && Feasible(s, steps) && CleanPlays(s, steps)
    requires id in s.streams && Calm(s, id)
    ensures Inv(End(s, steps)) && id in End(s, steps).streams && Calm(End(s, steps), id)
    decreases |steps|
  {
    hide Inv;
    hide Enabled;
    hide Do;
    hide Calm;
    hide CleanPlay;
    if |steps| > 0 {
      StepKeepsInv(s, steps[0]);
      StreamsStay(s, steps[0]);
      assert id in s.streams.Keys;
      StepKeepsCalm(s, steps[0], id);
      StepsKeepCalm(Do(s, steps[0]), steps[1..], id);
    }
  }

  // ---- Released at use count zero ----

  lemma {:induction false} CleanExecutionIsCalm(run: seq<State>, steps: seq<Step>, n: nat, id: nat)
    requires Execution(run, steps) && n < |run| && id in run[n].streams
    requires forall i | 0 <= i < n :: CleanPlay(run[i], steps[i])
    ensures Calm(run[n], id)
  {
    if n > 0 {
      ExecutionKeepsInv(run, steps, n - 1);
      hide Inv;
      hide Calm;
      StreamsStay(run[n - 1], steps[n - 1]);
      assert id in run[n].streams.Keys;
      CleanExecutionIsCalm(run, steps, n - 1, id);
      StepKeepsCalm(run[n - 1], steps[n - 1], id);
    }
  }

  /** With clean plays, however many, a reference is released at use count zero only. */
  lemma ReleasedAtZero(run: seq<State>, steps: seq<Step>, n: nat)
    requires Execution(run, steps) && n < |steps|
    requires forall i | 0 <= i < n :: CleanPlay(run[i], steps[i])
    requires steps[n] == CleanUnref
    ensures run[n].streams[run[n].m.id].usecount == 0
  {
    ExecutionKeepsInv(run, steps, n);
    assert Fine(run[n], run[n].m.id);
    CleanExecutionIsCalm(run, steps, n, run[n].m.id);
  }

  // ---- An entry left behind ----

  /** Both threads stand outside the protocol. */
  predicate AtRest(s: State) {
    s.b.place.Idle? && s.m.place.Idle? && s.lock.Free?
  }

  /** The next step gives back a reference of the stream while it is pinned. */
  predicate ReleasesPinned(s: State, id: nat) {
    && s.m.place.CleanRelease? && s.m.id == id && id in s.streams
    && s.streams[id].reclaimRef > NOREF && s.streams[id].usecount > 0
  }

  /** A further course, on which every play is clean, comes to such a release. */
  ghost predicate PinnedReleaseLater(s: State, id: nat) {
    exists steps: seq<Step> :: PinnedReleaseAfter(s, steps, id)
  }

  predicate PinnedReleaseAfter(s: State, steps: seq<Step>, id: nat) {
    Feasible(s, steps) && CleanPlays(s, steps) && ReleasesPinned(End(s, steps), id)
  }

  lemma {:induction false} NoPlaysAreClean(s: State, steps: seq<Step>)
    requires Feasible(s, steps) && forall e | e in steps :: !e.PlayAdd?
    ensures CleanPlays(s, steps)
    decreases |steps|
  {
    hide Enabled;
    hide Do;
    if |steps| > 0 {
      assert !steps[0].PlayAdd?;
      NoPlaysAreClean(Do(s, steps[0]), steps[1..]);
    }
  }

  /** A stream not in use, as the buffer thread finds it at a place of the list. */
  predicate Pinnable(s: State, k: nat, id: nat) {
    && k < |s.streamList| && s.streamList[k].data == id && id in s.streams
    && !s.streams[id].reclaimed && s.streams[id].usecount == 0
  }

  function Used(s: State, id: nat): State
    requires id in s.streams
  {
    s.(streams := s.streams[id := s.streams[id].(usecount := 1)])
  }

  lemma PinBegins(s: State, k: nat, id: nat) returns (steps: seq<Step>)
    requires s.b.place.Idle? && s.lock.Free? && Pinnable(s, k, id)
    ensures Feasible(s, steps) && (forall e | e in steps :: !e.PlayAdd?)
    ensures End(s, steps) == s.(lock := HeldBy(Buffer), b := At(PinLoaded, id, None))
  {
    var s1 := s.(lock := HeldBy(Buffer), b := At(Walking, 0, None));
    assert Enabled(s, LockWalk(Buffer)) && Do(s, LockWalk(Buffer)) == s1;
    assert Enabled(s1, PinLoad(Buffer, k));
    assert Do(s1, PinLoad(Buffer, k)) == s1.(b := At(PinLoaded, id, None));
    hide Enabled;
    hide Do;
    steps := [LockWalk(Buffer), PinLoad(Buffer, k)];
    TwoSteps(s, steps[0], steps[1]);
  }

  lemma PinAdds(s: State, id: nat) returns (steps: seq<Step>)
    requires s.b == At(PinLoaded, id, None) && id in s.streams
    requires !s.streams[id].reclaimed && s.streams[id].usecount == 0
    ensures Feasible(s, steps) && (forall e | e in steps :: !e.PlayAdd?)
    ensures End(s, steps) == Used(s, id).(b := At(PinDone, id, None))
  {
    var s1 := Used(s, id).(b := At(PinAdded, id, None));
    assert Enabled(s, PinAdd(Buffer)) && Do(s, PinAdd(Buffer)) == s1;
    assert Enabled(s1, PinCheck(Buffer));
    assert Do(s1, PinCheck(Buffer)) == s1.(b := At(PinDone, id, None));
    hide Enabled;
    hide Do;
    steps := [PinAdd(Buffer), PinCheck(Buffer)];
    TwoSteps(s, steps[0], steps[1]);
  }

  lemma PinEnds(s: State, id: nat)
    requires s.b == At(PinDone, id, None)
    ensures Feasible(s, [PinUnlock(Buffer)])
    ensures End(s, [PinUnlock(Buffer)]) == s.(lock := Free, b := At(Working, id, None))
  {
    assert Enabled(s, PinUnlock(Buffer));
    OneStep(s, PinUnlock(Buffer));
  }

  /** The buffer thread pins a listed stream. */
  lemma PinListed(s: State, k: nat, id: nat) returns (steps: seq<Step>)
    requires s.b.place.Idle? && s.lock.Free? && Pinnable(s, k, id)
    ensures Feasible(s, steps) && (forall e | e in steps :: !e.PlayAdd?)
    ensures End(s, steps) == Used(s, id).(b := At(Working, id, None))
  {
    var first := PinBegins(s, k, id);
    var second := PinAdds(End(s, first), id);
    Joined(s, first, second);
    var third := [PinUnlock(Buffer)];
    PinEnds(End(s, first + second), id);
    Joined(s, first + second, third);
    steps := first + second + third;
    var r := End(s, steps);
    assert r == Used(s, id).(lock := Free, b := At(Working, id, None));
  }

  // ---- A stop, step by step ----

  lemma StopUnlists(s: State, id: nat) returns (steps: seq<Step>)
    requires s.m.place.Idle? && s.lock.Free? && id in s.streams && s.streams[id].refrence > NOREF
    ensures Feasible(s, steps) && (forall e | e in steps :: !e.PlayAdd?)
    ensures End(s, steps) == s.(streamList := RemoveFirst(s.streamList, s.streams[id].refrence),
                                m := At(StopMarking, id, None))
  {
    var s1 := s.(m := At(StopLocking, id, None));
    var s2 := s1.(lock := HeldBy(Main), m := At(StopListing, id, None));
    assert Enabled(s, StopBegin(id)) && Do(s, StopBegin(id)) == s1;
    assert Enabled(s1, StopLock) && Do(s1, StopLock) == s2;
    assert Enabled(s2, StopUnlist);
    assert Do(s2, StopUnlist) == s2.(lock := Free, streamList := RemoveFirst(s.streamList, s.streams[id].refrence),
                                     m := At(StopMarking, id, None));
    hide Enabled;
    hide Do;
    TwoSteps(s, StopBegin(id), StopLock);
    OneStep(s2, StopUnlist);
    Joined(s, [StopBegin(id), StopLock], [StopUnlist]);
    steps := [StopBegin(id), StopLock] + [StopUnlist];
  }

  lemma StopMarks(s: State, id: nat) returns (steps: seq<Step>)
    requires s.m == At(StopMarking, id, None) && id in s.streams && s.streams[id].refrence > NOREF
    ensures Feasible(s, steps) && (forall e | e in steps :: !e.PlayAdd?)
    ensures var st := s.streams[id];
            End(s, steps) == s.(streams := s.streams[id := Stream(NOREF, st.refrence, st.usecount, true)],
                                m := At(StopCheck, id, None))
  {
    var st := s.streams[id];
    var s1 := s.(streams := s.streams[id := st.(reclaimed := true)], m := At(StopTransfer, id, None));
    assert Enabled(s, StopMark) && Do(s, StopMark) == s1;
    assert Enabled(s1, StopMoveRef);
    assert Do(s1, StopMoveRef) ==
           s1.(streams := s.streams[id := Stream(NOREF, st.refrence, st.usecount, true)], m := At(StopCheck, id, None));
    hide Enabled;
    hide Do;
    steps := [StopMark, StopMoveRef];
    TwoSteps(s, steps[0], steps[1]);
  }

  lemma StopFindsPins(s: State, id: nat)
    requires s.m == At(StopCheck, id, None) && id in s.streams && s.streams[id].usecount != 0
    ensures Feasible(s, [StopLoad]) && End(s, [StopLoad]) == s.(m := RESTING)
  {
    assert Enabled(s, StopLoad);
    OneStep(s, StopLoad);
  }

  /** A stop of a pinned stream leaves it marked, with its reference put aside and not queued. */
  lemma StopPinned(s: State, id: nat) returns (steps: seq<Step>)
    requires s.m.place.Idle? && s.lock.Free? && id in s.streams
    requires s.streams[id].refrence > NOREF && s.streams[id].usecount > 0
    ensures Feasible(s, steps) && (forall e | e in steps :: !e.PlayAdd?)
    ensures var st := s.streams[id];
            End(s, steps) == s.(streamList := RemoveFirst(s.streamList, st.refrence),
                                streams := s.streams[id := Stream(NOREF, st.refrence, st.usecount, true)], m := RESTING)
  {
    var first := StopUnlists(s, id);
    var second := StopMarks(End(s, first), id);
    Joined(s, first, second);
    var third := [StopLoad];
    StopFindsPins(End(s, first + second), id);
    Joined(s, first + second, third);
    steps := first + second + third;
  }

  /** An entry left behind by a play leads to a release of the stream while it is pinned. */
  lemma OldEntryReleases(s: State, id: nat) returns (steps: seq<Step>)
    requires Inv(s) && AtRest(s) && In(s.streamList, id) && In(s.reclaimList, id)
    ensures PinnedReleaseAfter(s, steps, id)
  {
    var k :| 0 <= k < |s.streamList| && s.streamList[k].data == id;
    ListedIsKnown(s, id);
    assert Fine(s, id);
    hide Inv;
    hide In;
    var first := PinListed(s, k, id);
    StepsKeepInv(s, first);
    var second := StopPinned(End(s, first), id);
    StepsKeepInv(End(s, first), second);
    Joined(s, first, second);
    var third := CleaningGoes(End(s, first + second), id);
    Joined(s, first + second, third);
    steps := first + second + third;
    NoPlaysAreClean(s, steps);
  }

  lemma CleaningGoes(s: State, id: nat) returns (steps: seq<Step>)
    requires Inv(s) && s.m.place.Idle? && s.lock.Free? && In(s.reclaimList, id)
    ensures Feasible(s, steps) && (forall e | e in steps :: !e.PlayAdd?)
    ensures var r := End(s, steps);
            && r.m.place.CleanRelease? && r.m.id == id
            && id in s.streams && id in r.streams && r.streams[id] == s.streams[id]
  {
    steps := CleaningReaches(s, id);
  }

  lemma CalmReleasesUnpinned(s: State, id: nat)
    requires Inv(s) && id in s.streams && Calm(s, id)
    ensures !ReleasesPinned(s, id)
  {
    assert Fine(s, id);
  }

  lemma CleanCourseReleasesUnpinned(s: State, steps: seq<Step>, id: nat)
    requires Inv(s) && id in s.streams && Calm(s, id)
    ensures !PinnedReleaseAfter(s, steps, id)
  {
    if Feasible(s, steps) && CleanPlays(s, steps) {
      StepsKeepCalm(s, steps, id);
      CalmReleasesUnpinned(End(s, steps), id);
    }
  }

  /**
   * With both threads at rest and a stream listed for playing, some further course of clean
   * plays releases a reference of it while it is pinned if and only if an old entry of it is
   * left in the reclaim list.
   */
  lemma PinnedReleaseIff(s: State, id: nat)
    requires Inv(s) && AtRest(s) && In(s.streamList, id)
    ensures PinnedReleaseLater(s, id) <==> In(s.reclaimList, id)
  {
    ListedIsKnown(s, id);
    if In(s.reclaimList, id) {
      var steps := OldEntryReleases(s, id);
      assert PinnedReleaseAfter(s, steps, id);
    } else if PinnedReleaseLater(s, id) {
      var steps: seq<Step> :| PinnedReleaseAfter(s, steps, id);
      CleanCourseReleasesUnpinned(s, steps, id);
    }
  }
}
