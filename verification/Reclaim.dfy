/**
 * Pinning, stopping and reclaiming audio streams. The buffer thread and the main thread both
 * pin listed streams and unpin them; only the main thread plays, stops and cleans. Every
 * atomic access is a step of its own, and so is every entry to and exit from the mutex that
 * guards the two lists.
 */
module Reclaim {
  import opened LinkedList
  import opened Wrappers

  const NOREF: int := -2

  datatype Stream = Stream(refrence: int, reclaimRef: int, usecount: int, reclaimed: bool)

  datatype Thread = Buffer | Main

  datatype Place =
    | Idle | Walking
    | PinLoaded | PinAdded | PinRollback | PinDone
    | Working
    | UnpinLast | UnpinReclaimed | UnpinWaiting | UnpinAdding
    | StopLocking | StopListing | StopMarking | StopTransfer | StopCheck | StopQueueing | StopQueueAdding
    | Cleaning | CleanRelease
    | PlayClearing | PlayMoving | PlayDelistLocking | PlayDelisting | PlayRegistering | PlayLocking | PlayAdding

  /**
   * Where a thread stands, and with which stream. A stop or a play may run in the middle of
   * work on a pinned stream: at the end of that stream, or from a hook called then; `under`
   * names it.
   */
  datatype Pc = At(place: Place, id: nat, under: Option<nat>)

  const RESTING: Pc := At(Idle, 0, None)

  datatype Lock = Free | HeldBy(owner: Thread)

  /** `registered` and `released` count the references taken and given back, by stream. */
  datatype State = State(streams: map<nat, Stream>, streamList: seq<Entry<nat>>, reclaimList: seq<Entry<nat>>,
                         registry: map<int, nat>, lock: Lock, b: Pc, m: Pc,
                         registered: multiset<nat>, released: multiset<nat>)

  function PcOf(s: State, t: Thread): Pc {
    if t.Buffer? then s.b else s.m
  }

  function Go(s: State, t: Thread, pc: Pc): State {
    if t.Buffer? then s.(b := pc) else s.(m := pc)
  }

  predicate Names(pc: Pc, id: nat) {
    !pc.place.Idle? && !pc.place.Walking? && !pc.place.Cleaning? && pc.id == id
  }

  predicate Stopping(pc: Pc) {
    var at := pc.place;
    at.StopLocking? || at.StopListing? || at.StopMarking? || at.StopTransfer? || at.StopCheck?
    || at.StopQueueing? || at.StopQueueAdding?
  }

  predicate HasLock(pc: Pc) {
    var at := pc.place;
    at.Walking? || at.PinLoaded? || at.PinAdded? || at.PinRollback? || at.PinDone?
    || at.UnpinAdding? || at.StopListing? || at.StopQueueAdding? || at.Cleaning?
    || at.PlayDelisting? || at.PlayAdding?
  }

  predicate Playing(pc: Pc) {
    var at := pc.place;
    at.PlayClearing? || at.PlayMoving? || at.PlayDelistLocking? || at.PlayDelisting?
    || at.PlayRegistering? || at.PlayLocking? || at.PlayAdding?
  }

  /** The stream a thread keeps pinned around what it is doing now. */
  function Under(pc: Pc): Option<nat> {
    if pc.place.Working? then Some(pc.id)
    else if Stopping(pc) || Playing(pc) then pc.under
    else None
  }

  /** Back to the work around a stop or a play. */
  function Back(under: Option<nat>): Pc {
    match under
    case None => RESTING
    case Some(id) => At(Working, id, None)
  }

  /** The pins a thread holds on a stream: the ones its increments of usecount stand for. */
  function Pins(pc: Pc, id: nat): nat {
    var at := pc.place;
    if at.PinAdded? || at.PinRollback? || at.PinDone? || at.Working? then if pc.id == id then 1 else 0
    else if Under(pc) == Some(id) then 1
    else 0
  }

  // ---- Steps ----

  datatype Step =
    | LockWalk(t: Thread) | UnlockWalk(t: Thread)
    | PinLoad(t: Thread, k: nat) | PinAdd(t: Thread) | PinCheck(t: Thread) | PinUndo(t: Thread) | PinUnlock(t: Thread)
    | UnpinSub(t: Thread) | UnpinLoad(t: Thread) | UnpinCheckRef(t: Thread) | UnpinLock(t: Thread) | UnpinAdd(t: Thread)
    | StopBegin(id: nat) | StopLock | StopUnlist | StopMark | StopMoveRef | StopLoad | StopQueueLock | StopQueueAdd
    | CleanLock | CleanPop | CleanUnref
    | PlayBegin(id: nat) | PlayClear | PlayMove | PlayDelistLock | PlayDelist | PlayRegister(ref: int)
    | PlayLock | PlayAdd

  predicate ThreadEnabled(s: State, e: Step)
    requires e.LockWalk? || e.UnlockWalk? || e.PinLoad? || e.PinAdd? || e.PinCheck? || e.PinUndo? || e.PinUnlock?
             || e.UnpinSub? || e.UnpinLoad? || e.UnpinCheckRef? || e.UnpinLock? || e.UnpinAdd?
  {
    var pc := PcOf(s, e.t);
    match e
    case LockWalk(_) => pc.place.Idle? && s.lock.Free?
    case UnlockWalk(_) => pc.place.Walking?
    case PinLoad(_, k) => pc.place.Walking? && k < |s.streamList| && s.streamList[k].data in s.streams
    case PinAdd(_) => pc.place.PinLoaded? && pc.id in s.streams
    case PinCheck(_) => pc.place.PinAdded? && pc.id in s.streams
    case PinUndo(_) => pc.place.PinRollback? && pc.id in s.streams
    case PinUnlock(_) => pc.place.PinDone?
    case UnpinSub(_) => pc.place.Working? && pc.id in s.streams
    case UnpinLoad(_) => pc.place.UnpinLast? && pc.id in s.streams
    case UnpinCheckRef(_) => pc.place.UnpinReclaimed? && pc.id in s.streams
    case UnpinLock(_) => pc.place.UnpinWaiting? && s.lock.Free?
    case UnpinAdd(_) => pc.place.UnpinAdding? && pc.id in s.streams
  }

  predicate IsThreadStep(e: Step) {
    e.LockWalk? || e.UnlockWalk? || e.PinLoad? || e.PinAdd? || e.PinCheck? || e.PinUndo? || e.PinUnlock?
    || e.UnpinSub? || e.UnpinLoad? || e.UnpinCheckRef? || e.UnpinLock? || e.UnpinAdd?
  }

  predicate Enabled(s: State, e: Step) {
    if IsThreadStep(e) then ThreadEnabled(s, e)
    else
      match e
      case StopBegin(id) => id in s.streams && (s.m.place.Idle? || s.m.place.Working?)
      case StopLock => s.m.place.StopLocking? && s.lock.Free?
      case StopUnlist => s.m.place.StopListing? && s.m.id in s.streams
      case StopMark => s.m.place.StopMarking? && s.m.id in s.streams
      case StopMoveRef => s.m.place.StopTransfer? && s.m.id in s.streams
      case StopLoad => s.m.place.StopCheck? && s.m.id in s.streams
      case StopQueueLock => s.m.place.StopQueueing? && s.lock.Free?
      case StopQueueAdd => s.m.place.StopQueueAdding? && s.m.id in s.streams
      case CleanLock => s.m.place.Idle? && s.lock.Free?
      case CleanPop => s.m.place.Cleaning?
      case CleanUnref => s.m.place.CleanRelease? && s.m.id in s.streams
      // a stream that holds its active reference is not entered again
      case PlayBegin(id) =>
        (s.m.place.Idle? || s.m.place.Working?) && id in s.streams && s.streams[id].refrence <= NOREF
      case PlayClear => s.m.place.PlayClearing? && s.m.id in s.streams
      case PlayMove => s.m.place.PlayMoving? && s.m.id in s.streams
      case PlayDelistLock => s.m.place.PlayDelistLocking? && s.lock.Free?
      case PlayDelist => s.m.place.PlayDelisting? && s.m.id in s.streams
      case PlayRegister(ref) => s.m.place.PlayRegistering? && s.m.id in s.streams && ref > 0 && ref !in s.registry
      case PlayLock => s.m.place.PlayLocking? && s.lock.Free?
      case PlayAdd => s.m.place.PlayAdding? && s.m.id in s.streams
      case _ => false
  }

  function SetUse(s: State, id: nat, d: int): State
    requires id in s.streams
  {
    s.(streams := s.streams[id := s.streams[id].(usecount := s.streams[id].usecount + d)])
  }

  function DoThread(s: State, e: Step): State
    requires IsThreadStep(e) && ThreadEnabled(s, e)
  {
    var pc := PcOf(s, e.t);
    match e
    case LockWalk(t) => Go(s.(lock := HeldBy(t)), t, At(Walking, 0, None))
    case UnlockWalk(t) => Go(s.(lock := Free), t, RESTING)
    case PinLoad(t, k) =>
      var id := s.streamList[k].data;
      if s.streams[id].reclaimed then s else Go(s, t, At(PinLoaded, id, None))
    case PinAdd(t) => Go(SetUse(s, pc.id, 1), t, At(PinAdded, pc.id, None))
    case PinCheck(t) => Go(s, t, At(if s.streams[pc.id].reclaimed then PinRollback else PinDone, pc.id, None))
    case PinUndo(t) => Go(SetUse(s, pc.id, -1), t, At(Walking, 0, None))
    case PinUnlock(t) => Go(s.(lock := Free), t, At(Working, pc.id, None))
    case UnpinSub(t) =>
      Go(SetUse(s, pc.id, -1), t, if s.streams[pc.id].usecount == 1 then At(UnpinLast, pc.id, None) else RESTING)
    case UnpinLoad(t) => Go(s, t, if s.streams[pc.id].reclaimed then At(UnpinReclaimed, pc.id, None) else RESTING)
    case UnpinCheckRef(t) =>
      Go(s, t, if s.streams[pc.id].reclaimRef > NOREF then At(UnpinWaiting, pc.id, None) else RESTING)
    case UnpinLock(t) => Go(s.(lock := HeldBy(t)), t, At(UnpinAdding, pc.id, None))
    case UnpinAdd(t) =>
      Go(s.(lock := Free, reclaimList := [Entry(s.streams[pc.id].reclaimRef, pc.id)] + s.reclaimList), t, RESTING)
  }

  function Do(s: State, e: Step): State
    requires Enabled(s, e)
  {
    if IsThreadStep(e) then DoThread(s, e)
    else
      match e
      case StopBegin(id) => s.(m := At(StopLocking, id, Under(s.m)))
      case StopLock => s.(lock := HeldBy(Main), m := At(StopListing, s.m.id, s.m.under))
      case StopUnlist =>
        var ref := s.streams[s.m.id].refrence;
        s.(lock := Free, streamList := if ref > NOREF then RemoveFirst(s.streamList, ref) else s.streamList,
           m := At(StopMarking, s.m.id, s.m.under))
      case StopMark =>
        s.(streams := s.streams[s.m.id := s.streams[s.m.id].(reclaimed := true)],
           m := At(StopTransfer, s.m.id, s.m.under))
      case StopMoveRef =>
        var st := s.streams[s.m.id];
        s.(streams := if st.refrence > NOREF then s.streams[s.m.id := st.(reclaimRef := st.refrence, refrence := NOREF)]
                      else s.streams,
           m := At(StopCheck, s.m.id, s.m.under))
      case StopLoad =>
        var st := s.streams[s.m.id];
        s.(m := if st.usecount == 0 && st.reclaimRef > NOREF then At(StopQueueing, s.m.id, s.m.under)
                else Back(s.m.under))
      case StopQueueLock => s.(lock := HeldBy(Main), m := At(StopQueueAdding, s.m.id, s.m.under))
      case StopQueueAdd =>
        s.(lock := Free, reclaimList := [Entry(s.streams[s.m.id].reclaimRef, s.m.id)] + s.reclaimList,
           m := Back(s.m.under))
      case CleanLock => s.(lock := HeldBy(Main), m := At(Cleaning, 0, None))
      case CleanPop =>
        if |s.reclaimList| == 0 then s.(lock := Free, m := RESTING)
        else s.(lock := Free, reclaimList := RemoveFirst(s.reclaimList, s.reclaimList[0].index),
                m := At(CleanRelease, s.reclaimList[0].data, None))
      case CleanUnref =>
        var st := s.streams[s.m.id];
        if st.reclaimRef > NOREF
        then s.(registry := s.registry - {st.reclaimRef}, streams := s.streams[s.m.id := st.(reclaimRef := NOREF)],
                released := s.released + multiset{s.m.id}, m := RESTING)
        else s.(m := RESTING)
      case PlayBegin(id) =>
        s.(m := At(if s.streams[id].reclaimed then PlayClearing else PlayRegistering, id, Under(s.m)))
      case PlayClear =>
        s.(streams := s.streams[s.m.id := s.streams[s.m.id].(reclaimed := false)],
           m := At(PlayMoving, s.m.id, s.m.under))
      case PlayMove =>
        var st := s.streams[s.m.id];
        if st.reclaimRef > NOREF
        then s.(streams := s.streams[s.m.id := st.(refrence := st.reclaimRef, reclaimRef := NOREF)],
                m := At(PlayDelistLocking, s.m.id, s.m.under))
        else s.(m := At(PlayRegistering, s.m.id, s.m.under))
      case PlayDelistLock => s.(lock := HeldBy(Main), m := At(PlayDelisting, s.m.id, s.m.under))
      case PlayDelist =>
        s.(lock := Free, reclaimList := RemoveFirst(s.reclaimList, s.streams[s.m.id].refrence),
           m := At(PlayRegistering, s.m.id, s.m.under))
      case PlayRegister(ref) =>
        var st := s.streams[s.m.id];
        if st.refrence <= NOREF
        then s.(registry := s.registry[ref := s.m.id], streams := s.streams[s.m.id := st.(refrence := ref)],
                registered := s.registered + multiset{s.m.id}, m := At(PlayLocking, s.m.id, s.m.under))
        else s.(m := At(PlayLocking, s.m.id, s.m.under))
      case PlayLock => s.(lock := HeldBy(Main), m := At(PlayAdding, s.m.id, s.m.under))
      case PlayAdd =>
        s.(lock := Free, streamList := [Entry(s.streams[s.m.id].refrence, s.m.id)] + s.streamList,
             m := Back(s.m.under))
  }

  /** Streams exist, freshly opened; nothing has been played yet. */
  ghost predicate Initial(s: State) {
    && (forall id | id in s.streams :: s.streams[id] == Stream(NOREF, NOREF, 0, false))
    && s.streamList == [] && s.reclaimList == [] && s.registry == map[] && s.lock.Free?
    && s.b.place.Idle? && s.m.place.Idle?
    && s.registered == multiset{} && s.released == multiset{}
  }

  ghost predicate Execution(run: seq<State>, steps: seq<Step>) {
    && |run| == |steps| + 1 && Initial(run[0])
    && forall i | 0 <= i < |steps| :: Enabled(run[i], steps[i]) && run[i + 1] == Do(run[i], steps[i])
  }

  // ---- The invariant ----

  predicate In(l: seq<Entry<nat>>, id: nat) {
    exists k :: 0 <= k < |l| && l[k].data == id
  }

  /** A thread that is going to look at the reclaim list on behalf of this stream. */
  predicate Pending(pc: Pc, id: nat) {
    var at := pc.place;
    Names(pc, id) && (at.UnpinLast? || at.UnpinReclaimed? || at.UnpinWaiting? || at.UnpinAdding?
                      || at.StopCheck? || at.StopQueueing? || at.StopQueueAdding? || at.CleanRelease?)
  }

  ghost predicate LockInv(s: State) {
    && (s.lock == HeldBy(Buffer) <==> HasLock(s.b))
    && (s.lock == HeldBy(Main) <==> HasLock(s.m))
  }

  /** The stream a thread is busy with exists. */
  predicate Known(s: State, pc: Pc) {
    pc.place.Idle? || pc.place.Walking? || pc.place.Cleaning? || pc.id in s.streams
  }

  ghost predicate ThreadInv(s: State) {
    && !Stopping(s.b) && !Playing(s.b) && !s.b.place.Cleaning? && !s.b.place.CleanRelease?
    && Known(s, s.b) && Known(s, s.m)
    && (Under(s.m).Some? ==> Under(s.m).value in s.streams)
    && !s.b.place.PinRollback? && !s.m.place.PinRollback?
  }

  ghost predicate ListInv(s: State) {
    && (forall k | 0 <= k < |s.streamList| ::
          s.streamList[k].data in s.streams && s.streamList[k].index == s.streams[s.streamList[k].data].refrence)
    && (forall j, k | 0 <= j < k < |s.streamList| :: s.streamList[j].data != s.streamList[k].data)
    && (forall k | 0 <= k < |s.reclaimList| :: s.reclaimList[k].data in s.streams)
  }

  function Holds(st: Stream): nat {
    if st.refrence > 0 || st.reclaimRef > 0 then 1 else 0
  }

  /** Counting, references and lists for one stream. */
  ghost predicate StreamInv(s: State, id: nat)
    requires id in s.streams
  {
    var st := s.streams[id];
    && st.usecount == Pins(s.b, id) + Pins(s.m, id)
    && (st.refrence == NOREF || st.refrence > 0) && (st.reclaimRef == NOREF || st.reclaimRef > 0)
    && (st.refrence == NOREF || st.reclaimRef == NOREF)
    && (st.refrence > 0 ==> st.refrence in s.registry && s.registry[st.refrence] == id)
    && (st.reclaimRef > 0 ==> st.reclaimRef in s.registry && s.registry[st.reclaimRef] == id)
    && (st.reclaimRef > 0 && !st.reclaimed ==> s.m.place.PlayMoving? && s.m.id == id)
    && (st.reclaimed && st.refrence > 0 ==> s.m.place.StopTransfer? && s.m.id == id)
    && (In(s.streamList, id) ==> !st.reclaimed && st.refrence > 0)
    // every reference taken is held or has been given back
    && s.registered[id] == s.released[id] + Holds(st)
  }

  /** What the positions of the two threads say about one stream. */
  ghost predicate PhaseInv(s: State, id: nat)
    requires id in s.streams
  {
    var st, at := s.streams[id], s.m.place;
    && (Names(s.b, id) && (s.b.place.PinLoaded? || s.b.place.PinAdded? || s.b.place.PinDone?) ==> In(s.streamList, id))
    && (Names(s.m, id) ==>
          && (at.PinLoaded? || at.PinAdded? || at.PinDone? ==> In(s.streamList, id))
          && (at.StopMarking? || Playing(s.m) ==> !In(s.streamList, id))
          && (at.StopTransfer? || at.StopCheck? || at.StopQueueing? || at.StopQueueAdding? ==> st.reclaimed)
          && (at.PlayClearing? ==> st.reclaimed)
          && (Playing(s.m) && !at.PlayClearing? ==> !st.reclaimed)
          && (at.PlayClearing? || at.PlayMoving? ==> st.refrence == NOREF)
          && (at.PlayDelistLocking? || at.PlayDelisting? || at.PlayLocking? || at.PlayAdding? ==> st.refrence > 0))
    // a stopped stream without pins is never forgotten
    && (st.reclaimed && st.usecount == 0 && st.reclaimRef > 0 ==>
          Entry(st.reclaimRef, id) in s.reclaimList || Pending(s.b, id) || Pending(s.m, id))
  }

  ghost predicate Fine(s: State, id: nat) {
    id in s.streams && StreamInv(s, id) && PhaseInv(s, id)
  }

  ghost predicate Base(s: State) {
    LockInv(s) && ThreadInv(s) && ListInv(s)
  }

  ghost predicate Inv(s: State) {
    && Base(s)
    && (forall id | id in s.streams :: Fine(s, id))
  }

  // ---- One step, one stream ----

  lemma InPrepended(e: Entry<nat>, l: seq<Entry<nat>>, id: nat)
    ensures In([e] + l, id) <==> e.data == id || In(l, id)
  {
    var r := [e] + l;
    assert r[0].data == e.data;
    if In(l, id) {
      var k :| 0 <= k < |l| && l[k].data == id;
      assert r[k + 1].data == id;
    }
  }

  lemma LockWalkOneStream(s: State, e: Step, id: nat)
    requires Base(s) && Enabled(s, e) && e.LockWalk?
    requires Fine(s, id)
    ensures Fine(Do(s, e), id)
  {
    hide ListInv;
    hide RemoveFirst;
    hide In;
    if e.t.Buffer? {
      assert Fine(Do(s, e), id);
    }
  }

  lemma UnlockWalkOneStream(s: State, e: Step, id: nat)
    requires Base(s) && Enabled(s, e) && e.UnlockWalk?
    requires Fine(s, id)
    ensures Fine(Do(s, e), id)
  {
    hide ListInv;
    hide RemoveFirst;
    hide In;
    if e.t.Buffer? {
      assert Fine(Do(s, e), id);
    }
  }

  lemma PinLoadOneStream(s: State, e: Step, id: nat)
    requires Base(s) && Enabled(s, e) && e.PinLoad?
    requires Fine(s, id)
    ensures Fine(Do(s, e), id)
  {
    if e.t.Buffer? {
      assert Fine(Do(s, e), id);
    }
  }

  lemma PinAddOneStream(s: State, e: Step, id: nat)
    requires Base(s) && Enabled(s, e) && e.PinAdd?
    requires Fine(s, id)
    ensures Fine(Do(s, e), id)
  {
    hide ListInv;
    hide RemoveFirst;
    hide In;
    if e.t.Buffer? {
      assert Fine(Do(s, e), id);
    }
  }

  lemma PinCheckOneStream(s: State, e: Step, id: nat)
    requires Base(s) && Enabled(s, e) && e.PinCheck?
    requires Fine(s, id)
    ensures Fine(Do(s, e), id)
  {
    hide ListInv;
    hide RemoveFirst;
    hide In;
    if e.t.Buffer? {
      assert Fine(Do(s, e), id);
    }
  }

  lemma PinUnlockOneStream(s: State, e: Step, id: nat)
    requires Base(s) && Enabled(s, e) && e.PinUnlock?
    requires Fine(s, id)
    ensures Fine(Do(s, e), id)
  {
    hide ListInv;
    hide RemoveFirst;
    hide In;
    if e.t.Buffer? {
      assert Fine(Do(s, e), id);
    }
  }

  lemma UnpinSubOneStream(s: State, e: Step, id: nat)
    requires Base(s) && Enabled(s, e) && e.UnpinSub?
    requires Fine(s, id)
    ensures Fine(Do(s, e), id)
  {
    hide LockInv;
    hide ListInv;
    hide RemoveFirst;
    hide In;
    if e.t.Buffer? {
      assert Fine(Do(s, e), id);
    }
  }

  lemma UnpinLoadOneStream(s: State, e: Step, id: nat)
    requires Base(s) && Enabled(s, e) && e.UnpinLoad?
    requires Fine(s, id)
    ensures Fine(Do(s, e), id)
  {
    hide LockInv;
    hide ListInv;
    hide RemoveFirst;
    hide In;
    if e.t.Buffer? {
      assert Fine(Do(s, e), id);
    }
  }

  lemma UnpinCheckRefOneStream(s: State, e: Step, id: nat)
    requires Base(s) && Enabled(s, e) && e.UnpinCheckRef?
    requires Fine(s, id)
    ensures Fine(Do(s, e), id)
  {
    hide LockInv;
    hide ListInv;
    hide RemoveFirst;
    hide In;
    if e.t.Buffer? {
      assert Fine(Do(s, e), id);
    }
  }

  lemma UnpinLockOneStream(s: State, e: Step, id: nat)
    requires Base(s) && Enabled(s, e) && e.UnpinLock?
    requires Fine(s, id)
    ensures Fine(Do(s, e), id)
  {
    hide ListInv;
    hide RemoveFirst;
    hide In;
    if e.t.Buffer? {
      assert Fine(Do(s, e), id);
    }
  }

  lemma StopBeginOneStream(s: State, i: nat, id: nat)
    requires Base(s) && Enabled(s, StopBegin(i))
    requires Fine(s, id)
    ensures Fine(Do(s, StopBegin(i)), id)
  {
    hide ListInv;
    hide RemoveFirst;
    hide In;
  }

  lemma StopLockOneStream(s: State, id: nat)
    requires Base(s) && Enabled(s, StopLock)
    requires Fine(s, id)
    ensures Fine(Do(s, StopLock), id)
  {
    hide ListInv;
    hide RemoveFirst;
    hide In;
  }

  lemma StopLoadOneStream(s: State, id: nat)
    requires Base(s) && Enabled(s, StopLoad)
    requires Fine(s, id)
    ensures Fine(Do(s, StopLoad), id)
  {
    hide ListInv;
    hide RemoveFirst;
    hide In;
  }

  lemma StopMarkOneStream(s: State, id: nat)
    requires Base(s) && Enabled(s, StopMark)
    requires Fine(s, id)
    ensures Fine(Do(s, StopMark), id)
  {
    hide ListInv;
    hide RemoveFirst;
    hide In;
  }

  lemma StopMoveRefOneStream(s: State, id: nat)
    requires Base(s) && Enabled(s, StopMoveRef)
    requires Fine(s, id)
    ensures Fine(Do(s, StopMoveRef), id)
  {
    hide ListInv;
    hide RemoveFirst;
    hide In;
  }

  lemma StopQueueLockOneStream(s: State, id: nat)
    requires Base(s) && Enabled(s, StopQueueLock)
    requires Fine(s, id)
    ensures Fine(Do(s, StopQueueLock), id)
  {
    hide ListInv;
    hide RemoveFirst;
    hide In;
  }

  lemma CleanLockOneStream(s: State, id: nat)
    requires Base(s) && Enabled(s, CleanLock)
    requires Fine(s, id)
    ensures Fine(Do(s, CleanLock), id)
  {
    hide ListInv;
    hide RemoveFirst;
    hide In;
  }

  lemma PlayLockOneStream(s: State, id: nat)
    requires Base(s) && Enabled(s, PlayLock)
    requires Fine(s, id)
    ensures Fine(Do(s, PlayLock), id)
  {
    hide ListInv;
    hide RemoveFirst;
    hide In;
  }

  lemma PlayDelistLockOneStream(s: State, id: nat)
    requires Base(s) && Enabled(s, PlayDelistLock)
    requires Fine(s, id)
    ensures Fine(Do(s, PlayDelistLock), id)
  {
    hide ListInv;
    hide RemoveFirst;
    hide In;
  }

  lemma CleanPopOneStream(s: State, e: Step, id: nat)
    requires Base(s) && Enabled(s, e) && e.CleanPop?
    requires Fine(s, id)
    ensures Fine(Do(s, e), id)
  {
  }

  lemma PlayBeginOneStream(s: State, i: nat, id: nat)
    requires Base(s) && Enabled(s, PlayBegin(i))
    requires Fine(s, id)
    ensures Fine(Do(s, PlayBegin(i)), id)
  {
    hide ListInv;
    hide RemoveFirst;
    hide In;
  }

  lemma PlayClearOneStream(s: State, id: nat)
    requires Base(s) && Enabled(s, PlayClear)
    requires Fine(s, id)
    ensures Fine(Do(s, PlayClear), id)
  {
    hide ListInv;
    hide RemoveFirst;
    hide In;
  }

  lemma MovedBack(s: State, r: State, id: nat)
    requires Base(s) && Fine(s, id) && s.m.place.PlayMoving? && s.m.id in s.streams
    requires s.streams[s.m.id].reclaimRef > NOREF
    requires var st := s.streams[s.m.id];
             r == s.(streams := s.streams[s.m.id := st.(refrence := st.reclaimRef, reclaimRef := NOREF)],
                     m := At(PlayDelistLocking, s.m.id, s.m.under))
    ensures Fine(r, id)
  {
    hide LockInv;
    hide ListInv;
    hide RemoveFirst;
    hide In;
  }

  lemma NothingToMove(s: State, r: State, id: nat)
    requires Base(s) && Fine(s, id) && s.m.place.PlayMoving? && s.m.id in s.streams
    requires s.streams[s.m.id].reclaimRef <= NOREF
    requires r == s.(m := At(PlayRegistering, s.m.id, s.m.under))
    ensures Fine(r, id)
  {
    hide LockInv;
    hide ListInv;
    hide RemoveFirst;
    hide In;
  }

  lemma PlayMoveOneStream(s: State, id: nat)
    requires Base(s) && Enabled(s, PlayMove)
    requires Fine(s, id)
    ensures Fine(Do(s, PlayMove), id)
  {
    var r := Do(s, PlayMove);
    hide Fine;
    hide Base;
    if s.streams[s.m.id].reclaimRef > NOREF {
      MovedBack(s, r, id);
    } else {
      NothingToMove(s, r, id);
    }
  }

  /** Dropping the replayed stream's entry leaves what the other streams rely on. */
  lemma PlayDelistOneStream(s: State, id: nat)
    requires Base(s) && Enabled(s, PlayDelist) && Fine(s, s.m.id)
    requires Fine(s, id)
    ensures Fine(Do(s, PlayDelist), id)
  {
    RemoveFirstMembers(s.reclaimList, s.streams[s.m.id].refrence, Entry(s.streams[id].reclaimRef, id));
    hide ListInv;
    hide RemoveFirst;
    hide In;
  }

  lemma Registered(s: State, r: State, ref: int, id: nat)
    requires Base(s) && Fine(s, id) && s.m.place.PlayRegistering? && s.m.id in s.streams
    requires s.streams[s.m.id].refrence <= NOREF && ref > 0 && ref !in s.registry
    requires r == s.(registry := s.registry[ref := s.m.id],
                     streams := s.streams[s.m.id := s.streams[s.m.id].(refrence := ref)],
                     registered := s.registered + multiset{s.m.id}, m := At(PlayLocking, s.m.id, s.m.under))
    ensures Fine(r, id)
  {
    hide LockInv;
    hide ListInv;
    hide RemoveFirst;
    hide In;
  }

  lemma NothingToRegister(s: State, r: State, id: nat)
    requires Base(s) && Fine(s, id) && s.m.place.PlayRegistering? && s.m.id in s.streams
    requires s.streams[s.m.id].refrence > NOREF && r == s.(m := At(PlayLocking, s.m.id, s.m.under))
    ensures Fine(r, id)
  {
    hide LockInv;
    hide ListInv;
    hide RemoveFirst;
    hide In;
  }

  lemma PlayRegisterOneStream(s: State, ref: int, id: nat)
    requires Base(s) && Enabled(s, PlayRegister(ref))
    requires Fine(s, id)
    ensures Fine(Do(s, PlayRegister(ref)), id)
  {
    var r := Do(s, PlayRegister(ref));
    hide Fine;
    hide Base;
    if s.streams[s.m.id].refrence <= NOREF {
      Registered(s, r, ref, id);
    } else {
      NothingToRegister(s, r, id);
    }
  }

  lemma PlayAddOneStream(s: State, id: nat)
    requires Base(s) && Enabled(s, PlayAdd)
    requires Fine(s, id)
    ensures Fine(Do(s, PlayAdd), id)
  {
    InPrepended(Entry(s.streams[s.m.id].refrence, s.m.id), s.streamList, id);
    hide ListInv;
    hide RemoveFirst;
    hide In;
  }

  lemma UnpinAddOneStream(s: State, e: Step, id: nat)
    requires Base(s) && Enabled(s, e) && e.UnpinAdd?
    requires Fine(s, id)
    ensures Fine(Do(s, e), id)
  {
    hide ListInv;
    hide RemoveFirst;
    hide In;
    var i := PcOf(s, e.t).id;
    InPrepended(Entry(s.streams[i].reclaimRef, i), s.reclaimList, id);
    if e.t.Buffer? {
      assert Fine(Do(s, e), id);
    }
  }

  lemma StopQueueAddOneStream(s: State, id: nat)
    requires Base(s) && Enabled(s, StopQueueAdd)
    requires Fine(s, id)
    ensures Fine(Do(s, StopQueueAdd), id)
  {
    hide ListInv;
    hide RemoveFirst;
    hide In;
    var i := s.m.id;
    InPrepended(Entry(s.streams[i].reclaimRef, i), s.reclaimList, id);
  }

  /** The reference given back is this stream's own, so no other stream's goes with it. */
  lemma CleanUnrefOneStream(s: State, id: nat)
    requires Base(s) && Enabled(s, CleanUnref) && Fine(s, s.m.id)
    requires Fine(s, id)
    ensures Fine(Do(s, CleanUnref), id)
  {
    hide ListInv;
    hide RemoveFirst;
    hide In;
  }

  /** No two streams share a registered reference. */
  lemma ReferenceIsOwn(s: State, i: nat, j: nat)
    requires i in s.streams && j in s.streams && StreamInv(s, i) && StreamInv(s, j)
    requires s.streams[i].refrence == s.streams[j].refrence > NOREF
    ensures i == j
  {
  }

  /** So the node with a stream's reference as index is the stream's own. */
  lemma NodeIsOwn(s: State, i: nat)
    requires ListInv(s) && i in s.streams && s.streams[i].refrence > NOREF
    requires forall id | id in s.streams :: StreamInv(s, id)
    ensures forall k | 0 <= k < |s.streamList| ::
              s.streamList[k].index == s.streams[i].refrence ==> s.streamList[k].data == i
  {
    hide StreamInv;
    forall k | 0 <= k < |s.streamList| && s.streamList[k].index == s.streams[i].refrence
      ensures s.streamList[k].data == i
    {
      ReferenceIsOwn(s, i, s.streamList[k].data);
    }
  }

  /** Removing by that reference takes out the stream's node, its only one, and no other. */
  lemma {:induction false} UnlistedIs(s: State, l: seq<Entry<nat>>, i: nat)
    requires i in s.streams && s.streams[i].refrence > NOREF
    requires forall k | 0 <= k < |l| :: l[k].data in s.streams && l[k].index == s.streams[l[k].data].refrence
    requires forall k | 0 <= k < |l| :: l[k].index == s.streams[i].refrence ==> l[k].data == i
    requires forall j, k | 0 <= j < k < |l| :: l[j].data != l[k].data
    ensures var r := RemoveFirst(l, s.streams[i].refrence);
            && (forall k | 0 <= k < |r| :: r[k].data in s.streams && r[k].index == s.streams[r[k].data].refrence)
            && (forall j, k | 0 <= j < k < |r| :: r[j].data != r[k].data)
            && !In(r, i) && (forall id | id != i :: In(r, id) <==> In(l, id))
  {
    var ref := s.streams[i].refrence;
    var r := RemoveFirst(l, ref);
    if |l| > 0 {
      var rest := RemoveFirst(l[1..], ref);
      assert l == [l[0]] + l[1..];
      forall id: nat
        ensures In(l, id) <==> l[0].data == id || In(l[1..], id)
        ensures In([l[0]] + rest, id) <==> l[0].data == id || In(rest, id)
      {
        InPrepended(l[0], l[1..], id);
        InPrepended(l[0], rest, id);
      }
      if l[0].index == ref {
        assert l[0].data == i;
      } else {
        UnlistedIs(s, l[1..], i);
        assert forall k | 0 <= k < |rest| :: In(rest, rest[k].data);
        assert !In(l[1..], l[0].data);
      }
    }
  }

  lemma StopUnlistOneStream(s: State, id: nat)
    requires Inv(s) && Enabled(s, StopUnlist) && id in s.streams
    ensures Fine(Do(s, StopUnlist), id)
  {
    assert StreamInv(s, id) && PhaseInv(s, id) && StreamInv(s, s.m.id);
    if s.streams[s.m.id].refrence > NOREF {
      NodeIsOwn(s, s.m.id);
      UnlistedIs(s, s.streamList, s.m.id);
    }
  }

  // ---- One step, locks and lists ----

  lemma PinLocks(s: State, e: Step)
    requires Inv(s) && Enabled(s, e) && (e.PinLoad? || e.PinCheck?)
    ensures LockInv(Do(s, e)) && ThreadInv(Do(s, e))
  {
    if e.t.Buffer? {
      assert LockInv(Do(s, e)) && ThreadInv(Do(s, e));
    }
  }

  lemma PinAddLocks(s: State, e: Step)
    requires Base(s) && Enabled(s, e) && (e.PinAdd? || e.PinUnlock?)
    ensures LockInv(Do(s, e)) && ThreadInv(Do(s, e))
  {
    hide ListInv;
    hide RemoveFirst;
    if e.t.Buffer? {
      assert LockInv(Do(s, e)) && ThreadInv(Do(s, e));
    }
  }

  lemma UnpinSubLocks(s: State, e: Step)
    requires Base(s) && Enabled(s, e) && e.UnpinSub?
    ensures LockInv(Do(s, e)) && ThreadInv(Do(s, e))
  {
    hide ListInv;
    hide RemoveFirst;
    if e.t.Buffer? {
      assert LockInv(Do(s, e)) && ThreadInv(Do(s, e));
    }
  }

  lemma UnpinLoadLocks(s: State, e: Step)
    requires Base(s) && Enabled(s, e) && e.UnpinLoad?
    ensures LockInv(Do(s, e)) && ThreadInv(Do(s, e))
  {
    hide ListInv;
    hide RemoveFirst;
    if e.t.Buffer? {
      assert LockInv(Do(s, e)) && ThreadInv(Do(s, e));
    }
  }

  lemma WalkLocks(s: State, e: Step)
    requires Base(s) && Enabled(s, e) && (e.LockWalk? || e.UnlockWalk?)
    ensures LockInv(Do(s, e)) && ThreadInv(Do(s, e))
  {
    hide ListInv;
    hide RemoveFirst;
    if e.t.Buffer? {
      assert LockInv(Do(s, e)) && ThreadInv(Do(s, e));
    }
  }

  lemma UnpinLocks(s: State, e: Step)
    requires Base(s) && Enabled(s, e) && (e.PinUndo? || e.UnpinCheckRef?)
    ensures LockInv(Do(s, e)) && ThreadInv(Do(s, e))
  {
    hide ListInv;
    hide RemoveFirst;
    if e.t.Buffer? {
      assert LockInv(Do(s, e)) && ThreadInv(Do(s, e));
    }
  }

  lemma UnpinMutexLocks(s: State, e: Step)
    requires Base(s) && Enabled(s, e) && (e.UnpinLock? || e.UnpinAdd?)
    ensures LockInv(Do(s, e)) && ThreadInv(Do(s, e))
  {
    hide ListInv;
    hide RemoveFirst;
    if e.t.Buffer? {
      assert LockInv(Do(s, e)) && ThreadInv(Do(s, e));
    }
  }

  predicate IsStop(e: Step) {
    e.StopBegin? || e.StopLock? || e.StopUnlist? || e.StopMark? || e.StopMoveRef? || e.StopLoad?
    || e.StopQueueLock? || e.StopQueueAdd?
  }

  predicate TakesOrFrees(e: Step) {
    e.StopLock? || e.StopUnlist? || e.StopQueueLock? || e.StopQueueAdd?
  }

  lemma StopMutexLocks(s: State, e: Step)
    requires Base(s) && Enabled(s, e) && TakesOrFrees(e)
    ensures LockInv(Do(s, e)) && ThreadInv(Do(s, e))
  {
    hide ListInv;
    hide RemoveFirst;
  }

  lemma StopOtherLocks(s: State, e: Step)
    requires Base(s) && Enabled(s, e) && IsStop(e) && !TakesOrFrees(e)
    ensures LockInv(Do(s, e)) && ThreadInv(Do(s, e))
  {
    hide ListInv;
    hide RemoveFirst;
  }

  lemma PlayBeginLocks(s: State, e: Step)
    requires Base(s) && Enabled(s, e) && (e.PlayBegin? || e.PlayClear?)
    ensures LockInv(Do(s, e)) && ThreadInv(Do(s, e))
  {
    hide ListInv;
    hide RemoveFirst;
  }

  /** The play goes on to another place without touching the mutex. */
  lemma PlayGoesOn(s: State, r: State, place: Place)
    requires LockInv(s) && ThreadInv(s) && r.streams.Keys == s.streams.Keys
    requires r.b == s.b && r.lock == s.lock && r.m == At(place, s.m.id, s.m.under)
    requires Playing(s.m) && Playing(r.m) && !HasLock(s.m) && !HasLock(r.m)
    ensures LockInv(r) && ThreadInv(r)
  {
  }

  lemma PlayMoveLocks(s: State, e: Step)
    requires Base(s) && Enabled(s, e) && (e.PlayMove? || e.PlayRegister?)
    ensures LockInv(Do(s, e)) && ThreadInv(Do(s, e))
  {
    var r := Do(s, e);
    PlayGoesOn(s, r, r.m.place);
    hide LockInv;
    hide ThreadInv;
  }

  lemma PlayMutexLocks(s: State, e: Step)
    requires Base(s) && Enabled(s, e) && (e.PlayDelistLock? || e.PlayDelist? || e.PlayLock? || e.PlayAdd?)
    ensures LockInv(Do(s, e)) && ThreadInv(Do(s, e))
  {
    hide ListInv;
    hide RemoveFirst;
  }

  lemma CleanLocks(s: State, e: Step)
    requires Base(s) && Enabled(s, e) && (e.CleanLock? || e.CleanPop? || e.CleanUnref?)
    ensures LockInv(Do(s, e)) && ThreadInv(Do(s, e))
  {
    hide RemoveFirst;
  }

  lemma ThreadLists(s: State, e: Step)
    requires Base(s) && Enabled(s, e) && IsThreadStep(e)
    ensures ListInv(Do(s, e))
  {
    hide RemoveFirst;
    hide Names;
    hide Pins;
  }

  lemma MainLists(s: State, e: Step)
    requires Inv(s) && Enabled(s, e) && !IsThreadStep(e)
    requires !e.StopUnlist? && !e.CleanPop? && !e.CleanUnref? && !IsPlay(e)
    ensures ListInv(Do(s, e))
  {
    hide RemoveFirst;
  }

  predicate IsPlay(e: Step) {
    e.PlayClear? || e.PlayMove? || e.PlayDelist? || e.PlayRegister? || e.PlayAdd?
  }

  /** The stream being played is not in the list yet, so changing its references harms no node. */
  lemma PlayLists(s: State, e: Step)
    requires Inv(s) && Enabled(s, e) && IsPlay(e) && !e.PlayDelist? && !e.PlayAdd?
    ensures ListInv(Do(s, e))
  {
    assert Fine(s, s.m.id);
    forall k | 0 <= k < |s.streamList|
      ensures s.streamList[k].data != s.m.id
    {
      assert !In(s.streamList, s.m.id);
    }
    hide RemoveFirst;
    hide Names;
    hide Pins;
    hide In;
  }

  lemma PlayAddLists(s: State)
    requires Inv(s) && Enabled(s, PlayAdd)
    ensures ListInv(Do(s, PlayAdd))
  {
    assert Fine(s, s.m.id);
    forall k | 0 <= k < |s.streamList|
      ensures s.streamList[k].data != s.m.id
    {
      assert !In(s.streamList, s.m.id);
    }
    hide RemoveFirst;
    hide Names;
    hide Pins;
    hide In;
  }

  lemma PlayDelistLists(s: State)
    requires Inv(s) && Enabled(s, PlayDelist)
    ensures ListInv(Do(s, PlayDelist))
  {
    var ref := s.streams[s.m.id].refrence;
    var r := RemoveFirst(s.reclaimList, ref);
    forall k | 0 <= k < |r|
      ensures r[k].data in s.streams
    {
      RemoveFirstMembers(s.reclaimList, ref, r[k]);
    }
    hide RemoveFirst;
    hide Names;
    hide Pins;
    hide In;
  }

  lemma CleanLists(s: State, e: Step)
    requires Inv(s) && Enabled(s, e) && (e.CleanPop? || e.CleanUnref?)
    ensures ListInv(Do(s, e))
  {
  }

  lemma UnlistLists(s: State)
    requires Inv(s) && Enabled(s, StopUnlist)
    ensures ListInv(Do(s, StopUnlist))
  {
    assert StreamInv(s, s.m.id);
    if s.streams[s.m.id].refrence > NOREF {
      NodeIsOwn(s, s.m.id);
      UnlistedIs(s, s.streamList, s.m.id);
    }
  }

  /** No pin attempt is ever rolled back: a stream found in the list is not reclaimed. */
  lemma RollbackNeverRuns(s: State, e: Step)
    requires Inv(s) && Enabled(s, e)
    ensures !e.PinUndo?
  {
  }

  lemma OneStreamKeeps(s: State, e: Step, id: nat)
    requires Inv(s) && Enabled(s, e) && id in s.streams
    ensures Fine(Do(s, e), id)
  {
    hide StreamInv;
    hide PhaseInv;
    hide Base;
    hide Do;
    assert Base(s) && Fine(s, id) && ((e.CleanUnref? || e.PlayDelist?) && s.m.id in s.streams ==> Fine(s, s.m.id));
    RollbackNeverRuns(s, e);
    match e
    case LockWalk(_) => LockWalkOneStream(s, e, id);
    case UnlockWalk(_) => UnlockWalkOneStream(s, e, id);
    case PinLoad(_, _) => PinLoadOneStream(s, e, id);
    case PinAdd(_) => PinAddOneStream(s, e, id);
    case PinCheck(_) => PinCheckOneStream(s, e, id);
    case PinUnlock(_) => PinUnlockOneStream(s, e, id);
    case UnpinSub(_) => UnpinSubOneStream(s, e, id);
    case UnpinLoad(_) => UnpinLoadOneStream(s, e, id);
    case UnpinCheckRef(_) => UnpinCheckRefOneStream(s, e, id);
    case UnpinLock(_) => UnpinLockOneStream(s, e, id);
    case UnpinAdd(_) => UnpinAddOneStream(s, e, id);
    case StopBegin(i) => StopBeginOneStream(s, i, id);
    case StopLock => StopLockOneStream(s, id);
    case StopUnlist => StopUnlistOneStream(s, id);
    case StopMark => StopMarkOneStream(s, id);
    case StopMoveRef => StopMoveRefOneStream(s, id);
    case StopLoad => StopLoadOneStream(s, id);
    case StopQueueLock => StopQueueLockOneStream(s, id);
    case StopQueueAdd => StopQueueAddOneStream(s, id);
    case CleanLock => CleanLockOneStream(s, id);
    case CleanPop => CleanPopOneStream(s, e, id);
    case CleanUnref => CleanUnrefOneStream(s, id);
    case PlayBegin(i) => PlayBeginOneStream(s, i, id);
    case PlayClear => PlayClearOneStream(s, id);
    case PlayMove => PlayMoveOneStream(s, id);
    case PlayDelistLock => PlayDelistLockOneStream(s, id);
    case PlayDelist => PlayDelistOneStream(s, id);
    case PlayRegister(ref) => PlayRegisterOneStream(s, ref, id);
    case PlayLock => PlayLockOneStream(s, id);
    case PlayAdd => PlayAddOneStream(s, id);
  }

  lemma BaseKept(s: State, e: Step)
    requires Inv(s) && Enabled(s, e)
    ensures Base(Do(s, e))
  {
    hide LockInv;
    hide ThreadInv;
    hide ListInv;
    hide StreamInv;
    hide PhaseInv;
    hide Do;
    hide Enabled;
    if TakesOrFrees(e) {
      StopMutexLocks(s, e);
    } else if e.PinLoad? || e.PinCheck? {
      PinLocks(s, e);
    } else if e.PinAdd? || e.PinUnlock? {
      PinAddLocks(s, e);
    } else if e.UnpinSub? {
      UnpinSubLocks(s, e);
    } else if e.UnpinLoad? {
      UnpinLoadLocks(s, e);
    } else if e.LockWalk? || e.UnlockWalk? {
      WalkLocks(s, e);
    } else if e.UnpinLock? || e.UnpinAdd? {
      UnpinMutexLocks(s, e);
    } else if IsThreadStep(e) {
      UnpinLocks(s, e);
    } else if IsStop(e) {
      StopOtherLocks(s, e);
    } else if e.CleanLock? || e.CleanPop? || e.CleanUnref? {
      CleanLocks(s, e);
    } else if e.PlayDelistLock? || e.PlayDelist? || e.PlayLock? || e.PlayAdd? {
      PlayMutexLocks(s, e);
    } else if e.PlayBegin? || e.PlayClear? {
      PlayBeginLocks(s, e);
    } else {
      PlayMoveLocks(s, e);
    }
    if IsThreadStep(e) {
      ThreadLists(s, e);
    } else if e.StopUnlist? {
      UnlistLists(s);
    } else if e.CleanPop? || e.CleanUnref? {
      CleanLists(s, e);
    } else if e.PlayAdd? {
      PlayAddLists(s);
    } else if e.PlayDelist? {
      PlayDelistLists(s);
    } else if IsPlay(e) {
      PlayLists(s, e);
    } else {
      MainLists(s, e);
    }
  }

  lemma StreamsStay(s: State, e: Step)
    requires Enabled(s, e)
    ensures Do(s, e).streams.Keys == s.streams.Keys
  {
    hide PcOf;
    hide Go;
    if IsThreadStep(e) {
      ThreadStreamsStay(s, e);
    }
  }

  lemma ThreadStreamsStay(s: State, e: Step)
    requires IsThreadStep(e) && ThreadEnabled(s, e)
    ensures DoThread(s, e).streams.Keys == s.streams.Keys
  {
  }

  lemma StepKeepsInv(s: State, e: Step)
    requires Inv(s) && Enabled(s, e)
    ensures Inv(Do(s, e))
  {
    hide Base;
    hide StreamInv;
    hide PhaseInv;
    hide Do;
    hide Enabled;
    BaseKept(s, e);
    StreamsStay(s, e);
    var r := Do(s, e);
    forall id | id in r.streams
      ensures Fine(r, id)
    {
      assert id in r.streams.Keys;
      OneStreamKeeps(s, e, id);
    }
  }

  lemma {:induction false} ExecutionKeepsInv(run: seq<State>, steps: seq<Step>, n: nat)
    requires Execution(run, steps) && n < |run|
    ensures Inv(run[n])
  {
    if n > 0 {
      ExecutionKeepsInv(run, steps, n - 1);
      hide Inv;
      StepKeepsInv(run[n - 1], steps[n - 1]);
    }
  }

  // ---- What the protocol promises ----

  /** A listed stream is never marked reclaimed, and listed streams can always be pinned. */
  lemma ListedIsLive(run: seq<State>, steps: seq<Step>, n: nat, id: nat)
    requires Execution(run, steps) && n < |run| && id in run[n].streams
    ensures In(run[n].streamList, id) ==> !run[n].streams[id].reclaimed
    ensures n < |steps| ==> !steps[n].PinUndo?
  {
    ExecutionKeepsInv(run, steps, n);
    assert StreamInv(run[n], id);
    if n < |steps| {
      RollbackNeverRuns(run[n], steps[n]);
    }
  }

  /**
   * A reference is released only when the stream is stopped, and is then the registered
   * reference of that very stream; with it all the stream's references are given back. The
   * pins left on the stream at that moment are the buffer thread's.
   */
  lemma ReleasedOnce(run: seq<State>, steps: seq<Step>, n: nat)
    requires Execution(run, steps) && n < |steps|
    requires steps[n] == CleanUnref && run[n].streams[run[n].m.id].reclaimRef > NOREF
    ensures var s := run[n];
            var st := s.streams[s.m.id];
            && st.reclaimed && st.usecount == Pins(s.b, s.m.id)
            && st.reclaimRef in s.registry && s.registry[st.reclaimRef] == s.m.id
            && s.registered[s.m.id] == s.released[s.m.id] + 1
            && run[n + 1].released[s.m.id] == run[n + 1].registered[s.m.id] == s.registered[s.m.id]
            && run[n + 1].registry == s.registry - {st.reclaimRef}
  {
    ExecutionKeepsInv(run, steps, n);
    assert Fine(run[n], run[n].m.id);
  }

  /**
   * References are conserved, replays included: those taken for a stream are the ones given
   * back and the one it may hold.
   */
  lemma ReferencesAreConserved(run: seq<State>, steps: seq<Step>, n: nat, id: nat)
    requires Execution(run, steps) && n < |run| && id in run[n].streams
    ensures run[n].registered[id] == run[n].released[id] + Holds(run[n].streams[id])
  {
    ExecutionKeepsInv(run, steps, n);
    assert Fine(run[n], id);
  }

  /**
   * A stopped stream is not forgotten: as long as its reference is held and no pin is left,
   * it waits in the reclaim list under that reference, or a thread is on its way to deal with
   * it. So when both threads are at rest, every reference taken for a stopped stream was given
   * back or waits in the list.
   */
  lemma NeverForgotten(run: seq<State>, steps: seq<Step>, n: nat, id: nat)
    requires Execution(run, steps) && n < |run| && id in run[n].streams && run[n].streams[id].reclaimed
    ensures var s := run[n];
            var st := s.streams[id];
            && (st.usecount == 0 && st.reclaimRef > 0 ==>
                  Entry(st.reclaimRef, id) in s.reclaimList || Pending(s.b, id) || Pending(s.m, id))
            && (s.b.place.Idle? && s.m.place.Idle? ==>
                  s.registered[id] == s.released[id]
                  || (s.registered[id] == s.released[id] + 1 && Entry(st.reclaimRef, id) in s.reclaimList))
  {
    ExecutionKeepsInv(run, steps, n);
    assert Fine(run[n], id);
  }
}
