/**
 * What one whole call on the ring does, however the steps of the other side fall between its
 * own: which samples a read takes, which a write adds, and that either can always finish.
 */
module RingCalls {
  import opened Ring

  // ---- A read ----

  /** A read called at `b`, which loads the counter at `i` and completes at `j`. */
  ghost predicate ReadCall<T>(steps: seq<Step<T>>, b: nat, i: nat, j: nat) {
    && b < i < j < |steps| && steps[b].BeginRead? && steps[i].LoadUsedForRead? && steps[j].SubUsed?
    && forall m | b < m < j :: !steps[m].BeginRead?
  }

  /** Before the load the call waits with its request; once past it, it does not come back. */
  ghost predicate Loading<T>(s: State<T>, want: nat, consumed: seq<T>) {
    s.r.RLoadedTail? ==> s.r.want == want && s.consumed == consumed
  }

  lemma {:induction false} LoadingKept<T>(run: seq<State<T>>, steps: seq<Step<T>>, b: nat, m: nat)
    requires Execution(run, steps) && b < m <= |steps|
    requires steps[b].BeginRead? && forall l | b < l < m :: !steps[l].BeginRead?
    ensures Loading(run[m], steps[b].want, run[b].consumed)
  {
    var e := steps[m - 1];
    if m - 1 > b {
      LoadingKept(run, steps, b, m - 1);
      ReaderStaysLoading(run[m - 1], e, steps[b].want, run[b].consumed);
    }
  }

  lemma ReaderStaysLoading<T>(s: State<T>, e: Step<T>, want: nat, consumed: seq<T>)
    requires Enabled(s, e) && !e.BeginRead? && Loading(s, want, consumed)
    ensures Loading(Do(s, e), want, consumed)
  {
    hide Slot;
  }

  /** After the load: under way with that many samples, or over. */
  ghost predicate Reading<T>(s: State<T>, count: nat, consumed: seq<T>) {
    && (s.r.RCopying? ==> s.r.count == count && s.consumed == consumed)
    && (s.r.RStoredTail? ==> |s.r.data| == count && s.consumed == consumed)
    && !s.r.RLoadedTail?
  }

  lemma ReaderStaysReading<T>(s: State<T>, e: Step<T>, count: nat, consumed: seq<T>)
    requires Enabled(s, e) && !e.BeginRead? && Reading(s, count, consumed)
    ensures Reading(Do(s, e), count, consumed)
  {
    hide Slot;
  }

  lemma {:induction false} ReadingKept<T>(run: seq<State<T>>, steps: seq<Step<T>>, i: nat, m: nat)
    requires Execution(run, steps) && i < m <= |steps|
    requires steps[i].LoadUsedForRead? && forall l | i < l < m :: !steps[l].BeginRead?
    ensures Enabled(run[i], steps[i]) && run[i].r.RLoadedTail?
    ensures Reading(run[m], Min(run[i].r.want, run[i].used), run[i].consumed)
  {
    if m - 1 > i {
      ReadingKept(run, steps, i, m - 1);
      ReaderStaysReading(run[m - 1], steps[m - 1], Min(run[i].r.want, run[i].used), run[i].consumed);
    }
  }

  lemma {:induction false} WrittenGrows<T>(run: seq<State<T>>, steps: seq<Step<T>>, i: nat, j: nat)
    requires Execution(run, steps) && i <= j <= |steps|
    ensures run[i].written <= run[j].written
    decreases j
  {
    if i < j {
      WrittenGrows(run, steps, i, j - 1);
      StepGrows(run[j - 1], steps[j - 1]);
    }
  }

  lemma StepGrows<T>(s: State<T>, e: Step<T>)
    requires Enabled(s, e)
    ensures s.written <= Do(s, e).written
  {
    hide Slot;
  }

  lemma SubUsedTakes<T>(s: State<T>)
    requires Enabled(s, SubUsed)
    ensures Do(s, SubUsed).consumed == s.consumed + s.r.data
  {
  }

  /**
   * A read takes exactly the oldest samples: as many as it asked for, or all that were
   * published when it looked, whatever the writer does meanwhile.
   */
  lemma ReadTakesOldest<T>(run: seq<State<T>>, steps: seq<Step<T>>, b: nat, i: nat, j: nat)
    requires Execution(run, steps) && ReadCall(steps, b, i, j)
    ensures var n, published := |run[b].consumed|, run[i].written;
            var count := Min(steps[b].want, |published| - n);
            && n <= |published| && run[i].consumed == run[b].consumed
            && run[j + 1].consumed == published[..n + count]
            && run[j + 1].consumed == run[b].consumed + published[n..n + count]
  {
    hide Enabled;
    hide Do;
    hide Inv;
    LoadingKept(run, steps, b, i);
    ReadingKept(run, steps, i, j);
    Published(run, steps, i);
    Published(run, steps, j + 1);
    WrittenGrows(run, steps, i, j + 1);
    SubUsedIs(run, steps, j);
    SubUsedTakes(run[j]);
    assert run[i].consumed <= run[i].written;
    assert run[j + 1].consumed <= run[j + 1].written;
  }

  lemma SubUsedIs<T>(run: seq<State<T>>, steps: seq<Step<T>>, j: nat)
    requires Execution(run, steps) && j < |steps| && steps[j].SubUsed?
    ensures Enabled(run[j], SubUsed) && run[j + 1] == Do(run[j], SubUsed) && run[j].r.RStoredTail?
  {
  }

  lemma Published<T>(run: seq<State<T>>, steps: seq<Step<T>>, i: nat)
    requires Execution(run, steps) && i <= |steps|
    ensures run[i].consumed <= run[i].written && run[i].used == |run[i].written| - |run[i].consumed|
  {
    RingIsSafe(run, steps, i);
  }

  // ---- A write ----

  /** A write called at `b`, which loads the counter at `i` and completes at `j`. */
  ghost predicate WriteCall<T>(steps: seq<Step<T>>, b: nat, i: nat, j: nat) {
    && b < i < j < |steps| && steps[b].BeginWrite? && steps[i].LoadUsedForWrite? && steps[j].AddUsed?
    && forall m | b < m < j :: !steps[m].BeginWrite?
  }

  ghost predicate Offering<T>(s: State<T>, src: seq<T>, written: seq<T>) {
    s.w.WLoadedHead? ==> s.w.src == src && s.written == written
  }

  lemma WriterStaysOffering<T>(s: State<T>, e: Step<T>, src: seq<T>, written: seq<T>)
    requires Enabled(s, e) && !e.BeginWrite? && Offering(s, src, written)
    ensures Offering(Do(s, e), src, written)
  {
    hide Slot;
  }

  lemma {:induction false} OfferingKept<T>(run: seq<State<T>>, steps: seq<Step<T>>, b: nat, m: nat)
    requires Execution(run, steps) && b < m <= |steps|
    requires steps[b].BeginWrite? && forall l | b < l < m :: !steps[l].BeginWrite?
    ensures Offering(run[m], steps[b].src, run[b].written)
  {
    if m - 1 > b {
      OfferingKept(run, steps, b, m - 1);
      WriterStaysOffering(run[m - 1], steps[m - 1], steps[b].src, run[b].written);
    }
  }

  ghost predicate Writing<T>(s: State<T>, src: seq<T>, written: seq<T>) {
    && (s.w.WCopying? || s.w.WStoredHead? ==> s.w.src == src && s.written == written)
    && !s.w.WLoadedHead?
  }

  lemma WriterStaysWriting<T>(s: State<T>, e: Step<T>, src: seq<T>, written: seq<T>)
    requires Enabled(s, e) && !e.BeginWrite? && Writing(s, src, written)
    ensures Writing(Do(s, e), src, written)
  {
    hide Slot;
  }

  /** What a write that offers `src` takes of it when so many samples are used. */
  function Taken<T>(src: seq<T>, size: nat, used: nat): seq<T> {
    if used >= size then [] else src[..Min(|src|, size - used)]
  }

  lemma LoadStartsWriting<T>(s: State<T>)
    requires Enabled(s, LoadUsedForWrite)
    ensures s.w.WLoadedHead? && Writing(Do(s, LoadUsedForWrite), Taken(s.w.src, s.Size(), s.used), s.written)
  {
  }

  lemma {:induction false} WritingKept<T>(run: seq<State<T>>, steps: seq<Step<T>>, i: nat, m: nat)
    requires Execution(run, steps) && i < m <= |steps|
    requires steps[i].LoadUsedForWrite? && forall l | i < l < m :: !steps[l].BeginWrite?
    ensures run[i].w.WLoadedHead?
    ensures Writing(run[m], Taken(run[i].w.src, run[i].Size(), run[i].used), run[i].written)
  {
    LoadStartsWriting(run[i]);
    if m - 1 > i {
      WritingKept(run, steps, i, m - 1);
      WriterStaysWriting(run[m - 1], steps[m - 1], Taken(run[i].w.src, run[i].Size(), run[i].used), run[i].written);
    }
  }

  lemma AddUsedAdds<T>(run: seq<State<T>>, steps: seq<Step<T>>, j: nat)
    requires Execution(run, steps) && j < |steps| && steps[j].AddUsed?
    ensures run[j].w.WStoredHead? && run[j + 1].written == run[j].written + run[j].w.src
  {
  }

  /**
   * A write adds the front of what it offers, in order: all of it, or as much as was free when
   * it looked, whatever the reader does meanwhile.
   */
  lemma WriteAddsWhatFits<T>(run: seq<State<T>>, steps: seq<Step<T>>, b: nat, i: nat, j: nat)
    requires Execution(run, steps) && WriteCall(steps, b, i, j)
    ensures var src, free := steps[b].src, run[i].Size() - (|run[i].written| - |run[i].consumed|);
            && 0 <= free && run[j + 1].written == run[b].written + src[..Min(|src|, free)]
  {
    hide Inv;
    OfferingKept(run, steps, b, i);
    WritingKept(run, steps, i, j);
    AddUsedAdds(run, steps, j);
    RingIsSafe(run, steps, i);
  }

  /** The space measured beforehand is all that is free then. */
  lemma MeasuredSpace<T>(run: seq<State<T>>, steps: seq<Step<T>>, n: nat)
    requires Execution(run, steps) && n < |steps| && steps[n].Measure?
    ensures run[n + 1].w.WMeasured?
    ensures run[n + 1].w.space == run[n].Size() - (|run[n].written| - |run[n].consumed|)
  {
    hide Inv;
    RingIsSafe(run, steps, n);
  }

  // ---- Either call can always finish ----

  predicate Feasible<T>(s: State<T>, steps: seq<Step<T>>)
    decreases |steps|
  {
    |steps| == 0 || (Enabled(s, steps[0]) && Feasible(Do(s, steps[0]), steps[1..]))
  }

  function End<T>(s: State<T>, steps: seq<Step<T>>): State<T>
    requires Feasible(s, steps)
    decreases |steps|
  {
    if |steps| == 0 then s else End(Do(s, steps[0]), steps[1..])
  }

  ghost predicate Leads<T>(s: State<T>, steps: seq<Step<T>>, r: State<T>) {
    Feasible(s, steps) && End(s, steps) == r
  }

  lemma FirstStep<T>(s: State<T>, e: Step<T>, r: State<T>, steps: seq<Step<T>>, t: State<T>)
    requires Enabled(s, e) && Do(s, e) == r && Leads(r, steps, t)
    ensures Leads(s, [e] + steps, t)
  {
    hide Enabled;
    hide Do;
    assert ([e] + steps)[0] == e && ([e] + steps)[1..] == steps;
  }

  lemma NoStep<T>(s: State<T>)
    ensures Leads(s, [], s)
  {
  }

  lemma OneStep<T>(s: State<T>, e: Step<T>, r: State<T>)
    requires Enabled(s, e) && Do(s, e) == r
    ensures Leads(s, [e], r)
  {
    hide Enabled;
    hide Do;
    NoStep(r);
    FirstStep(s, e, r, [], r);
    assert [e] + [] == [e];
  }

  /** The samples that the read under way is to take. */
  function Outstanding<T>(s: State<T>): nat {
    match s.r
    case RIdle => 0
    case RLoadedTail(want, _) => Min(want, s.used)
    case RCopying(count, _, _) => count
    case RStoredTail(data) => |data|
  }

  /** What a finished read leaves: nothing of the writer's changes. */
  ghost predicate ReadDone<T>(s: State<T>, r: State<T>) {
    && r.r.RIdle? && r.w == s.w && r.written == s.written && r.buffer == s.buffer && r.head == s.head
    && |r.consumed| == |s.consumed| + Outstanding(s)
  }

  lemma ReadStored<T>(s: State<T>) returns (steps: seq<Step<T>>, r: State<T>)
    requires Inv(s) && s.r.RStoredTail?
    ensures Leads(s, steps, r) && ReadDone(s, r)
  {
    CountsDoNotWrap(s, SubUsed);
    hide Inv;
    r := Do(s, SubUsed);
    OneStep(s, SubUsed, r);
    steps := [SubUsed];
  }

  lemma CopyOutCan<T>(s: State<T>, i: nat)
    requires Inv(s) && s.r.RCopying? && i < s.r.count && i !in s.r.got
    ensures Enabled(s, CopyOut(i))
    ensures var r := Do(s, CopyOut(i));
            r.r.RCopying? && r == s.(r := r.r) && r.r.count == s.r.count && r.r.got.Keys == s.r.got.Keys + {i}
  {
    SlotIsPlace(|s.consumed|, s.r.t, i, s.r.count, s.Size());
    hide Slot;
  }

  lemma {:induction false} ReadCopied<T>(s: State<T>, i: nat) returns (steps: seq<Step<T>>, r: State<T>)
    requires Inv(s) && s.r.RCopying? && i <= s.r.count && forall k: nat | k < i :: k in s.r.got
    ensures Leads(s, steps, r) && ReadDone(s, r)
    decreases s.r.count - i
  {
    hide Inv;
    hide Slot;
    hide Leads;
    if i == s.r.count {
      var t := StoreTailCan(s);
      steps, r := ReadStored(t);
      FirstStep(s, StoreTail, t, steps, r);
      steps := [StoreTail] + steps;
    } else if i in s.r.got {
      steps, r := ReadCopied(s, i + 1);
    } else {
      CopyOutCan(s, i);
      StepKeepsInv(s, CopyOut(i));
      var t := Do(s, CopyOut(i));
      steps, r := ReadCopied(t, i + 1);
      FirstStep(s, CopyOut(i), t, steps, r);
      steps := [CopyOut(i)] + steps;
    }
  }

  lemma StoreTailCan<T>(s: State<T>) returns (t: State<T>)
    requires Inv(s) && s.r.RCopying? && forall k: nat | k < s.r.count :: k in s.r.got
    ensures Enabled(s, StoreTail) && t == Do(s, StoreTail) && Inv(t)
    ensures t == s.(r := t.r, tail := t.tail) && t.r.RStoredTail? && |t.r.data| == s.r.count
  {
    t := Do(s, StoreTail);
    StepKeepsInv(s, StoreTail);
  }

  /**
   * From wherever it is, a read can finish by its own steps alone, whatever place the writer
   * has stopped at, and then has taken the oldest samples.
   */
  lemma ReadCanFinish<T>(s: State<T>) returns (steps: seq<Step<T>>, r: State<T>)
    requires Inv(s) && !s.r.RIdle?
    ensures Leads(s, steps, r) && Inv(r) && ReadDone(s, r)
    ensures |s.consumed| + Outstanding(s) <= |s.written| && r.consumed == s.written[..|s.consumed| + Outstanding(s)]
  {
    hide Leads;
    match s.r {
      case RLoadedTail(want, _) =>
        var t := Do(s, LoadUsedForRead);
        StepKeepsInv(s, LoadUsedForRead);
        if t.r.RIdle? {
          OneStep(s, LoadUsedForRead, t);
          steps, r := [LoadUsedForRead], t;
        } else {
          steps, r := ReadCopied(t, 0);
          FirstStep(s, LoadUsedForRead, t, steps, r);
          steps := [LoadUsedForRead] + steps;
        }
      case RCopying(_, _, _) =>
        steps, r := ReadCopied(s, 0);
      case RStoredTail(_) =>
        steps, r := ReadStored(s);
    }
    hide Inv;
    hide ReadDone;
    LeadsKeepsInv(s, steps, r);
    TakenIsOldest(s, r);
  }

  lemma TakenIsOldest<T>(s: State<T>, r: State<T>)
    requires Inv(r) && ReadDone(s, r)
    ensures |s.consumed| + Outstanding(s) <= |s.written| && r.consumed == s.written[..|s.consumed| + Outstanding(s)]
  {
  }

  lemma {:induction false} LeadsKeepsInv<T>(s: State<T>, steps: seq<Step<T>>, r: State<T>)
    requires Inv(s) && Leads(s, steps, r)
    ensures Inv(r)
    decreases |steps|
  {
    hide Enabled;
    hide Do;
    hide Inv;
    if |steps| > 0 {
      StepKeepsInv(s, steps[0]);
      LeadsKeepsInv(Do(s, steps[0]), steps[1..], r);
    }
  }

  // ---- The same for a write ----

  /** The samples that the write under way is to add. */
  function Coming<T>(s: State<T>): seq<T> {
    match s.w
    case WIdle => []
    case WMeasured(_) => []
    case WLoadedHead(src, _, _) => Taken(src, s.Size(), s.used)
    case WCopying(src, _, _) => src
    case WStoredHead(src) => src
  }

  ghost predicate WriteDone<T>(s: State<T>, r: State<T>) {
    && r.w.WIdle? && r.r == s.r && r.consumed == s.consumed && r.tail == s.tail
    && r.written == s.written + Coming(s)
  }

  lemma WriteStored<T>(s: State<T>) returns (steps: seq<Step<T>>, r: State<T>)
    requires Inv(s) && s.w.WStoredHead?
    ensures Leads(s, steps, r) && WriteDone(s, r)
  {
    CountsDoNotWrap(s, AddUsed);
    hide Inv;
    r := Do(s, AddUsed);
    OneStep(s, AddUsed, r);
    steps := [AddUsed];
  }

  lemma CopyInCan<T>(s: State<T>, i: nat)
    requires Inv(s) && s.w.WCopying? && i < |s.w.src| && i !in s.w.done
    ensures Enabled(s, CopyIn(i))
    ensures var r := Do(s, CopyIn(i));
            && r.w == s.w.(done := s.w.done + {i}) && r == s.(w := r.w, buffer := r.buffer)
            && Taken(s.w.src, r.Size(), r.used) == Taken(s.w.src, s.Size(), s.used)
  {
    SlotIsPlace(|s.written|, s.w.h, i, |s.w.src|, s.Size());
    hide Slot;
  }

  lemma StoreHeadCan<T>(s: State<T>) returns (t: State<T>)
    requires Inv(s) && s.w.WCopying? && forall k: nat | k < |s.w.src| :: k in s.w.done
    ensures Enabled(s, StoreHead) && t == Do(s, StoreHead) && Inv(t)
    ensures t == s.(w := WStoredHead(s.w.src), head := t.head)
  {
    t := Do(s, StoreHead);
    StepKeepsInv(s, StoreHead);
  }

  lemma {:induction false} WriteCopied<T>(s: State<T>, i: nat) returns (steps: seq<Step<T>>, r: State<T>)
    requires Inv(s) && s.w.WCopying? && i <= |s.w.src| && forall k: nat | k < i :: k in s.w.done
    ensures Leads(s, steps, r) && WriteDone(s, r)
    decreases |s.w.src| - i
  {
    hide Inv;
    hide Slot;
    hide Leads;
    if i == |s.w.src| {
      var t := StoreHeadCan(s);
      steps, r := WriteStored(t);
      FirstStep(s, StoreHead, t, steps, r);
      steps := [StoreHead] + steps;
    } else if i in s.w.done {
      steps, r := WriteCopied(s, i + 1);
    } else {
      CopyInCan(s, i);
      StepKeepsInv(s, CopyIn(i));
      var t := Do(s, CopyIn(i));
      steps, r := WriteCopied(t, i + 1);
      FirstStep(s, CopyIn(i), t, steps, r);
      steps := [CopyIn(i)] + steps;
    }
  }

  /** From wherever it is, a write can finish by its own steps alone, and then has added what fits. */
  lemma WriteCanFinish<T>(s: State<T>) returns (steps: seq<Step<T>>, r: State<T>)
    requires Inv(s) && !s.w.WIdle? && !s.w.WMeasured?
    ensures Leads(s, steps, r) && Inv(r) && WriteDone(s, r)
  {
    hide Leads;
    match s.w {
      case WLoadedHead(src, _, _) =>
        var t := Do(s, LoadUsedForWrite);
        StepKeepsInv(s, LoadUsedForWrite);
        if t.w.WIdle? {
          OneStep(s, LoadUsedForWrite, t);
          steps, r := [LoadUsedForWrite], t;
        } else {
          steps, r := WriteCopied(t, 0);
          FirstStep(s, LoadUsedForWrite, t, steps, r);
          steps := [LoadUsedForWrite] + steps;
        }
      case WCopying(_, _, _) =>
        steps, r := WriteCopied(s, 0);
      case WStoredHead(_) =>
        steps, r := WriteStored(s);
    }
    hide Inv;
    hide WriteDone;
    LeadsKeepsInv(s, steps, r);
  }
}
