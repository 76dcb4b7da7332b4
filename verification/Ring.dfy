/**
 * The lock-free ring between the buffer thread, which writes, and the audio callback, which
 * reads. Each atomic load, store and read-modify-write is one step, and so is each sample
 * copied; the steps of one `ring_write` caller and one `ring_read` caller interleave freely.
 */
module Ring {
  /**
   * The writer, between its steps. `fits` says that the samples were produced for a space
   * measured beforehand, as the buffer thread does.
   */
  datatype Writer<T> =
    | WIdle
    | WMeasured(space: nat)
    | WLoadedHead(src: seq<T>, h: nat, fits: bool)
    | WCopying(src: seq<T>, h: nat, done: set<nat>)
    | WStoredHead(src: seq<T>)

  datatype Reader<T> =
    | RIdle
    | RLoadedTail(want: nat, t: nat)
    | RCopying(count: nat, t: nat, got: map<nat, T>)
    | RStoredTail(data: seq<T>)

  /**
   * The shared ring and both callers. `written` and `consumed` record all samples whose
   * write, or read, has completed.
   */
  datatype State<T> = State(buffer: seq<T>, head: nat, tail: nat, used: nat, w: Writer<T>, r: Reader<T>,
                            written: seq<T>, consumed: seq<T>)
  {
    function Size(): nat { |buffer| }
  }

  function Min(a: int, b: int): int {
    if a < b then a else b
  }

  /** The counters are unsigned 64-bit numbers. */
  const SIZE_LIMIT: int := 0x1_0000_0000_0000_0000

  function WrapSize(x: int): nat {
    x % SIZE_LIMIT
  }

  /** Full when used reaches the size. */
  function Space<T>(s: State<T>): nat {
    if s.used >= s.Size() then 0 else s.Size() - s.used
  }

  /** Where sample `i` of `count` goes: a first run up to the end, the rest from the start. */
  function Slot(at: nat, i: nat, count: nat, size: nat): int
    requires at < size
  {
    var first := Min(size - at, count);
    if i < first then at + i else i - first
  }

  // ---- Steps ----

  datatype Step<T> =
    | Measure
    | BeginWrite(src: seq<T>)
    | LoadUsedForWrite
    | CopyIn(i: nat)
    | StoreHead
    | AddUsed
    | BeginRead(want: nat)
    | LoadUsedForRead
    | CopyOut(i: nat)
    | StoreTail
    | SubUsed

  predicate Enabled<T>(s: State<T>, e: Step<T>) {
    match e
    case Measure => s.w.WIdle?
    case BeginWrite(src) => s.w.WIdle? || (s.w.WMeasured? && |src| <= s.w.space)
    case LoadUsedForWrite => s.w.WLoadedHead?
    case CopyIn(i) =>
      s.w.WCopying? && i < |s.w.src| && i !in s.w.done && s.w.h < s.Size()
      && 0 <= Slot(s.w.h, i, |s.w.src|, s.Size()) < s.Size()
    case StoreHead => s.w.WCopying? && s.Size() > 0 && forall i: nat | i < |s.w.src| :: i in s.w.done
    case AddUsed => s.w.WStoredHead?
    case BeginRead(want) => s.r.RIdle?
    case LoadUsedForRead => s.r.RLoadedTail?
    case CopyOut(i) =>
      s.r.RCopying? && i < s.r.count && i !in s.r.got && s.r.t < s.Size()
      && 0 <= Slot(s.r.t, i, s.r.count, s.Size()) < s.Size()
    case StoreTail => s.r.RCopying? && s.Size() > 0 && forall i: nat | i < s.r.count :: i in s.r.got
    case SubUsed => s.r.RStoredTail?
  }

  function Do<T>(s: State<T>, e: Step<T>): State<T>
    requires Enabled(s, e)
  {
    match e
    case Measure => s.(w := WMeasured(Space(s)))
    case BeginWrite(src) => s.(w := WLoadedHead(src, s.head, s.w.WMeasured?))
    case LoadUsedForWrite =>
      var count := Min(|s.w.src|, Space(s));
      s.(w := if count == 0 then WIdle else WCopying(s.w.src[..count], s.w.h, {}))
    case CopyIn(i) =>
      s.(buffer := s.buffer[Slot(s.w.h, i, |s.w.src|, s.Size()) := s.w.src[i]], w := s.w.(done := s.w.done + {i}))
    case StoreHead => s.(head := (s.w.h + |s.w.src|) % s.Size(), w := WStoredHead(s.w.src))
    case AddUsed => s.(used := WrapSize(s.used + |s.w.src|), written := s.written + s.w.src, w := WIdle)
    case BeginRead(want) => s.(r := RLoadedTail(want, s.tail))
    case LoadUsedForRead =>
      var count := Min(s.r.want, s.used);
      s.(r := if count == 0 then RIdle else RCopying(count, s.r.t, map[]))
    case CopyOut(i) => s.(r := s.r.(got := s.r.got[i := s.buffer[Slot(s.r.t, i, s.r.count, s.Size())]]))
    case StoreTail =>
      var got := s.r.got;
      s.(tail := (s.r.t + s.r.count) % s.Size(),
         r := RStoredTail(seq(s.r.count, i requires 0 <= i < s.r.count && i in got => got[i])))
    case SubUsed => s.(used := WrapSize(s.used - |s.r.data|), consumed := s.consumed + s.r.data, r := RIdle)
  }

  ghost predicate Initial<T>(s: State<T>) {
    && 0 < s.Size() < SIZE_LIMIT && s.head == s.tail == s.used == 0
    && s.w.WIdle? && s.r.RIdle? && s.written == [] && s.consumed == []
  }

  /** `run` lists the states of an execution that takes the given steps. */
  ghost predicate Execution<T>(run: seq<State<T>>, steps: seq<Step<T>>) {
    && |run| == |steps| + 1 && Initial(run[0])
    && forall i | 0 <= i < |steps| :: Enabled(run[i], steps[i]) && run[i + 1] == Do(run[i], steps[i])
  }

  // ---- The invariant ----

  /** Slot of the k-th sample of the whole stream. */
  function Place(k: nat, size: nat): (p: nat)
    requires size > 0
    ensures p < size
  {
    k % size
  }

  ghost predicate Shape<T>(s: State<T>) {
    && 0 < s.Size() < SIZE_LIMIT
    && s.used == |s.written| - |s.consumed| && 0 <= s.used <= s.Size()
    && s.consumed <= s.written
    && (forall k | |s.consumed| <= k < |s.written| :: s.buffer[Place(k, s.Size())] == s.written[k])
  }

  ghost predicate WriterInv<T>(s: State<T>)
    requires s.Size() > 0 && s.used <= s.Size()
  {
    var n, room := |s.written|, s.Size() - s.used;
    match s.w
    case WIdle => s.head == Place(n, s.Size())
    case WMeasured(space) => s.head == Place(n, s.Size()) && space <= room
    case WLoadedHead(src, h, fits) => h == s.head == Place(n, s.Size()) && (fits ==> |src| <= room)
    case WCopying(src, h, done) =>
      && h == s.head == Place(n, s.Size()) && |src| <= room
      && forall i | i in done :: i < |src| && s.buffer[Place(n + i, s.Size())] == src[i]
    case WStoredHead(src) =>
      && s.head == Place(n + |src|, s.Size()) && |src| <= room
      && forall i: nat | i < |src| :: s.buffer[Place(n + i, s.Size())] == src[i]
  }

  ghost predicate ReaderInv<T>(s: State<T>)
    requires s.Size() > 0 && s.used == |s.written| - |s.consumed|
  {
    var n := |s.consumed|;
    match s.r
    case RIdle => s.tail == Place(n, s.Size())
    case RLoadedTail(want, t) => t == s.tail == Place(n, s.Size())
    case RCopying(count, t, got) =>
      && t == s.tail == Place(n, s.Size()) && count <= s.used
      && forall i | i in got :: i < count && got[i] == s.written[n + i]
    case RStoredTail(data) =>
      && s.tail == Place(n + |data|, s.Size()) && |data| <= s.used
      && forall i: nat | i < |data| :: data[i] == s.written[n + i]
  }

  ghost predicate Inv<T>(s: State<T>) {
    Shape(s) && WriterInv(s) && ReaderInv(s)
  }

  // ---- Arithmetic of the slots ----

  lemma PlaceWraps(k: nat, size: nat, m: nat)
    requires size > 0 && m <= size
    ensures Place(k + m, size) == if Place(k, size) + m < size then Place(k, size) + m else Place(k, size) + m - size
  {
    var q, r := k / size, k % size;
    assert k + m == q * size + (r + m);
    if r + m < size {
      ModUnique(k + m, size, q, r + m);
    } else {
      assert k + m == (q + 1) * size + (r + m - size);
      ModUnique(k + m, size, q + 1, r + m - size);
    }
  }

  lemma ModUnique(a: nat, size: nat, q: int, r: int)
    requires size > 0 && a == q * size + r && 0 <= r < size
    ensures a % size == r
  {
    var d := q - a / size;
    assert d * size + r == a % size;
    assert d == 0;
  }

  /** The two runs of the copy go where the stream says. */
  lemma SlotIsPlace(k: nat, at: nat, i: nat, count: nat, size: nat)
    requires size > 0 && at == Place(k, size) && i < count <= size
    ensures at < size && Slot(at, i, count, size) == Place(k + i, size)
  {
    PlaceWraps(k, size, i);
  }

  lemma PlacesDiffer(a: nat, b: nat, size: nat)
    requires size > 0 && a < b < a + size
    ensures Place(a, size) != Place(b, size)
  {
    PlaceWraps(a, size, b - a);
  }

  lemma PlaceOfNext(k: nat, at: nat, count: nat, size: nat)
    requires size > 0 && at == Place(k, size) && count <= size
    ensures (at + count) % size == Place(k + count, size)
  {
    PlaceWraps(k, size, count);
    if at + count < size {
      ModUnique(at + count, size, 0, at + count);
    } else {
      ModUnique(at + count, size, 1, at + count - size);
    }
  }

  // ---- Every step keeps the invariant ----

  lemma WriterStepKeepsInv<T>(s: State<T>, e: Step<T>)
    requires Inv(s) && Enabled(s, e)
    requires e.Measure? || e.BeginWrite? || e.LoadUsedForWrite?
    ensures Inv(Do(s, e))
  {
  }

  lemma ReaderStepKeepsInv<T>(s: State<T>, e: Step<T>)
    requires Inv(s) && Enabled(s, e)
    requires e.BeginRead? || e.LoadUsedForRead?
    ensures Inv(Do(s, e))
  {
  }

  /** A sample copied in lands on a free slot: no unread sample and no other new one is hit. */
  lemma CopyInKeepsInv<T>(s: State<T>, i: nat)
    requires Inv(s) && Enabled(s, CopyIn(i))
    ensures Inv(Do(s, CopyIn(i)))
  {
    var n, size, src, r := |s.written|, s.Size(), s.w.src, Do(s, CopyIn(i));
    SlotIsPlace(n, s.w.h, i, |src|, size);
    hide Place;
    hide Slot;
    assert r == s.(buffer := s.buffer[Place(n + i, size) := src[i]], w := s.w.(done := s.w.done + {i}));
    hide Do;
    hide Enabled;
    forall k | |s.consumed| <= k < n + |src| && k != n + i
      ensures Place(k, size) != Place(n + i, size)
    {
      if k < n + i {
        PlacesDiffer(k, n + i, size);
      } else {
        PlacesDiffer(n + i, k, size);
      }
    }
    forall j | j in r.w.done
      ensures r.buffer[Place(n + j, size)] == src[j]
    {
    }
  }

  lemma StoreHeadKeepsInv<T>(s: State<T>)
    requires Inv(s) && Enabled(s, StoreHead)
    ensures Inv(Do(s, StoreHead))
  {
    PlaceOfNext(|s.written|, s.w.h, |s.w.src|, s.Size());
    hide Place;
  }

  lemma AddUsedKeepsInv<T>(s: State<T>)
    requires Inv(s) && Enabled(s, AddUsed)
    ensures Inv(Do(s, AddUsed))
  {
    hide Place;
    CountsDoNotWrap(s, AddUsed);
    hide Do;
    hide Enabled;
    var n, r := |s.written|, Do(s, AddUsed);
    forall k | |r.consumed| <= k < |r.written|
      ensures r.buffer[Place(k, s.Size())] == r.written[k]
    {
      if k >= n {
        assert s.buffer[Place(n + (k - n), s.Size())] == s.w.src[k - n];
      }
    }
  }

  lemma CopyOutKeepsInv<T>(s: State<T>, i: nat)
    requires Inv(s) && Enabled(s, CopyOut(i))
    ensures Inv(Do(s, CopyOut(i)))
  {
    SlotIsPlace(|s.consumed|, s.r.t, i, s.r.count, s.Size());
    hide Place;
    hide Slot;
  }

  lemma StoreTailKeepsInv<T>(s: State<T>)
    requires Inv(s) && Enabled(s, StoreTail)
    ensures Inv(Do(s, StoreTail))
  {
    PlaceOfNext(|s.consumed|, s.r.t, s.r.count, s.Size());
    hide Place;
  }

  lemma SubUsedKeepsInv<T>(s: State<T>)
    requires Inv(s) && Enabled(s, SubUsed)
    ensures Inv(Do(s, SubUsed))
  {
    hide Place;
    var n, data := |s.consumed|, s.r.data;
    forall k | 0 <= k < n + |data|
      ensures (s.consumed + data)[k] == s.written[k]
    {
      if k >= n {
        assert data[k - n] == s.written[n + (k - n)];
      }
    }
  }

  lemma StepKeepsInv<T>(s: State<T>, e: Step<T>)
    requires Inv(s) && Enabled(s, e)
    ensures Inv(Do(s, e))
  {
    hide *;
    match e
    case Measure => WriterStepKeepsInv(s, e);
    case BeginWrite(_) => WriterStepKeepsInv(s, e);
    case LoadUsedForWrite => WriterStepKeepsInv(s, e);
    case CopyIn(i) => CopyInKeepsInv(s, i);
    case StoreHead => StoreHeadKeepsInv(s);
    case AddUsed => AddUsedKeepsInv(s);
    case BeginRead(_) => ReaderStepKeepsInv(s, e);
    case LoadUsedForRead => ReaderStepKeepsInv(s, e);
    case CopyOut(i) => CopyOutKeepsInv(s, i);
    case StoreTail => StoreTailKeepsInv(s);
    case SubUsed => SubUsedKeepsInv(s);
  }

  lemma {:induction false} ExecutionKeepsInv<T>(run: seq<State<T>>, steps: seq<Step<T>>, n: nat)
    requires Execution(run, steps) && n < |run|
    ensures Inv(run[n])
  {
    if n == 0 {
      assert run[0].written == [];
    } else {
      ExecutionKeepsInv(run, steps, n - 1);
      hide Inv;
      StepKeepsInv(run[n - 1], steps[n - 1]);
    }
  }

  // ---- What the ring promises ----

  /** Slots the writer is copying into at this moment. */
  ghost function BeingWritten<T>(s: State<T>): set<int>
    requires s.w.WCopying? ==> s.w.h < s.Size()
  {
    if s.w.WCopying? then set i | 0 <= i < |s.w.src| :: Slot(s.w.h, i, |s.w.src|, s.Size()) else {}
  }

  /** Slots the reader is copying from at this moment. */
  ghost function BeingRead<T>(s: State<T>): set<int>
    requires s.r.RCopying? ==> s.r.t < s.Size()
  {
    if s.r.RCopying? then set i | 0 <= i < s.r.count :: Slot(s.r.t, i, s.r.count, s.Size()) else {}
  }

  lemma SlotsAreDisjoint<T>(s: State<T>)
    requires Inv(s)
    ensures s.w.WCopying? ==> s.w.h < s.Size()
    ensures s.r.RCopying? ==> s.r.t < s.Size()
    ensures BeingWritten(s) !! BeingRead(s)
  {
    var n, m, size := |s.written|, |s.consumed|, s.Size();
    PlaceWraps(n, size, 0);
    PlaceWraps(m, size, 0);
    if s.w.WCopying? && s.r.RCopying? {
      forall i, j | 0 <= i < |s.w.src| && 0 <= j < s.r.count
        ensures Slot(s.w.h, i, |s.w.src|, size) != Slot(s.r.t, j, s.r.count, size)
      {
        SlotIsPlace(n, s.w.h, i, |s.w.src|, size);
        SlotIsPlace(m, s.r.t, j, s.r.count, size);
        PlacesDiffer(m + j, n + i, size);
      }
    }
  }

  /**
   * At every moment of every interleaving: the samples read are a prefix of the samples
   * written, used never exceeds the size, and no slot is read while it is written.
   */
  lemma RingIsSafe<T>(run: seq<State<T>>, steps: seq<Step<T>>, n: nat)
    requires Execution(run, steps) && n < |run|
    ensures var s := run[n];
            && s.consumed <= s.written
            && s.used == |s.written| - |s.consumed| <= s.Size()
            && (s.w.WCopying? ==> s.w.h < s.Size()) && (s.r.RCopying? ==> s.r.t < s.Size())
            && BeingWritten(s) !! BeingRead(s)
  {
    ExecutionKeepsInv(run, steps, n);
    SlotsAreDisjoint(run[n]);
  }

  /** Samples produced for a space measured beforehand are never cut short. */
  lemma MeasuredWriteFits<T>(run: seq<State<T>>, steps: seq<Step<T>>, n: nat)
    requires Execution(run, steps) && n < |steps|
    requires steps[n] == LoadUsedForWrite && run[n].w.fits && |run[n].w.src| > 0
    ensures run[n + 1].w == WCopying(run[n].w.src, run[n].w.h, {})
  {
    ExecutionKeepsInv(run, steps, n);
    var src := run[n].w.src;
    assert src[..|src|] == src;
  }

  // ---- Stereo frames ----

  ghost predicate Even(k: int) {
    k % 2 == 0
  }

  /** Callers ask for whole stereo frames. */
  ghost predicate WholeFrames<T>(e: Step<T>) {
    match e
    case BeginWrite(src) => Even(|src|)
    case BeginRead(want) => Even(want)
    case _ => true
  }

  ghost predicate FramesInv<T>(s: State<T>) {
    && Even(s.Size()) && Even(s.head) && Even(s.tail) && Even(s.used)
    && Even(|s.written|) && Even(|s.consumed|)
    && (match s.w
        case WIdle => true
        case WMeasured(_) => true
        case WLoadedHead(src, h, _) => Even(|src|) && Even(h)
        case WCopying(src, h, _) => Even(|src|) && Even(h)
        case WStoredHead(src) => Even(|src|))
    && (match s.r
        case RIdle => true
        case RLoadedTail(want, t) => Even(want) && Even(t)
        case RCopying(count, t, _) => Even(count) && Even(t)
        case RStoredTail(data) => Even(|data|))
  }

  lemma EvenModulo(a: nat, m: nat)
    requires m > 0 && Even(a) && Even(m)
    ensures Even(a % m)
  {
    var q := a / m;
    assert a == q * m + a % m;
    var h := m / 2;
    assert q * m == 2 * (q * h);
  }

  lemma SimpleStepKeepsFrames<T>(s: State<T>, e: Step<T>)
    requires FramesInv(s) && Enabled(s, e) && WholeFrames(e)
    requires !e.StoreHead? && !e.StoreTail? && !e.AddUsed? && !e.SubUsed?
    ensures FramesInv(Do(s, e))
  {
    hide Slot;
  }

  lemma StoreKeepsFrames<T>(s: State<T>, e: Step<T>)
    requires FramesInv(s) && Enabled(s, e) && (e.StoreHead? || e.StoreTail?)
    ensures FramesInv(Do(s, e))
  {
    if e.StoreHead? {
      EvenModulo(s.w.h + |s.w.src|, s.Size());
    } else {
      EvenModulo(s.r.t + s.r.count, s.Size());
    }
  }

  /** Within the invariant the counter arithmetic does not wrap. */
  lemma CountsDoNotWrap<T>(s: State<T>, e: Step<T>)
    requires Inv(s) && Enabled(s, e)
    ensures e.AddUsed? ==> s.w.WStoredHead? && Do(s, e) == Published(s)
    ensures e.SubUsed? ==> s.r.RStoredTail? && |s.r.data| <= s.used && Do(s, e) == Released(s)
  {
  }

  function Published<T>(s: State<T>): State<T>
    requires s.w.WStoredHead?
  {
    s.(used := s.used + |s.w.src|, written := s.written + s.w.src, w := WIdle)
  }

  function Released<T>(s: State<T>): State<T>
    requires s.r.RStoredTail? && |s.r.data| <= s.used
  {
    s.(used := s.used - |s.r.data|, consumed := s.consumed + s.r.data, r := RIdle)
  }

  lemma PublishedFrames<T>(s: State<T>)
    requires FramesInv(s) && s.w.WStoredHead?
    ensures FramesInv(Published(s))
  {
  }

  lemma ReleasedFrames<T>(s: State<T>)
    requires FramesInv(s) && s.r.RStoredTail? && |s.r.data| <= s.used
    ensures FramesInv(Released(s))
  {
  }

  lemma CountKeepsFrames<T>(s: State<T>, e: Step<T>)
    requires Inv(s) && FramesInv(s) && Enabled(s, e) && (e.AddUsed? || e.SubUsed?)
    ensures FramesInv(Do(s, e))
  {
    hide *;
    CountsDoNotWrap(s, e);
    if e.AddUsed? {
      PublishedFrames(s);
    } else {
      ReleasedFrames(s);
    }
  }

  lemma StepKeepsFrames<T>(s: State<T>, e: Step<T>)
    requires Inv(s) && FramesInv(s) && Enabled(s, e) && WholeFrames(e)
    ensures FramesInv(Do(s, e))
  {
    hide *;
    match e
    case StoreHead => StoreKeepsFrames(s, e);
    case StoreTail => StoreKeepsFrames(s, e);
    case AddUsed => CountKeepsFrames(s, e);
    case SubUsed => CountKeepsFrames(s, e);
    case _ => SimpleStepKeepsFrames(s, e);
  }

  /** Whole frames in, whole frames out: a stereo pair is never split across two calls. */
  lemma {:induction false} FramesStayWhole<T>(run: seq<State<T>>, steps: seq<Step<T>>, n: nat)
    requires Execution(run, steps) && n < |run| && Even(run[0].Size())
    requires forall i | 0 <= i < |steps| :: WholeFrames(steps[i])
    ensures Even(run[n].head) && Even(run[n].tail) && Even(run[n].used)
    ensures FramesInv(run[n])
  {
    if n > 0 {
      FramesStayWhole(run, steps, n - 1);
      ExecutionKeepsInv(run, steps, n - 1);
      StepKeepsFrames(run[n - 1], steps[n - 1]);
    }
  }
}
