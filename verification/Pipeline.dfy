/**
 * The encode pipeline: the main thread queues audio for encoding and sends what comes back,
 * the encode thread moves items from the encode queue to the send queue. Every queue
 * push, under its mutex, is one step; a pop is several, as if its mutex were not there: the
 * tests and the taking of the front interleave with whatever the other thread does, through
 * shutdown. A hook may transmit by itself, or disconnect, while the main thread has an item in
 * hand or is about to make one.
 */
module Pipeline {
  /** One allocated piece of work; `n` is its place in the sequence before wrapping. */
  datatype Work = Work(n: nat, audioSequence: nat)

  const SEQUENCE_LIMIT: int := 0x1_0000_0000

  datatype Encoder =
    | ETesting
    | EWaiting
    | ELeaving
    | ETaking
    | EEncoding(item: Work)
    | EPushing(item: Work)
    | EExited
    /** It took the front of an empty queue. */
    | EFault

  /** What a shutdown interrupts: nothing, the audio event before it encodes, or a sending. */
  datatype Around = Nothing | Encoding | Sending(work: Work)

  datatype MainPc =
    | MRunning
    | MTaking
    /** In the hooks of the audio event, before it decides whether to encode. */
    | MHooking
    | MPushing(work: Work)
    | MSending(work: Work)
    /** Sent; the speaking hooks run before the item is freed. */
    | MFreeing(work: Work)
    | MJoining(around: Around)
    | MCleanEncode(around: Around)
    | MCleanSend(around: Around)
    | MDone
    /** It took the front of an empty queue. */
    | MFault

  /**
   * The queues, the flag and both threads. The last fields record what was allocated,
   * queued, sent, freed, freed unsent from either queue, and made after the shutdown so far.
   */
  datatype State = State(next: nat, encodeQueue: seq<Work>, sendQueue: seq<Work>, running: bool,
                         e: Encoder, m: MainPc,
                         made: seq<Work>, queued: seq<Work>, sent: seq<Work>, freed: seq<Work>,
                         droppedEncode: seq<Work>, droppedSend: seq<Work>, late: seq<Work>)

  datatype Step =
    | BeginEvent | Submit | EndEvent | PushEncode | SkipSequence | LookSend | TakeSend | Send | Free
    | Shutdown | Join | CleanEncode | CleanSend
    | TestRunning | LeaveWait | TestShutdown | TakeEncode | Encode | PushSend

  predicate Enabled(s: State, e: Step) {
    match e
    case BeginEvent => s.m.MRunning?
    case Submit => s.m.MHooking?
    case EndEvent => s.m.MHooking?
    case PushEncode => s.m.MPushing?
    // transmitting by itself needs a connection
    case SkipSequence => s.running && (s.m.MRunning? || s.m.MHooking? || s.m.MFreeing?)
    case LookSend => s.m.MRunning?
    case TakeSend => s.m.MTaking?
    case Send => s.m.MSending?
    case Free => s.m.MFreeing?
    case Shutdown => s.running && (s.m.MRunning? || s.m.MHooking? || s.m.MFreeing?)
    case Join => s.m.MJoining? && s.e.EExited?
    case CleanEncode => s.m.MCleanEncode?
    case CleanSend => s.m.MCleanSend?
    case TestRunning => s.e.ETesting?
    // the wait loop is left when there is work or the flag is down
    case LeaveWait => s.e.EWaiting? && !(|s.encodeQueue| == 0 && s.running)
    case TestShutdown => s.e.ELeaving?
    case TakeEncode => s.e.ETaking?
    case Encode => s.e.EEncoding?
    case PushSend => s.e.EPushing?
  }

  function AroundOf(m: MainPc): Around {
    if m.MFreeing? then Sending(m.work) else if m.MHooking? then Encoding else Nothing
  }

  /** Where the main thread goes on after a shutdown. */
  function Back(around: Around): MainPc {
    match around
    case Nothing => MDone
    case Encoding => MHooking
    case Sending(w) => MFreeing(w)
  }

  /** After an event: on as long as the client is connected. */
  function Next(s: State): MainPc {
    if s.running then MRunning else MDone
  }

  function Do(s: State, e: Step): State
    requires Enabled(s, e)
  {
    match e
    case BeginEvent => s.(m := MHooking)
    case EndEvent => s.(m := Next(s))
    case Submit =>
      var w := Work(s.next, s.next % SEQUENCE_LIMIT);
      s.(next := s.next + 1, made := s.made + [w], m := MPushing(w), late := if s.running then s.late else s.late + [w])
    case PushEncode => s.(encodeQueue := s.encodeQueue + [s.m.work], queued := s.queued + [s.m.work], m := Next(s))
    case SkipSequence => s.(next := s.next + 1)
    case LookSend => if |s.sendQueue| == 0 then s else s.(m := MTaking)
    case TakeSend =>
      if |s.sendQueue| == 0 then s.(m := MFault)
      else s.(sendQueue := s.sendQueue[1..], m := MSending(s.sendQueue[0]))
    case Send => s.(sent := s.sent + [s.m.work], m := MFreeing(s.m.work))
    case Free => s.(freed := s.freed + [s.m.work], m := Next(s))
    case Shutdown => s.(running := false, m := MJoining(AroundOf(s.m)))
    case Join => s.(m := MCleanEncode(s.m.around))
    case CleanEncode =>
      if |s.encodeQueue| == 0 then s.(m := MCleanSend(s.m.around))
      else s.(freed := s.freed + [s.encodeQueue[0]], droppedEncode := s.droppedEncode + [s.encodeQueue[0]],
              encodeQueue := s.encodeQueue[1..])
    case CleanSend =>
      if |s.sendQueue| == 0 then s.(m := Back(s.m.around))
      else s.(freed := s.freed + [s.sendQueue[0]], droppedSend := s.droppedSend + [s.sendQueue[0]],
              sendQueue := s.sendQueue[1..])
    case TestRunning => s.(e := if s.running then EWaiting else EExited)
    case LeaveWait => s.(e := ELeaving)
    case TestShutdown => s.(e := if !s.running && |s.encodeQueue| == 0 then EExited else ETaking)
    case TakeEncode =>
      if |s.encodeQueue| == 0 then s.(e := EFault)
      else s.(encodeQueue := s.encodeQueue[1..], e := EEncoding(s.encodeQueue[0]))
    case Encode => s.(e := EPushing(s.e.item))
    case PushSend => s.(sendQueue := s.sendQueue + [s.e.item], e := ETesting)
  }

  ghost predicate Initial(s: State) {
    && s.encodeQueue == [] && s.sendQueue == [] && s.running && s.e.ETesting? && s.m.MRunning?
    && s.made == [] && s.queued == [] && s.sent == [] && s.freed == []
    && s.droppedEncode == [] && s.droppedSend == [] && s.late == []
  }

  ghost predicate Execution(run: seq<State>, steps: seq<Step>) {
    && |run| == |steps| + 1 && Initial(run[0])
    && forall i | 0 <= i < |steps| :: Enabled(run[i], steps[i]) && run[i + 1] == Do(run[i], steps[i])
  }

  // ---- What every step keeps ----

  function InEncoder(s: State): seq<Work> {
    if s.e.EEncoding? || s.e.EPushing? then [s.e.item] else []
  }

  function Outgoing(s: State): seq<Work> {
    if s.m.MSending? then [s.m.work] else []
  }

  predicate Closing(m: MainPc) {
    m.MJoining? || m.MCleanEncode? || m.MCleanSend?
  }

  /** The encode thread has been joined, and the queues are being emptied or have been. */
  predicate Cleaning(s: State) {
    !s.running && !s.m.MJoining?
  }

  /** The queues have been emptied. */
  predicate Closed(s: State) {
    !s.running && !Closing(s.m)
  }

  /** The item the main thread has in hand. */
  function InHand(m: MainPc): seq<Work> {
    if m.MPushing? || m.MSending? || m.MFreeing? then [m.work]
    else if Closing(m) && m.around.Sending? then [m.around.work]
    else []
  }

  ghost predicate Increasing(l: seq<Work>, bound: nat) {
    && (forall i | 0 <= i < |l| :: l[i].n < bound && l[i].audioSequence == l[i].n % SEQUENCE_LIMIT)
    && (forall i, j | 0 <= i < j < |l| :: l[i].n < l[j].n)
  }

  function Pushing(s: State): seq<Work> {
    if s.m.MPushing? then [s.m.work] else []
  }

  /** Sent, going out, dropped from the send queue, and still in it. */
  function SendSide(s: State): seq<Work> {
    s.sent + Outgoing(s) + s.droppedSend + s.sendQueue
  }

  /** In the encoder, dropped from the encode queue, and still in it. */
  function EncodeSide(s: State): seq<Work> {
    InEncoder(s) + s.droppedEncode + s.encodeQueue
  }

  function Line(s: State): seq<Work> {
    SendSide(s) + EncodeSide(s)
  }

  /** Everything allocated and not yet freed, from the places where it can be. */
  function Together(a: seq<Work>, b: seq<Work>, c: seq<Work>, d: seq<Work>): multiset<Work> {
    multiset(a) + multiset(b) + multiset(c) + multiset(d)
  }

  function Held(s: State): multiset<Work> {
    Together(s.sendQueue, InEncoder(s), s.encodeQueue, InHand(s.m))
  }

  /** How far each thread is, and what that says about the queues. */
  ghost predicate PhaseInv(s: State) {
    && (s.m.MRunning? || s.m.MTaking? || s.m.MSending? ==> s.running)
    && (Closing(s.m) || s.m.MDone? ==> !s.running)
    && (Cleaning(s) ==> s.e.EExited?)
    && (s.m.MCleanSend? ==> s.encodeQueue == [])
    && (Closed(s) ==> s.sendQueue == [])
    // what is made after the shutdown is pushed and stays
    && (Closed(s) ==> s.late == (if s.m.MPushing? then [s.m.work] else s.encodeQueue))
    && (Closed(s) && !s.m.MDone? ==> s.encodeQueue == [])
    && (!Closed(s) ==> s.late == [])
    && (s.droppedEncode != [] || s.droppedSend != [] ==> Cleaning(s))
    && (s.e.EExited? ==> !s.running)
    && (s.e.ELeaving? ==> s.encodeQueue != [] || !s.running)
    && (s.e.ETaking? ==> s.encodeQueue != [])
    && (s.m.MTaking? ==> s.sendQueue != [])
    && !s.e.EFault? && !s.m.MFault?
  }

  ghost predicate OrderInv(s: State) {
    && Increasing(s.made, s.next)
    && s.queued + Pushing(s) == s.made
    && Line(s) == s.queued
  }

  ghost predicate MemoryInv(s: State) {
    multiset(s.made) == multiset(s.freed) + Held(s)
  }

  ghost predicate Inv(s: State) {
    PhaseInv(s) && OrderInv(s) && MemoryInv(s)
  }

  lemma PhasesKept(s: State, e: Step)
    requires PhaseInv(s) && Enabled(s, e)
    ensures PhaseInv(Do(s, e))
  {
  }

  lemma SubmitKeepsOrder(s: State, e: Step)
    requires OrderInv(s) && Enabled(s, e) && (e.Submit? || e.SkipSequence?)
    ensures OrderInv(Do(s, e))
  {
    assert Line(Do(s, e)) == Line(s);
    hide Line;
  }

  lemma PushEncodeKeepsOrder(s: State)
    requires OrderInv(s) && Enabled(s, PushEncode)
    ensures OrderInv(Do(s, PushEncode))
  {
    hide Increasing;
    var r := Do(s, PushEncode);
    assert EncodeSide(r) == EncodeSide(s) + [s.m.work];
    assert SendSide(r) == SendSide(s);
    assert Line(r) == Line(s) + [s.m.work];
    hide Line;
  }

  lemma FrontMoves(a: seq<Work>, q: seq<Work>)
    requires |q| > 0
    ensures a + [q[0]] + q[1..] == a + q
  {
  }

  lemma TakeSendKeepsSide(s: State)
    requires PhaseInv(s) && Enabled(s, TakeSend)
    ensures SendSide(Do(s, TakeSend)) == SendSide(s)
  {
    FrontMoves(s.sent, s.sendQueue);
  }

  lemma TakeEncodeKeepsSide(s: State)
    requires PhaseInv(s) && Enabled(s, TakeEncode)
    ensures EncodeSide(Do(s, TakeEncode)) == EncodeSide(s)
  {
    FrontMoves([], s.encodeQueue);
  }

  lemma CleanSendKeepsSide(s: State)
    requires Enabled(s, CleanSend)
    ensures SendSide(Do(s, CleanSend)) == SendSide(s)
  {
    if |s.sendQueue| > 0 {
      FrontMoves(s.sent + s.droppedSend, s.sendQueue);
    }
  }

  lemma CleanEncodeKeepsSide(s: State)
    requires PhaseInv(s) && Enabled(s, CleanEncode)
    ensures EncodeSide(Do(s, CleanEncode)) == EncodeSide(s)
  {
    if |s.encodeQueue| > 0 {
      FrontMoves(s.droppedEncode, s.encodeQueue);
    }
  }

  lemma SendSideStays(s: State, e: Step)
    requires Enabled(s, e) && !e.TakeSend? && !e.CleanSend? && !e.PushSend?
    ensures SendSide(Do(s, e)) == SendSide(s)
  {
    hide InEncoder;
  }

  lemma EncodeSideStays(s: State, e: Step)
    requires Enabled(s, e) && !e.TakeEncode? && !e.CleanEncode? && !e.PushEncode? && !e.PushSend?
    ensures EncodeSide(Do(s, e)) == EncodeSide(s)
  {
    hide Outgoing;
  }

  /** All steps but the pushes leave each side of the line as it is. */
  lemma SidesKept(s: State, e: Step)
    requires PhaseInv(s) && Enabled(s, e) && !e.PushEncode? && !e.PushSend?
    ensures SendSide(Do(s, e)) == SendSide(s) && EncodeSide(Do(s, e)) == EncodeSide(s)
  {
    hide PhaseInv;
    hide Do;
    hide Enabled;
    hide SendSide;
    hide EncodeSide;
    match e
    case TakeSend => TakeSendKeepsSide(s); EncodeSideStays(s, e);
    case CleanSend => CleanSendKeepsSide(s); EncodeSideStays(s, e);
    case TakeEncode => TakeEncodeKeepsSide(s); SendSideStays(s, e);
    case CleanEncode => CleanEncodeKeepsSide(s); SendSideStays(s, e);
    case _ => SendSideStays(s, e); EncodeSideStays(s, e);
  }

  lemma Across(a: seq<Work>, q: seq<Work>, w: Work, b: seq<Work>)
    ensures a + (q + [w]) + b == a + q + ([w] + b)
  {
  }

  /** The encoder hands its item on: from the front of one side to the end of the other. */
  lemma HandingOnKeepsLine(s: State)
    requires PhaseInv(s) && Enabled(s, PushSend)
    ensures Line(Do(s, PushSend)) == Line(s)
  {
    var b := s.droppedEncode + s.encodeQueue;
    Across(s.sent + Outgoing(s) + s.droppedSend, s.sendQueue, s.e.item, b);
    assert EncodeSide(s) == [s.e.item] + b;
    assert [] + s.droppedEncode + s.encodeQueue == b;
  }

  lemma RecordsStay(s: State, e: Step)
    requires Enabled(s, e) && !e.Submit? && !e.PushEncode? && !e.SkipSequence?
    ensures var r := Do(s, e);
            r.made == s.made && r.queued == s.queued && r.next == s.next && Pushing(r) == Pushing(s)
  {
  }

  lemma OtherStepKeepsOrder(s: State, e: Step)
    requires PhaseInv(s) && OrderInv(s) && Enabled(s, e)
    requires !e.Submit? && !e.PushEncode? && !e.SkipSequence?
    ensures OrderInv(Do(s, e))
  {
    hide PhaseInv;
    hide Do;
    hide Increasing;
    hide SendSide;
    hide EncodeSide;
    hide Pushing;
    if e.PushSend? {
      HandingOnKeepsLine(s);
    } else {
      SidesKept(s, e);
    }
    RecordsStay(s, e);
  }

  // ---- Memory ----

  /** One more item in one of the places is one more item in all. */
  lemma OneMore(a: seq<Work>, b: seq<Work>, c: seq<Work>, d: seq<Work>, w: Work)
    ensures Together(a + [w], b, c, d) == Together(a, b, c, d) + multiset([w])
    ensures Together(a, b, c + [w], d) == Together(a, b, c, d) + multiset([w])
  {
  }

  lemma OneMoreInFront(a: seq<Work>, b: seq<Work>, c: seq<Work>, d: seq<Work>, w: Work)
    ensures Together([w] + a, b, c, d) == Together(a, b, c, d) + multiset([w])
    ensures Together(a, b, [w] + c, d) == Together(a, b, c, d) + multiset([w])
  {
  }

  lemma OneAlone(a: seq<Work>, b: seq<Work>, c: seq<Work>, d: seq<Work>, w: Work)
    ensures Together(a, [w], c, d) == Together(a, [], c, d) + multiset([w])
    ensures Together(a, b, c, [w]) == Together(a, b, c, []) + multiset([w])
  {
  }

  lemma PushKeepsItems(q: seq<Work>, w: Work)
    ensures multiset(q + [w]) == multiset(q) + multiset([w])
  {
  }

  /** These steps move no item. */
  predicate Quiet(e: Step) {
    e.Shutdown? || e.Join? || e.TestRunning? || e.Encode? || e.LookSend? || e.LeaveWait? || e.TestShutdown?
    || e.BeginEvent? || e.EndEvent? || e.SkipSequence? || e.Send?
  }

  lemma QuietPlaces(s: State, e: Step)
    requires Enabled(s, e) && Quiet(e)
    ensures var r := Do(s, e);
            && r.sendQueue == s.sendQueue && InEncoder(r) == InEncoder(s) && r.encodeQueue == s.encodeQueue
            && InHand(r.m) == InHand(s.m) && r.made == s.made && r.freed == s.freed
  {
  }

  lemma QuietKeepsMemory(s: State, e: Step)
    requires MemoryInv(s) && Enabled(s, e) && Quiet(e)
    ensures MemoryInv(Do(s, e))
  {
    hide MemoryInv;
    hide Together;
    QuietPlaces(s, e);
    SameHeld(s, Do(s, e));
  }

  /** An item goes from the main thread's hand to the end of the encode queue. */
  lemma PushEncodeKeepsMemory(s: State)
    requires MemoryInv(s) && Enabled(s, PushEncode)
    ensures MemoryInv(Do(s, PushEncode))
  {
    hide MemoryInv;
    hide Together;
    var r, w := Do(s, PushEncode), s.m.work;
    assert r.sendQueue == s.sendQueue && InEncoder(r) == InEncoder(s) && r.encodeQueue == s.encodeQueue + [w];
    assert InHand(s.m) == [w] && InHand(r.m) == [] && r.made == s.made && r.freed == s.freed;
    OneMore(s.sendQueue, InEncoder(s), s.encodeQueue, [], w);
    OneAlone(s.sendQueue, InEncoder(s), s.encodeQueue, [], w);
    SameHeld(s, r);
  }

  /** From the encoder to the end of the send queue. */
  lemma PushSendKeepsMemory(s: State)
    requires MemoryInv(s) && Enabled(s, PushSend)
    ensures MemoryInv(Do(s, PushSend))
  {
    hide MemoryInv;
    hide Together;
    var r, w := Do(s, PushSend), s.e.item;
    assert r.encodeQueue == s.encodeQueue && InHand(r.m) == InHand(s.m) && r.sendQueue == s.sendQueue + [w];
    assert InEncoder(s) == [w] && InEncoder(r) == [] && r.made == s.made && r.freed == s.freed;
    OneMore(s.sendQueue, [], s.encodeQueue, InHand(s.m), w);
    OneAlone(s.sendQueue, [], s.encodeQueue, InHand(s.m), w);
    SameHeld(s, r);
  }

  /** From the front of the send queue into the main thread's hand. */
  lemma TakeSendKeepsMemory(s: State)
    requires MemoryInv(s) && Enabled(s, TakeSend) && |s.sendQueue| > 0
    ensures MemoryInv(Do(s, TakeSend))
  {
    hide MemoryInv;
    hide Together;
    var r, w, q := Do(s, TakeSend), s.sendQueue[0], s.sendQueue[1..];
    assert r.encodeQueue == s.encodeQueue && InEncoder(r) == InEncoder(s) && r.sendQueue == q && s.sendQueue == [w] + q;
    assert InHand(s.m) == [] && InHand(r.m) == [w] && r.made == s.made && r.freed == s.freed;
    OneMoreInFront(q, InEncoder(s), s.encodeQueue, [], w);
    OneAlone(q, InEncoder(s), s.encodeQueue, [], w);
    SameHeld(s, r);
  }

  /** From the front of the encode queue into the encoder. */
  lemma TakeEncodeKeepsMemory(s: State)
    requires MemoryInv(s) && Enabled(s, TakeEncode) && |s.encodeQueue| > 0
    ensures MemoryInv(Do(s, TakeEncode))
  {
    hide MemoryInv;
    hide Together;
    var r, w, q := Do(s, TakeEncode), s.encodeQueue[0], s.encodeQueue[1..];
    assert r.sendQueue == s.sendQueue && InHand(r.m) == InHand(s.m) && r.encodeQueue == q && s.encodeQueue == [w] + q;
    assert InEncoder(s) == [] && InEncoder(r) == [w] && r.made == s.made && r.freed == s.freed;
    OneMoreInFront(s.sendQueue, [], q, InHand(s.m), w);
    OneAlone(s.sendQueue, [], q, InHand(s.m), w);
    SameHeld(s, r);
  }

  lemma SameHeld(s: State, r: State)
    requires MemoryInv(s) && r.made == s.made && r.freed == s.freed
    requires Together(r.sendQueue, InEncoder(r), r.encodeQueue, InHand(r.m))
             == Together(s.sendQueue, InEncoder(s), s.encodeQueue, InHand(s.m))
    ensures MemoryInv(r)
  {
    hide Together;
    hide InEncoder;
    hide InHand;
  }

  lemma MadeOne(s: State, r: State, w: Work)
    requires MemoryInv(s) && r.made == s.made + [w] && r.freed == s.freed
    requires Together(r.sendQueue, InEncoder(r), r.encodeQueue, InHand(r.m))
             == Together(s.sendQueue, InEncoder(s), s.encodeQueue, InHand(s.m)) + multiset([w])
    ensures MemoryInv(r)
  {
    PushKeepsItems(s.made, w);
    hide Together;
    hide InEncoder;
    hide InHand;
  }

  lemma FreedOne(s: State, r: State, w: Work)
    requires MemoryInv(s) && r.made == s.made && r.freed == s.freed + [w]
    requires Together(s.sendQueue, InEncoder(s), s.encodeQueue, InHand(s.m))
             == Together(r.sendQueue, InEncoder(r), r.encodeQueue, InHand(r.m)) + multiset([w])
    ensures MemoryInv(r)
  {
    PushKeepsItems(s.freed, w);
    hide Together;
    hide InEncoder;
    hide InHand;
  }

  lemma SubmitKeepsMemory(s: State)
    requires MemoryInv(s) && Enabled(s, Submit)
    ensures MemoryInv(Do(s, Submit))
  {
    hide MemoryInv;
    hide Together;
    var r := Do(s, Submit);
    var w := r.m.work;
    assert r.sendQueue == s.sendQueue && InEncoder(r) == InEncoder(s) && r.encodeQueue == s.encodeQueue;
    assert InHand(s.m) == [] && InHand(r.m) == [w] && r.made == s.made + [w] && r.freed == s.freed;
    OneAlone(s.sendQueue, InEncoder(s), s.encodeQueue, [], w);
    MadeOne(s, r, w);
  }

  lemma FreeKeepsMemory(s: State)
    requires MemoryInv(s) && Enabled(s, Free)
    ensures MemoryInv(Do(s, Free))
  {
    hide MemoryInv;
    hide Together;
    var r, w := Do(s, Free), s.m.work;
    assert r.sendQueue == s.sendQueue && InEncoder(r) == InEncoder(s) && r.encodeQueue == s.encodeQueue;
    assert InHand(s.m) == [w] && InHand(r.m) == [] && r.made == s.made && r.freed == s.freed + [w];
    OneAlone(s.sendQueue, InEncoder(s), s.encodeQueue, [], w);
    FreedOne(s, r, w);
  }

  lemma CleanEncodeKeepsMemory(s: State)
    requires MemoryInv(s) && Enabled(s, CleanEncode)
    ensures MemoryInv(Do(s, CleanEncode))
  {
    hide MemoryInv;
    hide Together;
    var r := Do(s, CleanEncode);
    assert r.sendQueue == s.sendQueue && InEncoder(r) == InEncoder(s) && InHand(r.m) == InHand(s.m) && r.made == s.made;
    if |s.encodeQueue| > 0 {
      var w, q := s.encodeQueue[0], s.encodeQueue[1..];
      assert r.encodeQueue == q && s.encodeQueue == [w] + q && r.freed == s.freed + [w];
      OneMoreInFront(s.sendQueue, InEncoder(s), q, InHand(s.m), w);
      FreedOne(s, r, w);
    } else {
      assert r.encodeQueue == s.encodeQueue && r.freed == s.freed;
      SameHeld(s, r);
    }
  }

  lemma CleanSendKeepsMemory(s: State)
    requires MemoryInv(s) && Enabled(s, CleanSend)
    ensures MemoryInv(Do(s, CleanSend))
  {
    hide MemoryInv;
    hide Together;
    var r := Do(s, CleanSend);
    assert r.encodeQueue == s.encodeQueue && InEncoder(r) == InEncoder(s);
    assert InHand(r.m) == InHand(s.m) && r.made == s.made;
    if |s.sendQueue| > 0 {
      var w, q := s.sendQueue[0], s.sendQueue[1..];
      assert r.sendQueue == q && s.sendQueue == [w] + q && r.freed == s.freed + [w];
      OneMoreInFront(q, InEncoder(s), s.encodeQueue, InHand(s.m), w);
      FreedOne(s, r, w);
    } else {
      assert r.sendQueue == s.sendQueue && r.freed == s.freed;
      SameHeld(s, r);
    }
  }

  lemma StepKeepsInv(s: State, e: Step)
    requires Inv(s) && Enabled(s, e)
    ensures Inv(Do(s, e))
  {
    hide PhaseInv;
    hide OrderInv;
    hide MemoryInv;
    hide Do;
    PhasesKept(s, e);
    if e.PushEncode? {
      PushEncodeKeepsOrder(s);
    } else if e.Submit? || e.SkipSequence? {
      SubmitKeepsOrder(s, e);
    } else {
      OtherStepKeepsOrder(s, e);
    }
    TakesSomething(s, e);
    match e
    case Submit => SubmitKeepsMemory(s);
    case PushEncode => PushEncodeKeepsMemory(s);
    case TakeSend => TakeSendKeepsMemory(s);
    case Free => FreeKeepsMemory(s);
    case CleanEncode => CleanEncodeKeepsMemory(s);
    case CleanSend => CleanSendKeepsMemory(s);
    case TakeEncode => TakeEncodeKeepsMemory(s);
    case PushSend => PushSendKeepsMemory(s);
    case _ => QuietKeepsMemory(s, e);
  }

  lemma TakesSomething(s: State, e: Step)
    requires PhaseInv(s) && Enabled(s, e)
    ensures e.TakeSend? ==> |s.sendQueue| > 0
    ensures e.TakeEncode? ==> |s.encodeQueue| > 0
  {
  }

  lemma {:induction false} ExecutionKeepsInv(run: seq<State>, steps: seq<Step>, n: nat)
    requires Execution(run, steps) && n < |run|
    ensures Inv(run[n])
  {
    if n > 0 {
      ExecutionKeepsInv(run, steps, n - 1);
      hide Inv;
      StepKeepsInv(run[n - 1], steps[n - 1]);
    }
  }

  // ---- What the pipeline promises ----

  /**
   * At every moment, through shutdown, all that was queued is accounted for, in order of the
   * sequence: sent, going out, dropped from the send queue or still in it, in the encoder,
   * dropped from the encode queue or still in it. Nothing is dropped before the encode thread
   * has been joined. Neither thread, having looked, finds the queue empty that it takes from.
   */
  lemma OrderIsKept(run: seq<State>, steps: seq<Step>, n: nat)
    requires Execution(run, steps) && n < |run|
    ensures var s := run[n];
            && s.queued == s.sent + Outgoing(s) + s.droppedSend + s.sendQueue
                           + (InEncoder(s) + s.droppedEncode + s.encodeQueue)
            && (s.droppedSend != [] || s.droppedEncode != [] ==> Cleaning(s))
            && (s.m.MDone? ==> s.queued == s.sent + s.droppedSend + s.droppedEncode + s.late)
            && Increasing(s.queued, s.next)
            && !s.e.EFault? && !s.m.MFault?
  {
    ExecutionKeepsInv(run, steps, n);
    var s := run[n];
    hide MemoryInv;
    assert s.queued <= s.made;
    assert forall i | 0 <= i < |s.queued| :: s.queued[i] == s.made[i];
    if s.m.MDone? {
      assert Line(s) == s.sent + s.droppedSend + s.droppedEncode + s.late;
    }
  }

  /** Nothing is freed twice, nothing held is freed, and at the end only what was made late is left. */
  lemma FreedExactlyOnce(run: seq<State>, steps: seq<Step>, n: nat)
    requires Execution(run, steps) && n < |run|
    ensures var s := run[n];
            && (forall w :: multiset(s.freed)[w] + Held(s)[w] == (if w in s.made then 1 else 0))
            && (s.m.MDone? ==> multiset(s.made) == multiset(s.freed) + multiset(s.late))
  {
    ExecutionKeepsInv(run, steps, n);
    var s := run[n];
    hide Held;
    forall w
      ensures multiset(s.made)[w] == if w in s.made then 1 else 0
    {
      DistinctCount(s.made, s.next, w);
    }
    assert forall w :: multiset(s.freed)[w] + Held(s)[w] == multiset(s.made)[w];
    if s.m.MDone? {
      OnlyLateIsHeld(s);
    }
  }

  lemma OnlyLateIsHeld(s: State)
    requires PhaseInv(s) && s.m.MDone?
    ensures Held(s) == multiset(s.late)
  {
  }

  // ---- What is made after the shutdown ----

  /** An audio event that goes on to encode although a hook has disconnected meanwhile. */
  predicate SubmitsLate(s: State, e: Step) {
    e.Submit? && !s.running
  }

  lemma LateGrows(s: State, e: Step)
    requires Enabled(s, e)
    ensures |Do(s, e).late| == |s.late| + if SubmitsLate(s, e) then 1 else 0
  {
  }

  lemma {:induction false} LateIff(run: seq<State>, steps: seq<Step>, n: nat)
    requires Execution(run, steps) && n < |run|
    ensures run[n].late == [] <==> forall i | 0 <= i < n :: !SubmitsLate(run[i], steps[i])
  {
    if n > 0 {
      LateIff(run, steps, n - 1);
      LateGrows(run[n - 1], steps[n - 1]);
      hide SubmitsLate;
    }
  }

  /**
   * When all is over, every item has been freed if and only if none was submitted after the
   * shutdown, by an audio event whose hook disconnected.
   */
  lemma AllFreedIff(run: seq<State>, steps: seq<Step>, n: nat)
    requires Execution(run, steps) && n < |run| && run[n].m.MDone?
    ensures multiset(run[n].freed) == multiset(run[n].made)
            <==> forall i | 0 <= i < n :: !SubmitsLate(run[i], steps[i])
  {
    FreedExactlyOnce(run, steps, n);
    LateIff(run, steps, n);
    hide SubmitsLate;
    SumIsSame(multiset(run[n].freed), run[n].late);
  }

  lemma SumIsSame(m: multiset<Work>, l: seq<Work>)
    ensures m == m + multiset(l) <==> l == []
  {
    assert |m + multiset(l)| == |m| + |l|;
  }

  lemma HookDisconnects(s: State, s1: State, s2: State, s3: State)
    requires Initial(s) && s1 == s.(m := MHooking)
    requires s2 == s1.(running := false, m := MJoining(Encoding)) && s3 == s2.(e := EExited)
    ensures Enabled(s, BeginEvent) && Do(s, BeginEvent) == s1
    ensures Enabled(s1, Shutdown) && Do(s1, Shutdown) == s2
    ensures Enabled(s2, TestRunning) && Do(s2, TestRunning) == s3
  {
  }

  lemma EmptyQueuesClose(s: State, s1: State, s2: State, s3: State)
    requires s.m == MJoining(Encoding) && s.e.EExited? && s.encodeQueue == [] && s.sendQueue == []
    requires s1 == s.(m := MCleanEncode(Encoding)) && s2 == s.(m := MCleanSend(Encoding)) && s3 == s.(m := MHooking)
    ensures Enabled(s, Join) && Do(s, Join) == s1
    ensures Enabled(s1, CleanEncode) && Do(s1, CleanEncode) == s2
    ensures Enabled(s2, CleanSend) && Do(s2, CleanSend) == s3
  {
  }

  lemma EventGoesOn(s: State, s1: State, s2: State, w: Work)
    requires s.m.MHooking? && !s.running && w == Work(s.next, s.next % SEQUENCE_LIMIT)
    requires s1 == s.(next := s.next + 1, made := s.made + [w], m := MPushing(w), late := s.late + [w])
    requires s2 == s1.(encodeQueue := s.encodeQueue + [w], queued := s.queued + [w], m := MDone)
    ensures Enabled(s, Submit) && Do(s, Submit) == s1
    ensures Enabled(s1, PushEncode) && Do(s1, PushEncode) == s2
  {
  }

  /** Such a run: the hook disconnects, and the event it was called from still encodes. */
  lemma LateItemStays(s: State) returns (run: seq<State>, steps: seq<Step>)
    requires Initial(s) && s.next == 0
    ensures Execution(run, steps) && run[0] == s
    ensures var r := run[|steps|];
            r.m.MDone? && r.made == [Work(0, 0)] && r.freed == [] && r.encodeQueue == [Work(0, 0)]
  {
    var w := Work(0, 0);
    var s1 := s.(m := MHooking);
    var s2 := s1.(running := false, m := MJoining(Encoding));
    var s3 := s2.(e := EExited);
    var s4, s5, s6 := s3.(m := MCleanEncode(Encoding)), s3.(m := MCleanSend(Encoding)), s3.(m := MHooking);
    var s7 := s6.(next := 1, made := [w], m := MPushing(w), late := [w]);
    var s8 := s7.(encodeQueue := [w], queued := [w], m := MDone);
    HookDisconnects(s, s1, s2, s3);
    EmptyQueuesClose(s3, s4, s5, s6);
    EventGoesOn(s6, s7, s8, w);
    hide Do;
    hide Enabled;
    run := [s, s1, s2, s3, s4, s5, s6, s7, s8];
    steps := [BeginEvent, Shutdown, TestRunning, Join, CleanEncode, CleanSend, Submit, PushEncode];
  }

  lemma {:induction false} DistinctCount(l: seq<Work>, bound: nat, w: Work)
    requires Increasing(l, bound)
    ensures multiset(l)[w] == if w in l then 1 else 0
  {
    if |l| > 0 {
      var p, last := l[..|l| - 1], l[|l| - 1];
      assert l == p + [last];
      DistinctCount(p, bound, w);
      assert forall i | 0 <= i < |p| :: p[i].n < last.n;
    }
  }
}
