/**
 * Where the steps of the encode pipeline lead: that what waits is encoded and sent, that a
 * running client can always catch up, and that a shutdown always comes to its end.
 */
module PipelineRuns {
  import opened Pipeline

  // ---- Sequences of steps ----

  predicate Feasible(s: State, steps: seq<Step>)
    decreases |steps|
  {
    |steps| == 0 || (Enabled(s, steps[0]) && Feasible(Do(s, steps[0]), steps[1..]))
  }

  function End(s: State, steps: seq<Step>): State
    requires Feasible(s, steps)
    decreases |steps|
  {
    if |steps| == 0 then s else End(Do(s, steps[0]), steps[1..])
  }

  /** The steps can be taken from `s`, one after the other, and end in `r`. */
  predicate Leads(s: State, steps: seq<Step>, r: State) {
    Feasible(s, steps) && End(s, steps) == r
  }

  lemma {:induction false} LeadsOn(s: State, a: seq<Step>, r: State, b: seq<Step>, t: State)
    requires Leads(s, a, r) && Leads(r, b, t)
    ensures Leads(s, a + b, t)
    decreases |a|
  {
    hide Enabled;
    hide Do;
    if |a| == 0 {
      assert a + b == b;
    } else {
      LeadsOn(Do(s, a[0]), a[1..], r, b, t);
      assert (a + b)[0] == a[0] && (a + b)[1..] == a[1..] + b;
    }
  }

  lemma FirstStep(s: State, e: Step, r: State, steps: seq<Step>, t: State)
    requires Enabled(s, e) && Do(s, e) == r && Leads(r, steps, t)
    ensures Leads(s, [e] + steps, t)
  {
    hide Enabled;
    hide Do;
    assert ([e] + steps)[0] == e && ([e] + steps)[1..] == steps;
  }

  lemma NoStep(s: State)
    ensures Leads(s, [], s)
  {
  }

  lemma OneStep(s: State, e: Step, r: State)
    requires Enabled(s, e) && Do(s, e) == r
    ensures Leads(s, [e], r)
  {
    hide Enabled;
    hide Do;
    NoStep(r);
    FirstStep(s, e, r, [], r);
    assert [e] + [] == [e];
  }

  lemma {:induction false} StepsKeepInv(s: State, steps: seq<Step>, r: State)
    requires Inv(s) && Leads(s, steps, r)
    ensures Inv(r)
    decreases |steps|
  {
    hide Enabled;
    hide Do;
    hide Inv;
    if |steps| > 0 {
      StepKeepsInv(s, steps[0]);
      StepsKeepInv(Do(s, steps[0]), steps[1..], r);
    }
  }

  // ---- The main thread sends ----

  /** The send event takes the front of the queue, sends it and frees it, and changes nothing else. */
  lemma ItemIsSent(s: State)
    requires s.m.MRunning? && s.running && s.sendQueue != []
    ensures var w := s.sendQueue[0];
            Leads(s, [LookSend, TakeSend, Send, Free],
                  s.(sendQueue := s.sendQueue[1..], sent := s.sent + [w], freed := s.freed + [w]))
  {
    var w := s.sendQueue[0];
    var s1 := s.(m := MTaking);
    var s2 := s1.(sendQueue := s.sendQueue[1..], m := MSending(w));
    var s3 := s2.(sent := s.sent + [w], m := MFreeing(w));
    var r := s3.(freed := s.freed + [w], m := MRunning);
    assert Do(s, LookSend) == s1 && Do(s1, TakeSend) == s2 && Do(s2, Send) == s3 && Do(s3, Free) == r;
    hide Do;
    OneStep(s3, Free, r);
    FirstStep(s2, Send, s3, [Free], r);
    FirstStep(s1, TakeSend, s2, [Send] + [Free], r);
    FirstStep(s, LookSend, s1, [TakeSend] + ([Send] + [Free]), r);
    assert [LookSend] + ([TakeSend] + ([Send] + [Free])) == [LookSend, TakeSend, Send, Free];
  }

  /** An event that is encoded puts the next number at the end of the encode queue. */
  lemma ItemIsSubmitted(s: State)
    requires s.m.MRunning? && s.running
    ensures var w := Work(s.next, s.next % 0x1_0000_0000);
            Leads(s, [BeginEvent, Submit, PushEncode],
                  s.(next := s.next + 1, made := s.made + [w], queued := s.queued + [w],
                     encodeQueue := s.encodeQueue + [w]))
  {
    var w := Work(s.next, s.next % 0x1_0000_0000);
    var s1 := s.(m := MHooking);
    var s2 := s1.(next := s.next + 1, made := s.made + [w], m := MPushing(w));
    var r := s2.(queued := s.queued + [w], encodeQueue := s.encodeQueue + [w], m := MRunning);
    assert Do(s, BeginEvent) == s1 && Do(s1, Submit) == s2 && Do(s2, PushEncode) == r;
    hide Do;
    OneStep(s2, PushEncode, r);
    FirstStep(s1, Submit, s2, [PushEncode], r);
    FirstStep(s, BeginEvent, s1, [Submit] + [PushEncode], r);
    assert [BeginEvent] + ([Submit] + [PushEncode]) == [BeginEvent, Submit, PushEncode];
  }

  /** A transmission from a hook takes one number out of the sequence: the next item has the one after. */
  lemma NumberIsSkipped(s: State)
    requires s.m.MRunning? && s.running
    ensures var w := Work(s.next + 1, (s.next + 1) % 0x1_0000_0000);
            Leads(s, [SkipSequence, BeginEvent, Submit, PushEncode],
                  s.(next := s.next + 2, made := s.made + [w], queued := s.queued + [w],
                     encodeQueue := s.encodeQueue + [w]))
  {
    var w, t := Work(s.next + 1, (s.next + 1) % 0x1_0000_0000), s.(next := s.next + 1);
    assert Do(s, SkipSequence) == t;
    ItemIsSubmitted(t);
    hide Leads;
    FirstStep(s, SkipSequence, t, [BeginEvent, Submit, PushEncode],
              s.(next := s.next + 2, made := s.made + [w], queued := s.queued + [w],
                 encodeQueue := s.encodeQueue + [w]));
    assert [SkipSequence] + [BeginEvent, Submit, PushEncode] == [SkipSequence, BeginEvent, Submit, PushEncode];
  }

  lemma {:induction false} QueueIsSent(s: State) returns (steps: seq<Step>)
    requires s.m.MRunning? && s.running
    ensures Leads(s, steps, s.(sendQueue := [], sent := s.sent + s.sendQueue, freed := s.freed + s.sendQueue))
    decreases |s.sendQueue|
  {
    hide Leads;
    var r := s.(sendQueue := [], sent := s.sent + s.sendQueue, freed := s.freed + s.sendQueue);
    if s.sendQueue == [] {
      NoStep(s);
      assert r == s;
      steps := [];
    } else {
      var w, q := s.sendQueue[0], s.sendQueue[1..];
      ItemIsSent(s);
      var t := s.(sendQueue := q, sent := s.sent + [w], freed := s.freed + [w]);
      var rest := QueueIsSent(t);
      assert s.sent + [w] + q == s.sent + s.sendQueue && s.freed + [w] + q == s.freed + s.sendQueue;
      steps := [LookSend, TakeSend, Send, Free] + rest;
      LeadsOn(s, [LookSend, TakeSend, Send, Free], t, rest, r);
    }
  }

  // ---- The encode thread hands on ----

  lemma ItemIsHandedOn(s: State)
    requires s.e.EEncoding?
    ensures Leads(s, [Encode, PushSend], s.(e := ETesting, sendQueue := s.sendQueue + [s.e.item]))
  {
    var s1 := s.(e := EPushing(s.e.item));
    var r := s.(e := ETesting, sendQueue := s.sendQueue + [s.e.item]);
    assert Do(s, Encode) == s1 && Do(s1, PushSend) == r;
    hide Do;
    OneStep(s1, PushSend, r);
    FirstStep(s, Encode, s1, [PushSend], r);
    assert [Encode] + [PushSend] == [Encode, PushSend];
  }

  lemma FrontIsHandedOn(s: State)
    requires s.e.ETaking? && s.encodeQueue != []
    ensures Leads(s, [TakeEncode, Encode, PushSend],
                  s.(e := ETesting, encodeQueue := s.encodeQueue[1..], sendQueue := s.sendQueue + [s.encodeQueue[0]]))
  {
    var w := s.encodeQueue[0];
    var s1 := s.(e := EEncoding(w), encodeQueue := s.encodeQueue[1..]);
    var r := s1.(e := ETesting, sendQueue := s.sendQueue + [w]);
    assert Do(s, TakeEncode) == s1;
    ItemIsHandedOn(s1);
    hide Leads;
    FirstStep(s, TakeEncode, s1, [Encode, PushSend], r);
    assert [TakeEncode] + [Encode, PushSend] == [TakeEncode, Encode, PushSend];
  }

  lemma FrontIsTaken(s: State)
    requires s.e.ELeaving? && s.encodeQueue != []
    ensures Leads(s, [TestShutdown, TakeEncode, Encode, PushSend],
                  s.(e := ETesting, encodeQueue := s.encodeQueue[1..], sendQueue := s.sendQueue + [s.encodeQueue[0]]))
  {
    var s1, w := s.(e := ETaking), s.encodeQueue[0];
    var r := s.(e := ETesting, encodeQueue := s.encodeQueue[1..], sendQueue := s.sendQueue + [w]);
    assert Do(s, TestShutdown) == s1;
    FrontIsHandedOn(s1);
    hide Leads;
    FirstStep(s, TestShutdown, s1, [TakeEncode, Encode, PushSend], r);
    assert [TestShutdown] + [TakeEncode, Encode, PushSend] == [TestShutdown, TakeEncode, Encode, PushSend];
  }

  /** While there is work, the waiting encoder moves the front to the end of the send queue. */
  lemma ItemIsEncoded(s: State)
    requires s.e.EWaiting? && s.encodeQueue != []
    ensures Leads(s, [LeaveWait, TestShutdown, TakeEncode, Encode, PushSend],
                  s.(e := ETesting, encodeQueue := s.encodeQueue[1..], sendQueue := s.sendQueue + [s.encodeQueue[0]]))
  {
    var s1, w := s.(e := ELeaving), s.encodeQueue[0];
    var r := s.(e := ETesting, encodeQueue := s.encodeQueue[1..], sendQueue := s.sendQueue + [w]);
    assert Do(s, LeaveWait) == s1;
    FrontIsTaken(s1);
    hide Leads;
    FirstStep(s, LeaveWait, s1, [TestShutdown, TakeEncode, Encode, PushSend], r);
    assert [LeaveWait] + [TestShutdown, TakeEncode, Encode, PushSend]
        == [LeaveWait, TestShutdown, TakeEncode, Encode, PushSend];
  }

  /** Only the encoder and the two queues it stands between differ. */
  predicate OnlyEncoder(s: State, r: State) {
    r == s.(e := r.e, encodeQueue := r.encodeQueue, sendQueue := r.sendQueue)
  }

  /** The items from the send queue through the encoder to the encode queue, in their order. */
  function Through(s: State): seq<Work> {
    s.sendQueue + InEncoder(s) + s.encodeQueue
  }

  lemma FrontThrough(q: seq<Work>, p: seq<Work>)
    requires |p| > 0
    ensures q + [p[0]] + [] + p[1..] == q + [] + p
  {
  }

  lemma ItemThrough(q: seq<Work>, w: Work, p: seq<Work>)
    ensures (q + [w]) + [] + p == q + [w] + p
  {
  }

  /** From wherever it is, the encoder comes back to its first test, with every item in its place. */
  lemma EncoderReturns(s: State) returns (steps: seq<Step>, r: State)
    requires PhaseInv(s) && !s.e.EExited? && !s.e.EWaiting? && (s.e.ELeaving? ==> s.encodeQueue != [])
    ensures Leads(s, steps, r) && OnlyEncoder(s, r) && r.e.ETesting? && Through(r) == Through(s)
    ensures |r.encodeQueue| + 1 >= |s.encodeQueue|
  {
    var moved := s.(e := ETesting);
    if s.encodeQueue != [] {
      moved := s.(e := ETesting, encodeQueue := s.encodeQueue[1..], sendQueue := s.sendQueue + [s.encodeQueue[0]]);
      FrontThrough(s.sendQueue, s.encodeQueue);
    }
    match s.e
    case ETesting =>
      NoStep(s);
      steps, r := [], s;
    case ELeaving =>
      FrontIsTaken(s);
      steps, r := [TestShutdown, TakeEncode, Encode, PushSend], moved;
    case ETaking =>
      FrontIsHandedOn(s);
      steps, r := [TakeEncode, Encode, PushSend], moved;
    case EEncoding(w) =>
      ItemIsHandedOn(s);
      ItemThrough(s.sendQueue, w, s.encodeQueue);
      steps, r := [Encode, PushSend], s.(e := ETesting, sendQueue := s.sendQueue + [w]);
    case EPushing(w) =>
      ItemThrough(s.sendQueue, w, s.encodeQueue);
      r := s.(e := ETesting, sendQueue := s.sendQueue + [w]);
      OneStep(s, PushSend, r);
      steps := [PushSend];
  }

  lemma EncoderWaits(s: State)
    requires s.e.ETesting? && s.running
    ensures Leads(s, [TestRunning], s.(e := EWaiting))
  {
    OneStep(s, TestRunning, s.(e := EWaiting));
  }

  /** While the client runs, the encoder alone empties the encode queue into the send queue. */
  lemma {:induction false} EncodeQueueDrains(s: State) returns (steps: seq<Step>)
    requires s.e.EWaiting? && s.running
    ensures Leads(s, steps, s.(encodeQueue := [], sendQueue := s.sendQueue + s.encodeQueue))
    decreases |s.encodeQueue|
  {
    hide Leads;
    var r := s.(encodeQueue := [], sendQueue := s.sendQueue + s.encodeQueue);
    if s.encodeQueue == [] {
      NoStep(s);
      assert r == s;
      steps := [];
    } else {
      var w, q := s.encodeQueue[0], s.encodeQueue[1..];
      var t := s.(e := ETesting, encodeQueue := q, sendQueue := s.sendQueue + [w]);
      ItemIsEncoded(s);
      EncoderWaits(t);
      var u := t.(e := EWaiting);
      var rest := EncodeQueueDrains(u);
      assert s.sendQueue + [w] + q == s.sendQueue + s.encodeQueue;
      LeadsOn(t, [TestRunning], u, rest, r);
      steps := [LeaveWait, TestShutdown, TakeEncode, Encode, PushSend] + ([TestRunning] + rest);
      LeadsOn(s, [LeaveWait, TestShutdown, TakeEncode, Encode, PushSend], t, [TestRunning] + rest, r);
    }
  }

  /** From wherever the encoder is, its steps bring every queued item to the send queue, in order. */
  lemma EncoderCatchesUp(s: State) returns (steps: seq<Step>)
    requires PhaseInv(s) && s.running
    ensures Leads(s, steps, s.(e := EWaiting, encodeQueue := [], sendQueue := Through(s)))
  {
    hide Leads;
    var r := s.(e := EWaiting, encodeQueue := [], sendQueue := Through(s));
    var before, t := [], s;
    if s.e.EWaiting? {
      NoStep(s);
      assert Through(s) == s.sendQueue + s.encodeQueue;
    } else {
      var back, u := EncoderReturns(s);
      EncoderWaits(u);
      t := u.(e := EWaiting);
      before := back + [TestRunning];
      LeadsOn(s, back, u, [TestRunning], t);
      assert Through(u) == u.sendQueue + u.encodeQueue;
    }
    var rest := EncodeQueueDrains(t);
    steps := before + rest;
    LeadsOn(s, before, t, rest, r);
  }

  // ---- The main thread comes back ----

  /** From within any event, the main thread comes back to where it takes the next one. */
  lemma MainReturns(s: State) returns (steps: seq<Step>, r: State)
    requires PhaseInv(s) && s.running
    ensures Leads(s, steps, r) && r.m.MRunning? && r.running && r.made == s.made
  {
    match s.m
    case MRunning =>
      NoStep(s);
      steps, r := [], s;
    case MHooking =>
      r := s.(m := MRunning);
      OneStep(s, EndEvent, r);
      steps := [EndEvent];
    case MPushing(w) =>
      r := Do(s, PushEncode);
      OneStep(s, PushEncode, r);
      steps := [PushEncode];
    case MFreeing(w) =>
      r := Do(s, Free);
      OneStep(s, Free, r);
      steps := [Free];
    case MSending(w) =>
      var t := Do(s, Send);
      r := Do(t, Free);
      OneStep(t, Free, r);
      FirstStep(s, Send, t, [Free], r);
      steps := [Send] + [Free];
    case MTaking =>
      var t := Do(s, TakeSend);
      var u := Do(t, Send);
      r := Do(u, Free);
      OneStep(u, Free, r);
      FirstStep(t, Send, u, [Free], r);
      FirstStep(s, TakeSend, t, [Send] + [Free], r);
      steps := [TakeSend] + ([Send] + [Free]);
  }

  /**
   * From every state that can be reached while the client runs, the threads can go on so that
   * everything that was made is sent, in order, and freed, and both queues are empty.
   */
  lemma AllCanBeSent(s: State) returns (steps: seq<Step>, r: State)
    requires Inv(s) && s.running
    ensures Leads(s, steps, r) && r.m.MRunning? && r.running && r.e.EWaiting?
    ensures r.made == s.made == r.queued == r.sent && r.encodeQueue == [] && r.sendQueue == []
    ensures multiset(r.freed) == multiset(s.made)
  {
    var a, t := MainReturns(s);
    StepsKeepInv(s, a, t);
    var b := EncoderCatchesUp(t);
    var u := t.(e := EWaiting, encodeQueue := [], sendQueue := Through(t));
    LeadsOn(s, a, t, b, u);
    var c := QueueIsSent(u);
    r := u.(sendQueue := [], sent := u.sent + u.sendQueue, freed := u.freed + u.sendQueue);
    steps := a + b + c;
    LeadsOn(s, a + b, u, c, r);
    StepsKeepInv(s, steps, r);
    NothingLeft(r);
  }

  lemma NothingLeft(r: State)
    requires Inv(r) && r.running && r.m.MRunning? && r.e.EWaiting? && r.encodeQueue == [] && r.sendQueue == []
    ensures r.made == r.queued == r.sent && multiset(r.freed) == multiset(r.made)
  {
    assert Held(r) == multiset{};
    assert Line(r) == r.sent;
  }

  // ---- A shutdown comes to its end ----

  lemma StepOn(s: State, steps: seq<Step>, r: State, e: Step, t: State)
    requires Leads(s, steps, r) && Enabled(r, e) && Do(r, e) == t
    ensures Leads(s, steps + [e], t)
  {
    OneStep(r, e, t);
    LeadsOn(s, steps, r, [e], t);
  }

  /** Told to stop, the encoder finishes at most the one item it has taken or goes for, and exits. */
  lemma EncoderExits(s: State) returns (steps: seq<Step>, r: State)
    requires PhaseInv(s) && !s.running
    ensures Leads(s, steps, r) && OnlyEncoder(s, r) && r.e.EExited? && Through(r) == Through(s)
    ensures |r.encodeQueue| + 1 >= |s.encodeQueue|
  {
    hide Leads;
    if s.e.EExited? {
      NoStep(s);
      steps, r := [], s;
    } else if (s.e.ELeaving? || s.e.EWaiting?) && s.encodeQueue == [] {
      var t := s.(e := ELeaving);
      r := s.(e := EExited);
      OneStep(t, TestShutdown, r);
      steps := [TestShutdown];
      if s.e.EWaiting? {
        FirstStep(s, LeaveWait, t, [TestShutdown], r);
        steps := [LeaveWait] + [TestShutdown];
      }
    } else {
      var t, before := s, [];
      NoStep(s);
      if s.e.EWaiting? {
        t, before := s.(e := ELeaving), [LeaveWait];
        OneStep(s, LeaveWait, t);
      }
      var back, u := EncoderReturns(t);
      LeadsOn(s, before, t, back, u);
      r := u.(e := EExited);
      StepOn(s, before + back, u, TestRunning, r);
      steps := before + back + [TestRunning];
    }
  }

  lemma {:induction false} EncodeQueueIsCleaned(s: State) returns (steps: seq<Step>)
    requires s.m.MCleanEncode?
    ensures Leads(s, steps, s.(encodeQueue := [], freed := s.freed + s.encodeQueue,
                               droppedEncode := s.droppedEncode + s.encodeQueue, m := MCleanSend(s.m.around)))
    decreases |s.encodeQueue|
  {
    hide Leads;
    var r := s.(encodeQueue := [], freed := s.freed + s.encodeQueue,
                droppedEncode := s.droppedEncode + s.encodeQueue, m := MCleanSend(s.m.around));
    if s.encodeQueue == [] {
      OneStep(s, CleanEncode, r);
      steps := [CleanEncode];
    } else {
      var w, q := s.encodeQueue[0], s.encodeQueue[1..];
      var t := s.(encodeQueue := q, freed := s.freed + [w], droppedEncode := s.droppedEncode + [w]);
      var rest := EncodeQueueIsCleaned(t);
      assert s.freed + [w] + q == s.freed + s.encodeQueue;
      assert s.droppedEncode + [w] + q == s.droppedEncode + s.encodeQueue;
      FirstStep(s, CleanEncode, t, rest, r);
      steps := [CleanEncode] + rest;
    }
  }

  lemma {:induction false} SendQueueIsCleaned(s: State) returns (steps: seq<Step>)
    requires s.m.MCleanSend?
    ensures Leads(s, steps, s.(sendQueue := [], freed := s.freed + s.sendQueue,
                               droppedSend := s.droppedSend + s.sendQueue, m := Back(s.m.around)))
    decreases |s.sendQueue|
  {
    hide Leads;
    var r := s.(sendQueue := [], freed := s.freed + s.sendQueue,
                droppedSend := s.droppedSend + s.sendQueue, m := Back(s.m.around));
    if s.sendQueue == [] {
      OneStep(s, CleanSend, r);
      steps := [CleanSend];
    } else {
      var w, q := s.sendQueue[0], s.sendQueue[1..];
      var t := s.(sendQueue := q, freed := s.freed + [w], droppedSend := s.droppedSend + [w]);
      var rest := SendQueueIsCleaned(t);
      assert s.freed + [w] + q == s.freed + s.sendQueue;
      assert s.droppedSend + [w] + q == s.droppedSend + s.sendQueue;
      FirstStep(s, CleanSend, t, rest, r);
      steps := [CleanSend] + rest;
    }
  }

  /** What a shutdown leaves: nothing in the queues, and all of it freed behind what was freed before. */
  lemma QueuesAreCleaned(s: State) returns (steps: seq<Step>)
    requires s.m.MCleanEncode?
    ensures Leads(s, steps, s.(encodeQueue := [], sendQueue := [], freed := s.freed + s.encodeQueue + s.sendQueue,
                               droppedEncode := s.droppedEncode + s.encodeQueue,
                               droppedSend := s.droppedSend + s.sendQueue, m := Back(s.m.around)))
  {
    hide Leads;
    var a := EncodeQueueIsCleaned(s);
    var t := s.(encodeQueue := [], freed := s.freed + s.encodeQueue,
                droppedEncode := s.droppedEncode + s.encodeQueue, m := MCleanSend(s.m.around));
    var b := SendQueueIsCleaned(t);
    steps := a + b;
    LeadsOn(s, a, t, b, t.(sendQueue := [], freed := t.freed + s.sendQueue,
                           droppedSend := s.droppedSend + s.sendQueue, m := Back(s.m.around)));
  }

  /**
   * From every shutdown that has begun, the threads go on to where it was called from, with
   * both queues empty and every item freed that is not in hand there.
   */
  lemma ShutdownEnds(s: State) returns (steps: seq<Step>, r: State)
    requires Inv(s) && s.m.MJoining?
    ensures Leads(s, steps, r) && r.m == Back(s.m.around) && r.encodeQueue == [] && r.sendQueue == []
    ensures !r.running && r.made == s.made && r.sent == s.sent && r.late == s.late
    ensures multiset(s.made) == multiset(r.freed) + multiset(InHand(r.m))
  {
    hide Leads;
    var a, t := EncoderExits(s);
    var u := t.(m := MCleanEncode(s.m.around));
    StepOn(s, a, t, Join, u);
    var b := QueuesAreCleaned(u);
    r := u.(encodeQueue := [], sendQueue := [], freed := u.freed + u.encodeQueue + u.sendQueue,
            droppedEncode := u.droppedEncode + u.encodeQueue,
            droppedSend := u.droppedSend + u.sendQueue, m := Back(s.m.around));
    steps := a + [Join] + b;
    LeadsOn(s, a + [Join], u, b, r);
    StepsKeepInv(s, steps, r);
    OnlyInHand(r);
  }

  lemma OnlyInHand(r: State)
    requires Inv(r) && r.encodeQueue == [] && r.sendQueue == [] && r.e.EExited?
    ensures multiset(r.made) == multiset(r.freed) + multiset(InHand(r.m))
  {
    hide InHand;
    hide PhaseInv;
    hide OrderInv;
  }

  /** The main thread finishes what the shutdown interrupted. */
  lemma ClosedIsDone(s: State) returns (steps: seq<Step>, r: State)
    requires PhaseInv(s) && Closed(s)
    ensures Leads(s, steps, r) && r.m.MDone? && r.made == s.made && r.late == s.late && r.sent == s.sent
  {
    match s.m
    case MDone =>
      NoStep(s);
      steps, r := [], s;
    case MHooking =>
      r := s.(m := MDone);
      OneStep(s, EndEvent, r);
      steps := [EndEvent];
    case MPushing(w) =>
      r := Do(s, PushEncode);
      OneStep(s, PushEncode, r);
      steps := [PushEncode];
    case MFreeing(w) =>
      r := Do(s, Free);
      OneStep(s, Free, r);
      steps := [Free];
  }

  /** From every state that can be reached, a shutdown can be gone through to the very end. */
  lemma CanEnd(s: State) returns (steps: seq<Step>, r: State)
    requires Inv(s)
    ensures Leads(s, steps, r) && Inv(r) && r.m.MDone? && r.made == s.made && r.late == s.late
    ensures multiset(r.made) == multiset(r.freed) + multiset(r.late)
  {
    hide Leads;
    var before, t := [], s;
    NoStep(s);
    if s.running {
      var back, u := MainReturns(s);
      StepsKeepInv(s, back, u);
      LateWhileRunning(s);
      LateWhileRunning(u);
      t := u.(running := false, m := MJoining(Nothing));
      StepOn(s, back, u, Shutdown, t);
      before := back + [Shutdown];
      StepsKeepInv(s, before, t);
    }
    var closing, u := ClosingEnds(t);
    LeadsOn(s, before, t, closing, u);
    StepsKeepInv(t, closing, u);
    var last, v := ClosedIsDone(u);
    LeadsOn(s, before + closing, u, last, v);
    steps, r := before + closing + last, v;
    StepsKeepInv(s, steps, r);
    OnlyLateIsHeld(r);
  }

  lemma LateWhileRunning(s: State)
    requires PhaseInv(s) && s.running
    ensures s.late == []
  {
  }

  /** From any moment after the flag was taken down, to where the queues are closed. */
  lemma ClosingEnds(s: State) returns (steps: seq<Step>, r: State)
    requires Inv(s) && !s.running
    ensures Leads(s, steps, r) && Closed(r) && r.made == s.made && r.late == s.late
  {
    hide Leads;
    hide OrderInv;
    hide MemoryInv;
    match s.m
    case MJoining(a) =>
      steps, r := ShutdownEnds(s);
    case MCleanEncode(a) =>
      steps := QueuesAreCleaned(s);
      r := s.(encodeQueue := [], sendQueue := [], freed := s.freed + s.encodeQueue + s.sendQueue,
              droppedEncode := s.droppedEncode + s.encodeQueue,
              droppedSend := s.droppedSend + s.sendQueue, m := Back(a));
    case MCleanSend(a) =>
      steps := SendQueueIsCleaned(s);
      r := s.(sendQueue := [], freed := s.freed + s.sendQueue,
              droppedSend := s.droppedSend + s.sendQueue, m := Back(a));
    case _ =>
      NoStep(s);
      steps, r := [], s;
  }
}
