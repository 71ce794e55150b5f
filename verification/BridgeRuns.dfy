/**
 * What holds of the bridge in every interleaving: messages leave in the order they came,
 * none is lost or handled twice, and every call ends in exactly one way.
 */
module BridgeRuns {
  import opened Options
  import opened Bridge
  import opened Queues

  function Taken(b: Channel): seq<nat> {
    b.dispatched + b.drained + b.lost
  }

  /** Conservation: what was sent is what was dispatched, then drained, then lost, then still queued. */
  ghost predicate FlowOk(b: Channel) {
    && b.enqueued == Taken(b) + b.queue
    && NoRepeat(b.enqueued)
    && (b.phase == Receiving || b.phase.Handling? ==> b.drained == [])
    && (b.phase != Stopped ==> b.lost == [])
    && (b.phase == Stopped ==> b.queue == [])
    && (b.phase.Handling? ==> b.phase.call in b.dispatched)
    && forall c :: c in b.enqueued ==> c in b.callers && !b.callers[c].Sending?
  }

  ghost predicate SlotOk(b: Channel, c: nat)
    requires c in b.slots
  {
    && (b.slots[c] == Broken <==> c in b.lost)
    && (b.slots[c] == Filled(ShuttingDown) <==> c in b.drained)
    && (b.slots[c].Filled? && b.slots[c].reply.Handled? <==> c in b.dispatched && b.phase != Handling(c))
  }

  ghost predicate CallerOk(b: Channel, c: nat)
    requires c in b.callers && c in b.slots
  {
    match b.callers[c]
    case Sending(_) => c !in b.enqueued
    case AwaitingReply => c in b.enqueued
    case Resolved(ClosedBeforeSend) => c !in b.enqueued && b.phase == Stopped
    case Resolved(ClosedBeforeReply) => b.slots[c] == Broken
    case Resolved(Answered(r)) => b.slots[c] == Filled(r)
    case Gone => true
  }

  ghost predicate CallsOk(b: Channel) {
    && b.callers.Keys == b.slots.Keys
    && (forall c :: c in b.slots ==> SlotOk(b, c))
    && (forall c :: c in b.slots ==> CallerOk(b, c))
  }

  /** Whoever is sending either waits in line, once, or has been given a place. */
  ghost predicate TurnsOk(b: Channel) {
    && NoRepeat(b.line)
    && (forall c :: c in b.line ==> IsSending(b, c) && c !in b.granted)
    && (forall c :: c in b.granted ==> IsSending(b, c))
    && forall c :: IsSending(b, c) ==> c in b.line || c in b.granted
  }

  function PlacesTaken(b: Channel): nat {
    |b.queue| + |b.granted|
  }

  /** No more places are taken than there are, and nobody waits while one is free. */
  ghost predicate LineOk(b: Channel) {
    && PlacesTaken(b) <= BRIDGE_CHANNEL_CAPACITY
    && (b.phase != Stopped ==> TurnsOk(b) && (b.line != [] ==> PlacesTaken(b) == BRIDGE_CHANNEL_CAPACITY))
  }

  ghost predicate Inv(b: Channel) {
    FlowOk(b) && CallsOk(b) && LineOk(b)
  }

  /** The first message of the queue has not been taken before, and is queued only once. */
  lemma HeadIsNew(b: Channel)
    requires FlowOk(b) && b.queue != []
    ensures b.queue[0] in b.enqueued && b.queue[0] !in b.queue[1..]
    ensures b.queue[0] !in b.dispatched && b.queue[0] !in b.drained && b.queue[0] !in b.lost
  {
    var k := |Taken(b)|;
    assert b.enqueued[k] == b.queue[0];
    assert b.enqueued[..k] == Taken(b) && b.enqueued[k + 1..] == b.queue[1..];
    assert b.queue[0] !in b.enqueued[..k] && b.queue[0] !in b.enqueued[k + 1..];
  }

  lemma QueuedIsNew(b: Channel, c: nat)
    requires FlowOk(b) && c in b.queue
    ensures c in b.enqueued && c !in b.dispatched && c !in b.drained && c !in b.lost
  {
    var i :| 0 <= i < |b.queue| && b.queue[i] == c;
    var k := |Taken(b)|;
    assert b.enqueued[k + i] == c && b.enqueued[..k] == Taken(b);
    assert c !in b.enqueued[..k];
  }

  predicate Takes(s: Step) {
    s.Receive? || s.DrainOne? || s.DropReceiver?
  }

  lemma TakeKeepsFlow(b: Channel, s: Step)
    requires FlowOk(b) && Enabled(b, s) && Takes(s)
    ensures FlowOk(Moved(b, s)) && Moved(b, s).enqueued == b.enqueued
  {
    var b' := Moved(b, s);
    if !s.DropReceiver? {
      assert b.queue == [b.queue[0]] + b.queue[1..];
      assert Taken(b') == Taken(b) + [b.queue[0]];
    }
    assert b'.enqueued == Taken(b') + b'.queue;
  }

  lemma PushKeepsFlow(b: Channel, c: nat, late: bool)
    requires FlowOk(b) && Enabled(b, Push(c, late)) && c !in b.enqueued
    ensures FlowOk(Moved(b, Push(c, late)))
  {
    var b' := Moved(b, Push(c, late));
    assert b'.enqueued == Taken(b') + b'.queue;
  }

  lemma StepKeepsFlow(b: Channel, s: Step)
    requires Inv(b) && Enabled(b, s)
    ensures FlowOk(Moved(b, s))
  {
    if Takes(s) {
      TakeKeepsFlow(b, s);
    } else if s.Push? {
      assert CallerOk(b, s.c);
      PushKeepsFlow(b, s.c, s.late);
    } else if s.Call? {
      assert s.c !in b.enqueued;
    }
  }

  lemma TakeKeepsCalls(b: Channel, s: Step)
    requires Inv(b) && Enabled(b, s) && (s.Receive? || s.DrainOne?)
    ensures CallsOk(Moved(b, s))
  {
    var b', head := Moved(b, s), b.queue[0];
    HeadIsNew(b);
    assert head in b.slots && SlotOk(b, head) && CallerOk(b, head);
    forall c | c in b'.slots ensures SlotOk(b', c) && CallerOk(b', c) {
      assert SlotOk(b, c) && CallerOk(b, c);
      assert s.Receive? ==> (c in b'.dispatched <==> c in b.dispatched || c == head);
      assert s.DrainOne? ==> (c in b'.drained <==> c in b.drained || c == head);
    }
  }

  lemma DropKeepsCalls(b: Channel)
    requires Inv(b) && Enabled(b, DropReceiver)
    ensures CallsOk(Moved(b, DropReceiver))
  {
    var b' := Moved(b, DropReceiver);
    forall c | c in b'.slots ensures SlotOk(b', c) && CallerOk(b', c) {
      assert SlotOk(b, c) && CallerOk(b, c);
      if c in b.queue { QueuedIsNew(b, c); }
      assert c in b'.lost <==> c in b.lost || c in b.queue;
    }
  }

  lemma HandleKeepsCalls(b: Channel, h: Handling)
    requires Inv(b) && Enabled(b, Handle(h))
    ensures CallsOk(Moved(b, Handle(h)))
  {
    var b' := Moved(b, Handle(h));
    var c0 := b.phase.call;
    assert c0 in b.enqueued && SlotOk(b, c0) && CallerOk(b, c0);
    forall c | c in b'.slots ensures SlotOk(b', c) && CallerOk(b', c) { assert SlotOk(b, c) && CallerOk(b, c); }
  }

  predicate CallerStep(s: Step) {
    s.Timer? || s.Push? || s.SendFails? || s.Deliver? || s.Abandon?
  }

  lemma CallerStepKeepsCalls(b: Channel, s: Step)
    requires Inv(b) && Enabled(b, s) && CallerStep(s)
    ensures CallsOk(Moved(b, s))
  {
    var b' := Moved(b, s);
    assert s.c in b.slots && SlotOk(b, s.c) && CallerOk(b, s.c);
    forall c | c in b'.slots ensures SlotOk(b', c) && CallerOk(b', c) {
      assert SlotOk(b, c) && CallerOk(b, c);
      if s.Push? { assert c in b'.enqueued <==> c in b.enqueued || c == s.c; }
    }
  }

  lemma OtherStepKeepsCalls(b: Channel, s: Step)
    requires Inv(b) && Enabled(b, s) && !Takes(s) && !CallerStep(s) && !s.Handle?
    ensures CallsOk(Moved(b, s))
  {
    var b' := Moved(b, s);
    if s.Call? {
      assert s.c !in b.enqueued;
      assert forall c :: c in b.dispatched || c in b.drained || c in b.lost ==> c in b.enqueued;
    }
    forall c | c in b'.slots ensures SlotOk(b', c) && CallerOk(b', c) {
      if c in b.slots { assert SlotOk(b, c) && CallerOk(b, c); }
    }
  }

  // ----- The line of senders ---------------------------------------------------------------

  /** The same messages, with another line. */
  ghost predicate SameMessages(b: Channel, b': Channel) {
    b' == b.(line := b'.line, granted := b'.granted)
  }

  lemma TurnKeepsMessages(b: Channel, m: Channel, s: Step)
    ensures SameMessages(m, Turned(b, m, s))
  {
  }

  lemma SameMessagesOk(b: Channel, b': Channel)
    requires SameMessages(b, b') && FlowOk(b) && CallsOk(b)
    ensures FlowOk(b') && CallsOk(b')
  {
    forall c | c in b'.slots ensures SlotOk(b', c) && CallerOk(b', c) { assert SlotOk(b, c) && CallerOk(b, c); }
  }

  lemma PassOnKeepsLine(b: Channel)
    requires PlacesTaken(b) < BRIDGE_CHANNEL_CAPACITY
    requires b.phase != Stopped ==> TurnsOk(b) && (b.line != [] ==> PlacesTaken(b) == BRIDGE_CHANNEL_CAPACITY - 1)
    ensures LineOk(PassOn(b))
  {
    if b.line != [] {
      if b.phase != Stopped { TailNoRepeat(b.line); }
      assert b.line[0] in b.line;
      if b.line[0] in b.granted { assert b.granted + {b.line[0]} == b.granted; }
    }
  }

  lemma LeavingKeepsLine(b: Channel, c: nat)
    requires LineOk(b) && IsSending(b, c)
    ensures LineOk(Left(b.(callers := b.callers[c := Gone]), c))
  {
    var m := b.(callers := b.callers[c := Gone]);
    if c in b.granted {
      PassOnKeepsLine(m.(granted := m.granted - {c}));
    } else if b.phase != Stopped {
      WithoutMembers(b.line, c);
    }
  }

  /** A new caller in the line, or with a place, is one more sender. */
  lemma NewcomerKeepsTurns(b: Channel, b': Channel, c: nat)
    requires TurnsOk(b) && c !in b.callers && b'.callers == b.callers[c := Sending(false)]
    requires if c in b'.granted then b'.granted == b.granted + {c} && b'.line == b.line
      else b'.granted == b.granted && b'.line == b.line + [c]
    ensures TurnsOk(b')
  {
    assert c !in b.line && c !in b.granted;
    AppendNoRepeat(b.line, c);
    assert forall d :: d != c ==> IsSending(b', d) == IsSending(b, d);
    assert IsSending(b', c);
  }

  lemma JoiningKeepsTurns(b: Channel, c: nat)
    requires TurnsOk(b) && c !in b.callers
    ensures TurnsOk(Joined(b.(callers := b.callers[c := Sending(false)], slots := b.slots[c := Unfilled]), c))
  {
    assert c !in b.granted;
    var m := b.(callers := b.callers[c := Sending(false)], slots := b.slots[c := Unfilled]);
    NewcomerKeepsTurns(b, Joined(m, c), c);
  }

  lemma JoiningKeepsLine(b: Channel, c: nat)
    requires LineOk(b) && c !in b.callers
    ensures LineOk(Joined(b.(callers := b.callers[c := Sending(false)], slots := b.slots[c := Unfilled]), c))
  {
    if b.phase != Stopped { JoiningKeepsTurns(b, c); }
    if c in b.granted { assert b.granted + {c} == b.granted; }
  }

  lemma PushingKeepsLine(b: Channel, c: nat, late: bool)
    requires LineOk(b) && Enabled(b, Push(c, late))
    ensures LineOk(Next(b, Push(c, late)))
  {
  }

  lemma TakingKeepsLine(b: Channel, s: Step)
    requires LineOk(b) && Enabled(b, s) && (s.Receive? || s.DrainOne?)
    ensures LineOk(Next(b, s))
  {
    PassOnKeepsLine(Moved(b, s));
  }

  lemma StepKeepsLine(b: Channel, s: Step)
    requires LineOk(b) && Enabled(b, s)
    ensures LineOk(Next(b, s))
  {
    match s
    case Receive => TakingKeepsLine(b, s);
    case DrainOne => TakingKeepsLine(b, s);
    case Push(c, late) => PushingKeepsLine(b, c, late);
    case Call(c) => JoiningKeepsLine(b, c);
    case Abandon(c) => if IsSending(b, c) { LeavingKeepsLine(b, c); }
    case _ =>
  }

  /** Messages and replies, whatever happens in the line. */
  lemma MoveKeepsMessages(b: Channel, s: Step)
    requires Inv(b) && Enabled(b, s)
    ensures FlowOk(Moved(b, s)) && CallsOk(Moved(b, s))
  {
    StepKeepsFlow(b, s);
    if s.Receive? || s.DrainOne? {
      TakeKeepsCalls(b, s);
    } else if s.DropReceiver? {
      DropKeepsCalls(b);
    } else if s.Handle? {
      HandleKeepsCalls(b, s.handling);
    } else if CallerStep(s) {
      CallerStepKeepsCalls(b, s);
    } else {
      OtherStepKeepsCalls(b, s);
    }
  }

  lemma StepKeepsInv(b: Channel, s: Step)
    requires Inv(b) && Enabled(b, s)
    ensures Inv(Next(b, s))
  {
    MoveKeepsMessages(b, s);
    TurnKeepsMessages(b, Moved(b, s), s);
    SameMessagesOk(Moved(b, s), Next(b, s));
    StepKeepsLine(b, s);
  }

  // ----- Runs ---------------------------------------------------------------------------------

  ghost predicate ValidRun(b: Channel, steps: seq<Step>)
    decreases |steps|
  {
    steps != [] ==> Enabled(b, steps[0]) && ValidRun(Next(b, steps[0]), steps[1..])
  }

  ghost function After(b: Channel, steps: seq<Step>): Channel
    requires ValidRun(b, steps)
    decreases |steps|
  {
    if steps == [] then b else After(Next(b, steps[0]), steps[1..])
  }

  lemma {:induction false} RunKeepsInv(b: Channel, steps: seq<Step>)
    requires Inv(b) && ValidRun(b, steps)
    ensures Inv(After(b, steps))
    decreases |steps|
  {
    if steps != [] {
      StepKeepsInv(b, steps[0]);
      RunKeepsInv(Next(b, steps[0]), steps[1..]);
    }
  }

  /**
   * In every run, the messages sent are, in order and without repetition, those dispatched,
   * those drained, those lost with the receiver, and those still queued, at most 64.
   */
  lemma NothingLostOrDuplicated(steps: seq<Step>)
    requires ValidRun(Start(), steps)
    ensures var b := After(Start(), steps);
      && b.enqueued == b.dispatched + b.drained + b.lost + b.queue
      && NoRepeat(b.enqueued) && |b.queue| <= 64
  {
    RunKeepsInv(Start(), steps);
  }

  /**
   * How a call ended says what became of its message: answered by the handler if and only if
   * it was dispatched, told of the shutdown if and only if it was drained, closed on before
   * the reply if and only if the receiver was dropped with it, and otherwise never sent.
   */
  lemma OutcomeTellsFate(steps: seq<Step>, c: nat)
    requires ValidRun(Start(), steps)
    requires c in After(Start(), steps).callers && After(Start(), steps).callers[c].Resolved?
    ensures var b := After(Start(), steps);
      var outcome := b.callers[c].outcome;
      && (outcome.Answered? && outcome.reply.Handled? <==> c in b.dispatched)
      && (outcome == Answered(ShuttingDown) <==> c in b.drained)
      && (outcome == ClosedBeforeReply <==> c in b.lost)
      && (outcome == ClosedBeforeSend <==> c !in b.enqueued)
  {
    RunKeepsInv(Start(), steps);
    ResolvedFate(After(Start(), steps), c);
  }

  lemma ResolvedFate(b: Channel, c: nat)
    requires FlowOk(b) && CallsOk(b) && c in b.callers && b.callers[c].Resolved?
    ensures var outcome := b.callers[c].outcome;
      && (outcome.Answered? && outcome.reply.Handled? <==> c in b.dispatched)
      && (outcome == Answered(ShuttingDown) <==> c in b.drained)
      && (outcome == ClosedBeforeReply <==> c in b.lost)
      && (outcome == ClosedBeforeSend <==> c !in b.enqueued)
  {
    assert SlotOk(b, c) && CallerOk(b, c);
    assert c in b.enqueued <==> c in b.dispatched || c in b.drained || c in b.lost || c in b.queue;
    if c in b.queue { QueuedIsNew(b, c); }
  }

  /** A call succeeds exactly when its message was dispatched and handled to a response without an error. */
  lemma CallSucceedsIff(steps: seq<Step>, c: nat, texts: Texts)
    requires ValidRun(Start(), steps)
    requires c in After(Start(), steps).callers && After(Start(), steps).callers[c].Resolved?
    ensures var b := After(Start(), steps);
      c in b.slots && (Returned(b.callers[c].outcome, texts).Ok? <==>
        && c in b.dispatched && b.slots[c].Filled? && b.slots[c].reply.Handled?
        && b.slots[c].reply.handling.Responded? && b.slots[c].reply.handling.response.error.None?)
  {
    RunKeepsInv(Start(), steps);
    var b := After(Start(), steps);
    assert SlotOk(b, c) && CallerOk(b, c);
  }

  /**
   * What a call returns: the error of its response, or else its result, null if there is none;
   * and an error of its own for a panic, a shutdown, and each way to be closed on.
   */
  lemma CallReturns(steps: seq<Step>, c: nat, texts: Texts)
    requires ValidRun(Start(), steps)
    requires c in After(Start(), steps).callers && After(Start(), steps).callers[c].Resolved?
    ensures var b := After(Start(), steps);
      var r := Returned(b.callers[c].outcome, texts);
      && c in b.slots
      && (forall response :: b.slots[c] == Filled(Handled(Responded(response))) ==>
            match response.error
            case Some(error) => r == Err(error)
            case None => r == Ok(match response.result case Some(value) => value case None => texts.nullValue))
      && (b.slots[c] == Filled(Handled(Panicked)) ==> r == Err(texts.panicked))
      && (c in b.drained ==> r == Err(texts.shuttingDown))
      && (c in b.lost ==> r == Err(texts.closedBeforeReply))
      && (c !in b.enqueued ==> r == Err(texts.closedBeforeSend))
  {
    RunKeepsInv(Start(), steps);
    OutcomeTellsFate(steps, c);
    var b := After(Start(), steps);
    assert SlotOk(b, c) && CallerOk(b, c);
  }

  lemma {:induction false} RunLast(b: Channel, steps: seq<Step>)
    requires ValidRun(b, steps) && steps != []
    ensures var init, last := steps[..|steps| - 1], steps[|steps| - 1];
      && ValidRun(b, init) && Enabled(After(b, init), last)
      && After(b, steps) == Next(After(b, init), last)
    decreases |steps|
  {
    if |steps| > 1 {
      RunLast(Next(b, steps[0]), steps[1..]);
      assert steps[1..][..|steps| - 2] == steps[..|steps| - 1][1..];
    }
  }

  /** Step `k` of the run handled the message of `c`, with that outcome. */
  ghost predicate HandledAt(steps: seq<Step>, k: int, c: nat, h: Handling) {
    && 0 <= k < |steps| && ValidRun(Start(), steps[..k])
    && After(Start(), steps[..k]).phase == Handling(c) && steps[k] == Handle(h)
  }

  lemma OnlyHandlingReplies(b: Channel, s: Step, c: nat, h: Handling)
    requires Enabled(b, s) && c in Next(b, s).slots && Next(b, s).slots[c] == Filled(Handled(h))
    ensures (c in b.slots && b.slots[c] == Filled(Handled(h))) || (s == Handle(h) && b.phase == Handling(c))
  {
    TurnKeepsMessages(b, Moved(b, s), s);
  }

  /** In every run, the reply that a call has is what handling its own message came to. */
  lemma {:induction false} ReplyWasHandled(steps: seq<Step>, c: nat, h: Handling)
    requires ValidRun(Start(), steps)
    requires c in After(Start(), steps).slots && After(Start(), steps).slots[c] == Filled(Handled(h))
    ensures exists k :: HandledAt(steps, k, c, h)
    decreases |steps|
  {
    if steps != [] {
      var m := |steps| - 1;
      RunLast(Start(), steps);
      var before := After(Start(), steps[..m]);
      OnlyHandlingReplies(before, steps[m], c, h);
      if c in before.slots && before.slots[c] == Filled(Handled(h)) {
        ReplyWasHandled(steps[..m], c, h);
        var k :| HandledAt(steps[..m], k, c, h);
        assert steps[..m][..k] == steps[..k];
        assert HandledAt(steps, k, c, h);
      } else {
        assert HandledAt(steps, m, c, h);
      }
    }
  }

  /** The consumer takes no more messages. */
  predicate HasStopped(b: Channel) {
    b.phase.Draining? || b.phase.Leaving? || b.phase.Stopped?
  }

  /** Nobody can send: the transports are gone, and so is every caller. */
  ghost predicate NobodySends(b: Channel) {
    !b.transports && forall c :: c in b.callers ==> b.callers[c].Resolved? || b.callers[c].Gone?
  }

  lemma StepStops(b: Channel, s: Step)
    requires Enabled(b, s) && (HasStopped(b) ==> b.cancelled || NobodySends(b))
    ensures HasStopped(Next(b, s)) ==> Next(b, s).cancelled || NobodySends(Next(b, s))
    ensures Next(b, s).cancelled <==> b.cancelled || s == FireCancel
  {
    TurnKeepsMessages(b, Moved(b, s), s);
  }

  /** In every run, the consumer stops only once it was cancelled, or nobody is left to send. */
  lemma {:induction false} StopsForAReason(steps: seq<Step>)
    requires ValidRun(Start(), steps)
    ensures var b := After(Start(), steps);
      && (HasStopped(b) ==> FireCancel in steps || NobodySends(b))
      && (b.cancelled <==> FireCancel in steps)
    decreases |steps|
  {
    if steps != [] {
      var init, last := steps[..|steps| - 1], steps[|steps| - 1];
      RunLast(Start(), steps);
      StopsForAReason(init);
      StepStops(After(Start(), init), last);
      assert steps == init + [last];
    }
  }

  /** Once the consumer has stopped, no call is left hanging: each one's next step is there to take. */
  lemma NoCallLeftHanging(steps: seq<Step>, c: nat)
    requires ValidRun(Start(), steps) && After(Start(), steps).phase == Stopped
    requires c in After(Start(), steps).callers
    ensures var b := After(Start(), steps);
      && (b.callers[c].AwaitingReply? ==> Enabled(b, Deliver(c)))
      && (b.callers[c].Sending? ==> Enabled(b, SendFails(c, b.callers[c].late)))
  {
    RunKeepsInv(Start(), steps);
    var b := After(Start(), steps);
    assert SlotOk(b, c) && CallerOk(b, c);
    if c in b.queue { QueuedIsNew(b, c); }
  }

  /** A resolved call stays as it is, and a reply once given is never replaced. */
  ghost predicate Settled(b: Channel, b': Channel) {
    && (forall c :: c in b.callers && b.callers[c].Resolved? ==> c in b'.callers && b'.callers[c] == b.callers[c])
    && (forall c :: c in b.slots && b.slots[c] != Unfilled ==> c in b'.slots && b'.slots[c] == b.slots[c])
    && b.enqueued <= b'.enqueued && b.dispatched <= b'.dispatched
  }

  lemma HeadUnfilled(b: Channel)
    requires FlowOk(b) && CallsOk(b) && b.queue != [] && !b.phase.Handling?
    ensures b.queue[0] in b.slots && b.slots[b.queue[0]] == Unfilled
  {
    HeadIsNew(b);
    assert SlotOk(b, b.queue[0]);
  }

  lemma HandledUnfilled(b: Channel)
    requires FlowOk(b) && CallsOk(b) && b.phase.Handling?
    ensures b.phase.call in b.slots && b.slots[b.phase.call] == Unfilled
  {
    assert b.phase.call in b.enqueued && SlotOk(b, b.phase.call);
  }

  lemma HandleSettles(b: Channel, s: Step)
    requires FlowOk(b) && CallsOk(b) && Enabled(b, s) && (s.DrainOne? || s.Handle?)
    ensures Settled(b, Moved(b, s))
  {
    if s.DrainOne? { HeadUnfilled(b); } else { HandledUnfilled(b); }
  }

  lemma DropSettles(b: Channel)
    requires Inv(b) && Enabled(b, DropReceiver)
    ensures Settled(b, Moved(b, DropReceiver))
  {
    forall c | c in b.queue ensures c in b.slots && b.slots[c] == Unfilled {
      QueuedIsNew(b, c);
      assert SlotOk(b, c);
    }
  }

  lemma OtherSettles(b: Channel, s: Step)
    requires Inv(b) && Enabled(b, s) && !s.DrainOne? && !s.Handle? && !s.DropReceiver?
    ensures Settled(b, Moved(b, s))
  {
  }

  lemma StepSettles(b: Channel, s: Step)
    requires Inv(b) && Enabled(b, s)
    ensures Settled(b, Next(b, s))
  {
    if s.DrainOne? || s.Handle? {
      HandleSettles(b, s);
    } else if s.DropReceiver? {
      DropSettles(b);
    } else {
      OtherSettles(b, s);
    }
    TurnKeepsMessages(b, Moved(b, s), s);
  }

  lemma {:induction false} OutcomesNeverChange(b: Channel, steps: seq<Step>)
    requires Inv(b) && ValidRun(b, steps)
    ensures Settled(b, After(b, steps))
    decreases |steps|
  {
    if steps != [] {
      StepKeepsInv(b, steps[0]);
      StepSettles(b, steps[0]);
      OutcomesNeverChange(Next(b, steps[0]), steps[1..]);
    }
  }

  // ----- Turns in the line ----------------------------------------------------------------------

  /** In every run, a caller that waits to send waits for a full channel: all 64 places are taken. */
  lemma NobodyWaitsIdly(steps: seq<Step>, c: nat)
    requires ValidRun(Start(), steps) && After(Start(), steps).phase != Stopped
    requires IsSending(After(Start(), steps), c)
    ensures var b := After(Start(), steps);
      c in b.granted || (c in b.line && |b.queue| + |b.granted| == 64)
  {
    RunKeepsInv(Start(), steps);
  }

  /** As long as `a` waits, `c` waits behind it, or has given up. */
  ghost predicate Ahead(b: Channel, a: nat, c: nat) {
    && a in b.callers && c in b.callers
    && (b.phase == Stopped || a !in b.line || b.callers[c] == Gone || Before(b.line, a, c))
  }

  lemma LineStep(b: Channel, s: Step)
    requires Inv(b) && Enabled(b, s) && b.phase != Stopped
    ensures var line := Next(b, s).line;
      || line == b.line
      || (s.Call? && line == b.line + [s.c])
      || (b.line != [] && line == b.line[1..])
      || (s.Abandon? && line == Without(b.line, s.c))
  {
  }

  lemma StepKeepsAhead(b: Channel, s: Step, a: nat, c: nat)
    requires Inv(b) && Enabled(b, s) && Ahead(b, a, c)
    ensures Ahead(Next(b, s), a, c)
  {
    var b' := Next(b, s);
    if b.phase != Stopped && b'.phase != Stopped && b.callers[c] != Gone && b'.callers[c] != Gone {
      LineStep(b, s);
      LineKeepsOrder(b, s, b'.line, a, c);
    }
  }

  lemma LineKeepsOrder(b: Channel, s: Step, line: seq<nat>, a: nat, c: nat)
    requires TurnsOk(b) && (a in b.line ==> Before(b.line, a, c)) && Enabled(b, s) && a in b.callers
    requires s.Abandon? ==> s.c != c
    requires
      || line == b.line
      || (s.Call? && line == b.line + [s.c])
      || (b.line != [] && line == b.line[1..])
      || (s.Abandon? && line == Without(b.line, s.c))
    ensures a in line ==> Before(line, a, c)
  {
    if a in line {
      if line == b.line {
      } else if s.Call? && line == b.line + [s.c] {
        BeforeMore(b.line, a, c, s.c);
      } else if b.line != [] && line == b.line[1..] {
        TailNoRepeat(b.line);
        BeforeTail(b.line, a, c);
      } else {
        WithoutMembers(b.line, s.c);
        BeforeWithout(b.line, a, c, s.c);
      }
    }
  }

  /** In every run, nobody is overtaken: whoever stands behind another gets no place before it does. */
  lemma {:induction false} NoOvertaking(b: Channel, steps: seq<Step>, a: nat, c: nat)
    requires Inv(b) && ValidRun(b, steps) && Ahead(b, a, c)
    ensures Ahead(After(b, steps), a, c)
    ensures var b' := After(b, steps);
      b'.phase != Stopped && a in b'.line && b'.callers[c] != Gone ==> c in b'.line && c !in b'.granted
    decreases |steps|
  {
    if steps != [] {
      StepKeepsInv(b, steps[0]);
      StepKeepsAhead(b, steps[0], a, c);
      NoOvertaking(Next(b, steps[0]), steps[1..], a, c);
    }
  }

  // ----- The 250 ms timer ------------------------------------------------------------------------

  function OnTime(c: Caller): Caller {
    if c.Sending? then Sending(false) else c
  }

  ghost function AllOnTime(callers: map<nat, Caller>): map<nat, Caller> {
    map c | c in callers :: OnTime(callers[c])
  }

  /** The same bridge, with every send future still awaited beside its timer. */
  ghost function Punctual(b: Channel): Channel {
    b.(callers := AllOnTime(b.callers))
  }

  /** What `s` does, done by the first await. */
  function Timely(s: Step): Step {
    match s
    case Push(c, _) => Push(c, false)
    case SendFails(c, _) => SendFails(c, false)
    case _ => s
  }

  /** The run in which no timer fires, and the first await does what the second did. */
  ghost function WithoutTimers(steps: seq<Step>): seq<Step> {
    if steps == [] then [] else
      (if steps[0].Timer? then [] else [Timely(steps[0])]) + WithoutTimers(steps[1..])
  }

  lemma TimerKeepsPunctual(b: Channel, c: nat)
    requires Enabled(b, Timer(c))
    ensures Punctual(Next(b, Timer(c))) == Punctual(b)
  {
    assert AllOnTime(b.callers[c := Sending(true)]) == AllOnTime(b.callers);
  }

  lemma OnTimeUpdate(callers: map<nat, Caller>, c: nat, to: Caller)
    ensures AllOnTime(callers[c := to]) == AllOnTime(callers)[c := OnTime(to)]
  {
  }

  /** Turns in the line do not depend on what the callers are. */
  lemma PassOnIgnoresCallers(m: Channel, callers: map<nat, Caller>)
    ensures PassOn(m.(callers := callers)) == PassOn(m).(callers := callers)
  {
  }

  lemma JoiningIgnoresCallers(m: Channel, callers: map<nat, Caller>, c: nat)
    ensures Joined(m.(callers := callers), c) == Joined(m, c).(callers := callers)
  {
  }

  lemma LeavingIgnoresCallers(m: Channel, callers: map<nat, Caller>, c: nat)
    ensures Left(m.(callers := callers), c) == Left(m, c).(callers := callers)
  {
    var m' := m.(granted := m.granted - {c});
    PassOnIgnoresCallers(m', callers);
    assert m'.(callers := callers) == m.(callers := callers).(granted := m.granted - {c});
  }

  lemma TurnPunctual(b: Channel, m: Channel, s: Step)
    ensures Turned(Punctual(b), Punctual(m), s) == Punctual(Turned(b, m, s))
  {
    var callers := Punctual(m).callers;
    match s
    case Call(c) => JoiningIgnoresCallers(m, callers, c);
    case Abandon(c) =>
      LeavingIgnoresCallers(m, callers, c);
      assert IsSending(b, c) == IsSending(Punctual(b), c);
    case Receive => PassOnIgnoresCallers(m, callers);
    case DrainOne => PassOnIgnoresCallers(m, callers);
    case _ =>
  }

  lemma EnabledPunctual(b: Channel, s: Step)
    requires Enabled(b, s) && !s.Timer?
    ensures Enabled(Punctual(b), Timely(s))
  {
    assert SendersGone(b) ==> SendersGone(Punctual(b));
  }

  lemma CallerMovePunctual(b: Channel, s: Step)
    requires Enabled(b, s) && Enabled(Punctual(b), Timely(s)) && !s.Timer? && (s.Call? || CallerStep(s))
    ensures Moved(Punctual(b), Timely(s)) == Punctual(Moved(b, s))
  {
    OnTimeUpdate(b.callers, s.c, Moved(b, s).callers[s.c]);
  }

  lemma MovePunctual(b: Channel, s: Step)
    requires Enabled(b, s) && Enabled(Punctual(b), Timely(s)) && !s.Timer?
    ensures Moved(Punctual(b), Timely(s)) == Punctual(Moved(b, s))
  {
    if s.Call? || CallerStep(s) { CallerMovePunctual(b, s); }
  }

  lemma StepPunctual(b: Channel, s: Step)
    requires Enabled(b, s) && !s.Timer?
    ensures Enabled(Punctual(b), Timely(s)) && Next(Punctual(b), Timely(s)) == Punctual(Next(b, s))
  {
    EnabledPunctual(b, s);
    MovePunctual(b, s);
    TurnPunctual(b, Moved(b, s), s);
  }

  /**
   * When the timer fires, the caller goes on with the send future it has. So every run is, but
   * for where futures are awaited, one in which no timer fires: the same messages in the same
   * order, the same replies, and everybody in the same place in line.
   */
  lemma {:induction false} TimerChangesNothing(b: Channel, steps: seq<Step>)
    requires ValidRun(b, steps)
    ensures ValidRun(Punctual(b), WithoutTimers(steps))
    ensures After(Punctual(b), WithoutTimers(steps)) == Punctual(After(b, steps))
    decreases |steps|
  {
    if steps != [] {
      var s, rest := steps[0], steps[1..];
      TimerChangesNothing(Next(b, s), rest);
      if s.Timer? {
        TimerKeepsPunctual(b, s.c);
        assert WithoutTimers(steps) == WithoutTimers(rest);
      } else {
        StepPunctual(b, s);
        assert WithoutTimers(steps)[0] == Timely(s) && WithoutTimers(steps)[1..] == WithoutTimers(rest);
      }
    }
  }
}
