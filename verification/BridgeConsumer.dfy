/**
 * The consumer's side of the bridge as the program runs it. Each method does to the fields
 * what steps of `Bridge` do to the value, so what holds of every run holds of the object.
 */
module BridgeConsumer {
  import opened Bridge
  import opened BridgeRuns

  /** The steps of the drain loop on a queue of `n` messages, when nothing is sent meanwhile. */
  function DrainSteps(n: nat): seq<Step> {
    if n == 0 then [DrainEmpty] else [DrainOne] + DrainSteps(n - 1)
  }

  lemma DrainUnfolds(n: nat)
    ensures DrainSteps(n) != []
    ensures DrainSteps(n)[0] == if n == 0 then DrainEmpty else DrainOne
    ensures DrainSteps(n)[1..] == if n == 0 then [] else DrainSteps(n - 1)
  {
  }

  lemma {:induction false} DrainRuns(b: Channel)
    requires b.phase == Draining
    ensures ValidRun(b, DrainSteps(|b.queue|))
    decreases |b.queue|
  {
    DrainUnfolds(|b.queue|);
    if b.queue != [] { DrainRuns(Next(b, DrainOne)); }
  }

  lemma DrainMoves(b: Channel)
    requires b.phase == Draining && b.queue != []
    ensures var b' := Next(b, DrainOne);
      b'.phase == Draining && |b'.queue| == |b.queue| - 1 && b'.drained + b'.queue == b.drained + b.queue
  {
    assert b.queue == [b.queue[0]] + b.queue[1..];
  }

  lemma RunUnfolds(b: Channel, s: Step, steps: seq<Step>, rest: seq<Step>)
    requires ValidRun(b, steps) && steps != [] && steps[0] == s && steps[1..] == rest
    ensures Enabled(b, s) && ValidRun(Next(b, s), rest) && After(Next(b, s), rest) == After(b, steps)
  {
  }

  lemma DrainStep(b: Channel)
    requires b.phase == Draining && b.queue != [] && ValidRun(b, DrainSteps(|b.queue|))
    ensures Enabled(b, DrainOne)
    ensures var b' := Next(b, DrainOne);
      && b'.phase == Draining && |b'.queue| == |b.queue| - 1 && b'.drained + b'.queue == b.drained + b.queue
      && ValidRun(b', DrainSteps(|b'.queue|))
      && After(b', DrainSteps(|b'.queue|)) == After(b, DrainSteps(|b.queue|))
  {
    DrainMoves(b);
    DrainUnfolds(|b.queue|);
    RunUnfolds(b, DrainOne, DrainSteps(|b.queue|), DrainSteps(|b.queue| - 1));
  }

  lemma DrainEnd(b: Channel)
    requires b.phase == Draining && b.queue == [] && ValidRun(b, DrainSteps(0))
    ensures After(b, DrainSteps(0)) == b.(phase := Leaving) == Next(b, DrainEmpty)
  {
    DrainUnfolds(0);
  }

  class Consumer {
    var callers: map<nat, Caller>
    var slots: map<nat, Slot>
    var queue: seq<nat>
    var line: seq<nat>
    var granted: set<nat>
    var phase: Phase
    var cancelled: bool
    var transports: bool
    ghost var enqueued: seq<nat>
    ghost var dispatched: seq<nat>
    ghost var drained: seq<nat>
    ghost var lost: seq<nat>

    ghost function Value(): Channel
      reads this
    {
      Channel(callers, slots, queue, line, granted, phase, cancelled, transports, enqueued, dispatched, drained, lost)
    }

    constructor ()
      ensures Value() == Start() && Inv(Value())
    {
      callers, slots, queue, line, granted := map[], map[], [], [], {};
      phase, cancelled, transports := Receiving, false, true;
      enqueued, dispatched, drained, lost := [], [], [], [];
    }

    /** Takes a message off; its place goes to the sender that has waited longest. */
    method TakeFirst() returns (call: nat)
      requires queue != []
      modifies `queue, `line, `granted
      ensures call == old(queue)[0] && Value() == PassOn(old(Value()).(queue := old(queue)[1..]))
    {
      call := queue[0];
      queue := queue[1..];
      if line != [] {
        granted := granted + {line[0]};
        line := line[1..];
      }
    }

    /** Takes the first message, which no one has taken before, and goes on to handle it. */
    method ReceiveNext() returns (call: nat)
      requires Inv(Value()) && Enabled(Value(), Receive)
      modifies this
      ensures Value() == Next(old(Value()), Receive) && Inv(Value())
      ensures call !in old(dispatched) && call !in queue && dispatched == old(dispatched) + [call]
    {
      StepKeepsInv(Value(), Receive);
      HeadIsNew(Value());
      call := TakeFirst();
      phase := Phase.Handling(call);
      dispatched := dispatched + [call];
    }

    /** Handling is over, well or with a panic: the call gets its one reply, and the loop goes on. */
    method HandleNext(handling: Handling)
      requires Inv(Value()) && phase.Handling?
      modifies `slots, `phase
      ensures Value() == Next(old(Value()), Handle(handling)) && Inv(Value())
      ensures old(phase).call in old(slots) && old(slots)[old(phase).call] == Unfilled
    {
      var call := phase.call;
      StepKeepsInv(Value(), Handle(handling));
      assert call in slots && SlotOk(Value(), call);
      slots := slots[call := Filled(Handled(handling))];
      phase := Receiving;
    }

    /** One turn of the drain loop. */
    method DrainFirst()
      requires Inv(Value()) && Enabled(Value(), DrainOne)
      modifies `queue, `line, `granted, `slots, `drained
      ensures Value() == Next(old(Value()), DrainOne) && Inv(Value())
    {
      StepKeepsInv(Value(), DrainOne);
      var call := TakeFirst();
      slots := slots[call := Filled(ShuttingDown)];
      drained := drained + [call];
    }

    /** Takes messages off until none is left, and tells each caller that the daemon stops. */
    method Drain()
      requires Inv(Value()) && phase == Draining
      modifies this
      ensures ValidRun(old(Value()), DrainSteps(|old(queue)|))
      ensures Value() == After(old(Value()), DrainSteps(|old(queue)|)) && Inv(Value())
      ensures queue == [] && phase == Leaving && drained == old(drained) + old(queue)
    {
      ghost var start := Value();
      DrainRuns(start);
      while queue != []
        invariant Inv(Value()) && phase == Draining && drained + queue == start.drained + start.queue
        invariant ValidRun(Value(), DrainSteps(|queue|))
        invariant After(Value(), DrainSteps(|queue|)) == After(start, DrainSteps(|start.queue|))
        decreases |queue|
      {
        DrainStep(Value());
        DrainFirst();
      }
      DrainEnd(Value());
      StepKeepsInv(Value(), DrainEmpty);
      phase := Leaving;
    }
  }
}
