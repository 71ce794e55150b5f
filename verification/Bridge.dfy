/**
 * The in-process bridge: callers send requests into a bounded channel, one consumer takes
 * them off, handles them one at a time and replies on a channel of their own. Callers, the
 * consumer, the cancellation token and the senders' end interleave as steps.
 */
module Bridge {
  import opened Options
  import opened Queues

  const BRIDGE_CHANNEL_CAPACITY: nat := 64

  datatype Response = Response(result: Option<string>, error: Option<string>)

  /** What handling one request came to: a response, or a panic that was caught. */
  datatype Handling = Responded(response: Response) | Panicked

  datatype Reply = Handled(handling: Handling) | ShuttingDown

  /** The texts the bridge itself answers with, and the value that stands for no result. */
  datatype Texts = Texts(
    panicked: string, shuttingDown: string, closedBeforeSend: string, closedBeforeReply: string, nullValue: string)

  function ResponseOf(r: Reply, texts: Texts): Response {
    match r
    case Handled(Responded(response)) => response
    case Handled(Panicked) => Response(None, Some(texts.panicked))
    case ShuttingDown => Response(None, Some(texts.shuttingDown))
  }

  /** What a caller makes of the response: the error wins, and no result is a null. */
  function CallResult(r: Response, texts: Texts): Result<string, string> {
    if r.error.Some? then Err(r.error.value) else Ok(UnwrapOr(r.result, texts.nullValue))
  }

  // ----- Steps ------------------------------------------------------------------------------------

  datatype Outcome = Answered(reply: Reply) | ClosedBeforeSend | ClosedBeforeReply

  function Returned(o: Outcome, texts: Texts): Result<string, string> {
    match o
    case Answered(r) => CallResult(ResponseOf(r, texts), texts)
    case ClosedBeforeSend => Err(texts.closedBeforeSend)
    case ClosedBeforeReply => Err(texts.closedBeforeReply)
  }

  /**
   * A caller that is sending awaits its one send future in one of two places: first beside the
   * 250 ms timer, and, once that has fired, on its own: `late`.
   */
  datatype Caller = Sending(late: bool) | AwaitingReply | Resolved(outcome: Outcome) | Gone

  /** The reply channel of a call, whose sending end travels with the message. */
  datatype Slot = Unfilled | Filled(reply: Reply) | Broken

  datatype Phase = Receiving | Handling(call: nat) | Draining | Leaving | Stopped

  datatype Channel = Channel(
    callers: map<nat, Caller>,
    slots: map<nat, Slot>,
    queue: seq<nat>,
    line: seq<nat>,
    granted: set<nat>,
    phase: Phase,
    cancelled: bool,
    transports: bool,
    enqueued: seq<nat>,
    dispatched: seq<nat>,
    drained: seq<nat>,
    lost: seq<nat>)

  function Start(): Channel {
    Channel(map[], map[], [], [], {}, Receiving, false, true, [], [], [], [])
  }

  /**
   * A place in the channel is free. Places are given out as soon as they are free: to a caller
   * that comes while nobody waits, else to the one that has waited longest. `granted` are the
   * callers that have been given one and have not used it yet.
   */
  predicate HasPlace(b: Channel) {
    |b.queue| + |b.granted| < BRIDGE_CHANNEL_CAPACITY
  }

  function Joined(b: Channel, c: nat): Channel {
    if b.line == [] && HasPlace(b) then b.(granted := b.granted + {c}) else b.(line := b.line + [c])
  }

  /** A place has become free. */
  function PassOn(b: Channel): Channel {
    if b.line == [] then b else b.(line := b.line[1..], granted := b.granted + {b.line[0]})
  }

  /** A caller that had not sent yet gives up its turn, or its place. */
  function Left(b: Channel, c: nat): Channel {
    if c in b.granted then PassOn(b.(granted := b.granted - {c})) else b.(line := Without(b.line, c))
  }

  datatype Step =
    | Call(c: nat)
    | Timer(c: nat)
    | Push(c: nat, late: bool)
    | SendFails(c: nat, late: bool)
    | Deliver(c: nat)
    | Abandon(c: nat)
    | FireCancel
    | DropTransports
    | Receive
    | Handle(handling: Handling)
    | SeeCancel
    | SeeClosed
    | DrainOne
    | DrainEmpty
    | DropReceiver

  predicate IsSending(b: Channel, c: nat) {
    c in b.callers && b.callers[c].Sending?
  }

  /** The send future is awaited in that place. */
  predicate IsSendingAt(b: Channel, c: nat, late: bool) {
    c in b.callers && b.callers[c] == Sending(late)
  }

  predicate IsAwaiting(b: Channel, c: nat) {
    c in b.callers && b.callers[c].AwaitingReply? && c in b.slots
  }

  /** Every sender is gone: the transports, and the callers, each of which holds a copy. */
  predicate SendersGone(b: Channel) {
    !b.transports && forall c :: c in b.callers ==> b.callers[c].Resolved? || b.callers[c].Gone?
  }

  predicate Enabled(b: Channel, s: Step) {
    match s
    case Call(c) => c !in b.callers && b.transports
    case Timer(c) => IsSendingAt(b, c, false)
    case Push(c, late) => IsSendingAt(b, c, late) && b.phase != Stopped && c in b.granted
    case SendFails(c, late) => IsSendingAt(b, c, late) && b.phase == Stopped
    case Deliver(c) => IsAwaiting(b, c) && b.slots[c] != Unfilled
    case Abandon(c) => IsSending(b, c) || IsAwaiting(b, c)
    case FireCancel => true
    case DropTransports => true
    case Receive => b.phase == Receiving && b.queue != []
    case Handle(_) => b.phase.Handling?
    case SeeCancel => b.phase == Receiving && b.cancelled
    case SeeClosed => b.phase == Receiving && b.queue == [] && SendersGone(b)
    case DrainOne => b.phase == Draining && b.queue != []
    case DrainEmpty => b.phase == Draining && b.queue == []
    case DropReceiver => b.phase == Leaving
  }

  function BreakAll(slots: map<nat, Slot>, queue: seq<nat>): map<nat, Slot> {
    map c | c in slots :: if c in queue then Broken else slots[c]
  }

  /** What a step does to callers, messages and the consumer. */
  function Moved(b: Channel, s: Step): Channel
    requires Enabled(b, s)
  {
    match s
    case Call(c) => b.(callers := b.callers[c := Sending(false)], slots := b.slots[c := Unfilled])
    case Timer(c) => b.(callers := b.callers[c := Sending(true)])
    case Push(c, _) =>
      b.(callers := b.callers[c := AwaitingReply], queue := b.queue + [c], enqueued := b.enqueued + [c])
    case SendFails(c, _) => b.(callers := b.callers[c := Resolved(ClosedBeforeSend)])
    case Deliver(c) =>
      var outcome := if b.slots[c] == Broken then ClosedBeforeReply else Answered(b.slots[c].reply);
      b.(callers := b.callers[c := Resolved(outcome)])
    case Abandon(c) => b.(callers := b.callers[c := Gone])
    case FireCancel => b.(cancelled := true)
    case DropTransports => b.(transports := false)
    case Receive =>
      b.(queue := b.queue[1..], phase := Handling(b.queue[0]), dispatched := b.dispatched + [b.queue[0]])
    case Handle(h) => b.(phase := Receiving, slots := b.slots[b.phase.call := Filled(Handled(h))])
    case SeeCancel => b.(phase := Draining)
    case SeeClosed => b.(phase := Draining)
    case DrainOne =>
      var call := b.queue[0];
      b.(queue := b.queue[1..], slots := b.slots[call := Filled(ShuttingDown)], drained := b.drained + [call])
    case DrainEmpty => b.(phase := Leaving)
    case DropReceiver =>
      b.(phase := Stopped, queue := [], slots := BreakAll(b.slots, b.queue), lost := b.lost + b.queue)
  }

  /** And what it does to the line of senders: `b` is the channel before, `m` the channel moved. */
  function Turned(b: Channel, m: Channel, s: Step): Channel {
    match s
    case Call(c) => Joined(m, c)
    case Push(c, _) => m.(granted := m.granted - {c})
    case Abandon(c) => if IsSending(b, c) then Left(m, c) else m
    case Receive => PassOn(m)
    case DrainOne => PassOn(m)
    case _ => m
  }

  function Next(b: Channel, s: Step): Channel
    requires Enabled(b, s)
  {
    Turned(b, Moved(b, s), s)
  }
}
