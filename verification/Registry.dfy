/**
 * The session registry: the map of open sessions, the per-session locks, the cap on new
 * sessions, and every call, close, reaper scan and crash as steps that interleave at
 * their await points. Each step is one stretch of code without an await.
 */
module Registry {
  import opened Options
  import opened Numerals
  import opened Queues

  const SESSION_IDLE_TIMEOUT_MS: nat := 300_000
  const MAX_OPEN_SESSIONS: nat := 20

  datatype Entry = Entry(lastUsed: nat, crashed: bool)

  type Sessions = map<string, Entry>

  function SessionId(millis: nat, n: nat): string {
    "sess-" + Numeral(millis, Hex) + ['-'] + Numeral(n, Hex)
  }

  lemma SessionIdInjective(a: nat, m: nat, b: nat, n: nat)
    requires SessionId(a, m) == SessionId(b, n)
    ensures m == n
  {
    SuffixUnique("sess-" + Numeral(a, Hex), "sess-" + Numeral(b, Hex), '-', m, n, Hex);
  }

  /** `id` was made by this process with a counter value below `n`. */
  ghost predicate IssuedBelow(id: string, n: nat) {
    exists ms: nat, k: nat :: k < n && id == SessionId(ms, k)
  }

  lemma NotYetIssued(ms: nat, n: nat)
    ensures !IssuedBelow(SessionId(ms, n), n) && IssuedBelow(SessionId(ms, n), n + 1)
  {
    if IssuedBelow(SessionId(ms, n), n) {
      var ms': nat, k: nat :| k < n && SessionId(ms, n) == SessionId(ms', k);
      SessionIdInjective(ms, n, ms', k);
    }
  }

  predicate HasRoom(sessions: Sessions, pending: nat) {
    |sessions| + pending < MAX_OPEN_SESSIONS
  }

  /** A saturating decrement. */
  function Freed(pending: nat): nat {
    if pending == 0 then 0 else pending - 1
  }

  // ----- The synchronous pieces, in place ----------------------------------------------

  datatype Touch = Alive | Missing | HasCrashed

  function TouchAnswer(sessions: Sessions, id: string): Touch {
    if id !in sessions then Missing else if sessions[id].crashed then HasCrashed else Alive
  }

  function Touched(sessions: Sessions, id: string, now: nat): Sessions {
    match TouchAnswer(sessions, id)
    case Missing => sessions
    case HasCrashed => sessions - {id}
    case Alive => sessions[id := sessions[id].(lastUsed := now)]
  }

  /** Saturating subtraction: a clock that went back counts as no idle time. */
  predicate Idle(e: Entry, now: nat) {
    now > e.lastUsed && now - e.lastUsed > SESSION_IDLE_TIMEOUT_MS
  }

  predicate Expired(sessions: Sessions, busy: set<string>, now: nat, id: string)
    requires id in sessions
  {
    id !in busy && Idle(sessions[id], now)
  }

  function Reaped(sessions: Sessions, busy: set<string>, now: nat): Sessions {
    map id | id in sessions && !Expired(sessions, busy, now, id) :: sessions[id]
  }

  class SessionRegistry {
    var sessions: Sessions
    var nextId: nat
    var pendingNewSessions: nat

    method TouchOrEvict(id: string, now: nat) returns (answer: Touch)
      modifies `sessions
      ensures answer == TouchAnswer(old(sessions), id) && sessions == Touched(old(sessions), id, now)
      ensures answer == Alive <==> id in sessions && !sessions[id].crashed
    {
      if id !in sessions {
        return Missing;
      }
      if sessions[id].crashed {
        sessions := sessions - {id};
        return HasCrashed;
      }
      sessions := sessions[id := sessions[id].(lastUsed := now)];
      answer := Alive;
    }

    /** Collects the expired ids first, then removes them; `busy` are the locked sessions. */
    method ReapExpired(busy: set<string>, now: nat) returns (reaped: set<string>)
      modifies `sessions
      ensures sessions == Reaped(old(sessions), busy, now)
      ensures reaped == old(sessions).Keys - sessions.Keys
    {
      reaped := set id | id in sessions && Expired(sessions, busy, now, id);
      var left := reaped;
      while left != {}
        invariant left <= reaped && sessions == old(sessions) - (reaped - left)
        decreases |left|
      {
        var id :| id in left;
        sessions := sessions - {id};
        left := left - {id};
      }
    }

    /** No id made with a smaller counter, at whatever time, is this one. */
    method NewSessionId(millis: nat) returns (id: string)
      modifies `nextId
      ensures id == SessionId(millis, old(nextId)) && nextId == old(nextId) + 1
      ensures !IssuedBelow(id, old(nextId)) && IssuedBelow(id, nextId)
    {
      id := SessionId(millis, nextId);
      NotYetIssued(millis, nextId);
      nextId := nextId + 1;
    }

    ghost predicate WithinCap()
      reads this
    {
      |sessions| + pendingNewSessions <= MAX_OPEN_SESSIONS
    }

    /** The check and the reservation are one synchronous stretch; a refusal means no room at all. */
    method TryReserve() returns (reserved: bool)
      requires WithinCap()
      modifies `pendingNewSessions
      ensures WithinCap()
      ensures if reserved then pendingNewSessions == old(pendingNewSessions) + 1
        else pendingNewSessions == old(pendingNewSessions) && |sessions| + pendingNewSessions == MAX_OPEN_SESSIONS
    {
      reserved := HasRoom(sessions, pendingNewSessions);
      if reserved {
        pendingNewSessions := pendingNewSessions + 1;
      }
    }

    /** The guard's drop gives back one reservation, and never takes one that is not there. */
    method DropSlot()
      modifies `pendingNewSessions
      ensures pendingNewSessions == Freed(old(pendingNewSessions))
    {
      pendingNewSessions := if pendingNewSessions == 0 then 0 else pendingNewSessions - 1;
    }

    /** The fields are those of the world `w` of the step system below. */
    ghost predicate Matches(w: World)
      reads this
    {
      sessions == w.sessions && nextId == w.nextId && pendingNewSessions == w.pending
    }

    /** A new-session navigate up to its first await, which is the step `Reserve`. */
    method ReserveSession(now: nat, ghost w: World, ghost t: nat) returns (id: Option<string>)
      requires Matches(w) && WithinCap() && Enabled(w, Reserve(t, now))
      modifies this
      ensures Matches(Next(w, Reserve(t, now))) && WithinCap()
      ensures Next(w, Reserve(t, now)).tasks[t] == if id.Some? then Building(id.value) else Finished(Refused)
      ensures id.Some? ==> !IssuedBelow(id.value, w.nextId)
    {
      var reserved := TryReserve();
      if !reserved {
        return None;
      }
      var made := NewSessionId(now);
      id := Some(made);
    }

    /** A new-session navigate that inserts its session and drops its guard, which is the step `Insert`. */
    method InsertSession(id: string, now: nat, crashed: bool, ghost w: World, ghost t: nat)
      requires Matches(w) && WithinCap() && pendingNewSessions > 0
      requires Enabled(w, Insert(t, now, crashed)) && w.tasks[t].id == id
      modifies this
      ensures Matches(Next(w, Insert(t, now, crashed))) && WithinCap()
    {
      sessions := sessions[id := Entry(now, crashed)];
      DropSlot();
    }

    /** One that fails or is cancelled only drops its guard, which is the step `Abandon`. */
    method AbandonSession(ghost w: World, ghost t: nat)
      requires Matches(w) && WithinCap() && Enabled(w, Abandon(t))
      modifies `pendingNewSessions
      ensures Matches(Next(w, Abandon(t))) && WithinCap()
    {
      DropSlot();
    }
  }

  // ----- The step system ------------------------------------------------------------------

  /** A fair lock: released, it passes straight to the first in the queue. */
  datatype Lock = Lock(holder: Option<nat>, queue: seq<nat>)

  datatype Kind = Call | Close

  datatype Ending = Success | NotFound | SessionCrashed | Refused | Cancelled | Panicked

  /**
   * Where a task stands. `Holding` has the lock but has not looked at the map since;
   * `Working` is a call that found its session under the lock; `Closing` is a close that
   * removed its session; `Building` is a new-session navigate with a reserved slot, whose
   * page may crash before the session is inserted.
   */
  datatype Task =
    | Waiting(kind: Kind, id: string)
    | Holding(kind: Kind, id: string)
    | Working(id: string)
    | Closing(id: string)
    | Building(id: string)
    | Finished(result: Ending)

  /** Why a session is no longer in the map. */
  datatype Cause = ClosedBy(t: nat) | Evicted | WasReaped

  datatype World = World(
    sessions: Sessions,
    locks: map<string, Lock>,
    gone: map<string, Cause>,
    tasks: map<nat, Task>,
    pending: nat,
    nextId: nat)

  function Start(): World {
    World(map[], map[], map[], map[], 0, 0)
  }

  /**
   * A call that gets to its end takes the step `Finish`; `ok` is false only for a navigate that
   * got to a blocked page. One that fails earlier, or is cancelled, takes the step `Leave`.
   */
  datatype Step =
    | Begin(t: nat, kind: Kind, id: string, now: nat)
    | TouchOnly(t: nat, id: string, now: nat)
    | Check(t: nat)
    | Expect(t: nat)
    | Finish(t: nat, ok: bool, now: nat)
    | Leave(t: nat, result: Ending)
    | Remove(t: nat)
    | CloseDone(t: nat)
    | Reserve(t: nat, now: nat)
    | Insert(t: nat, now: nat, crashed: bool)
    | Abandon(t: nat)
    | Reap(now: nat)
    | Crash(id: string)

  predicate Enabled(w: World, s: Step) {
    match s
    case Begin(t, _, _, _) => t !in w.tasks
    case TouchOnly(t, _, _) => t !in w.tasks
    case Reserve(t, _) => t !in w.tasks
    case Check(t) => t in w.tasks && w.tasks[t].Holding? && w.tasks[t].kind == Call
    case Expect(t) => t in w.tasks && w.tasks[t].Working?
    case Finish(t, _, _) => t in w.tasks && w.tasks[t].Working?
    case Leave(t, result) =>
      t in w.tasks && !w.tasks[t].Finished? && !w.tasks[t].Building? && result in {Refused, Cancelled}
    case Remove(t) => t in w.tasks && w.tasks[t].Holding? && w.tasks[t].kind == Close
    case CloseDone(t) => t in w.tasks && w.tasks[t].Closing?
    case Insert(t, _, _) => t in w.tasks && w.tasks[t].Building?
    case Abandon(t) => t in w.tasks && w.tasks[t].Building?
    case Reap(_) => true
    case Crash(id) => id in w.sessions
  }

  function LockOf(w: World, id: string): Lock {
    if id in w.locks then w.locks[id] else Lock(None, [])
  }

  /** Lets go of the lock of `id`: the next in the queue now holds it. */
  function Release(w: World, id: string): World {
    var l := LockOf(w, id);
    if l.queue == [] then w.(locks := w.locks[id := Lock(None, [])]) else
      var next := l.queue[0];
      w.(locks := w.locks[id := Lock(Some(next), l.queue[1..])],
         tasks := if next in w.tasks && w.tasks[next].Waiting?
                  then w.tasks[next := Holding(w.tasks[next].kind, w.tasks[next].id)] else w.tasks)
  }

  /** A task ends: it stops waiting for its lock, or lets go of it. */
  function End(w: World, t: nat, result: Ending): World
    requires t in w.tasks && !w.tasks[t].Finished?
  {
    var id := w.tasks[t].id;
    var w' := w.(tasks := w.tasks[t := Finished(result)]);
    if w.tasks[t].Building? then w'
    else if w.tasks[t].Waiting? then
      w'.(locks := w.locks[id := LockOf(w, id).(queue := Without(LockOf(w, id).queue, t))])
    else Release(w', id)
  }

  function Evict(w: World, id: string, now: nat): World {
    w.(sessions := Touched(w.sessions, id, now),
       gone := if TouchAnswer(w.sessions, id) == HasCrashed then w.gone[id := Evicted] else w.gone)
  }

  /** The first poll of the lock: taken if free, else a place in the queue. */
  function Acquire(w: World, t: nat, kind: Kind, id: string): World {
    var l := LockOf(w, id);
    if l.holder == None then
      w.(locks := w.locks[id := l.(holder := Some(t))], tasks := w.tasks[t := Holding(kind, id)])
    else
      w.(locks := w.locks[id := l.(queue := l.queue + [t])], tasks := w.tasks[t := Waiting(kind, id)])
  }

  function BeginTask(w: World, t: nat, kind: Kind, id: string, now: nat): World {
    var w' := Evict(w, id, now);
    match TouchAnswer(w.sessions, id)
    case Missing => w'.(tasks := w.tasks[t := Finished(NotFound)])
    case HasCrashed => w'.(tasks := w.tasks[t := Finished(SessionCrashed)])
    case Alive => Acquire(w', t, kind, id)
  }

  /** A call that gets to its end records when; one that leaves before keeps the time of its own lookup. */
  function Bump(w: World, id: string, now: nat): World {
    if id in w.sessions then w.(sessions := w.sessions[id := w.sessions[id].(lastUsed := now)]) else w
  }

  function Busy(w: World): set<string> {
    set id | id in w.locks && w.locks[id].holder.Some?
  }

  function ReapStep(w: World, now: nat): World {
    var kept := Reaped(w.sessions, Busy(w), now);
    w.(sessions := kept,
       gone := map id | id in w.gone.Keys + (w.sessions.Keys - kept.Keys) ::
         if id in w.gone then w.gone[id] else WasReaped)
  }

  function Next(w: World, s: Step): World
    requires Enabled(w, s)
  {
    match s
    case Begin(t, kind, id, now) => BeginTask(w, t, kind, id, now)
    case TouchOnly(t, id, now) =>
      Evict(w, id, now).(tasks := w.tasks[t := Finished(
        match TouchAnswer(w.sessions, id)
        case Missing => NotFound case HasCrashed => SessionCrashed case Alive => Success)])
    case Check(t) =>
      if w.tasks[t].id in w.sessions then w.(tasks := w.tasks[t := Working(w.tasks[t].id)])
      else End(w, t, NotFound)
    case Expect(t) => if w.tasks[t].id in w.sessions then w else End(w, t, Panicked)
    case Finish(t, ok, now) =>
      End(Bump(w, w.tasks[t].id, now), t, if ok then Success else Refused)
    case Leave(t, result) => End(w, t, result)
    case Remove(t) =>
      var id := w.tasks[t].id;
      if id in w.sessions then
        w.(sessions := w.sessions - {id}, gone := w.gone[id := ClosedBy(t)], tasks := w.tasks[t := Closing(id)])
      else End(w, t, Panicked)
    case CloseDone(t) => End(w, t, Success)
    case Reserve(t, now) =>
      if !HasRoom(w.sessions, w.pending) then w.(tasks := w.tasks[t := Finished(Refused)])
      else w.(tasks := w.tasks[t := Building(SessionId(now, w.nextId))],
              pending := w.pending + 1, nextId := w.nextId + 1)
    case Insert(t, now, crashed) =>
      var id := w.tasks[t].id;
      w.(sessions := w.sessions[id := Entry(now, crashed)], locks := w.locks[id := Lock(None, [])],
         tasks := w.tasks[t := Finished(Success)], pending := Freed(w.pending))
    case Abandon(t) =>
      w.(tasks := w.tasks[t := Finished(Cancelled)], pending := Freed(w.pending))
    case Reap(now) => ReapStep(w, now)
    case Crash(id) => w.(sessions := w.sessions[id := w.sessions[id].(crashed := true)])
  }
}
