/**
 * What holds in every interleaving of calls, closes, new-session navigates, reaper scans
 * and crashes.
 */
module RegistryRuns {
  import opened Options
  import opened Queues
  import opened Registry

  // ----- Locks -----------------------------------------------------------------------------

  predicate HasLock(k: Task, id: string) {
    (k.Holding? || k.Working? || k.Closing?) && k.id == id
  }

  predicate WaitsFor(k: Task, id: string) {
    k.Waiting? && k.id == id
  }

  predicate Holds(w: World, t: nat, id: string) {
    t in w.tasks && HasLock(w.tasks[t], id)
  }

  predicate Waits(w: World, t: nat, id: string) {
    t in w.tasks && WaitsFor(w.tasks[t], id)
  }

  /** The lock of `id` agrees with the tasks: one holder, and a queue of those that wait. */
  ghost predicate LockOk(w: World, id: string) {
    var l := LockOf(w, id);
    && (forall t: nat :: Holds(w, t, id) <==> l.holder == Some(t))
    && (forall t: nat :: Waits(w, t, id) <==> t in l.queue)
    && NoRepeat(l.queue) && (l.holder == None ==> l.queue == [])
  }

  ghost predicate LocksOk(w: World) {
    forall id :: LockOk(w, id)
  }

  /** The lock of a task that ends passes to the head of the queue, or becomes free. */
  lemma ReleaseKeepsLock(w: World, t: nat, result: Ending, id: string)
    requires LocksOk(w) && Holds(w, t, id)
    ensures LockOk(End(w, t, result), id)
  {
    var w', l := End(w, t, result), LockOf(w, id);
    assert LockOk(w, id);
    if l.queue != [] {
      var next := l.queue[0];
      TailNoRepeat(l.queue);
      assert next in l.queue && Waits(w, next, id);
      assert w'.tasks == w.tasks[t := Finished(result)][next := Holding(w.tasks[next].kind, id)];
      assert LockOf(w', id) == Lock(Some(next), l.queue[1..]);
    }
  }

  lemma LeaveQueueKeepsLock(w: World, t: nat, result: Ending, id: string)
    requires LocksOk(w) && Waits(w, t, id)
    ensures LockOk(End(w, t, result), id)
  {
    assert LockOk(w, id);
    WithoutMembers(LockOf(w, id).queue, t);
  }

  /** Ending touches no other session's tasks: whoever is next in line waits for the same lock. */
  lemma EndKeepsOtherTasks(w: World, t: nat, result: Ending, other: string, u: nat)
    requires LocksOk(w) && t in w.tasks && !w.tasks[t].Finished? && (w.tasks[t].Building? || other != w.tasks[t].id)
    ensures var w' := End(w, t, result);
      Holds(w', u, other) == Holds(w, u, other) && Waits(w', u, other) == Waits(w, u, other)
  {
    var q := LockOf(w, w.tasks[t].id).queue;
    assert LockOk(w, w.tasks[t].id);
    if q != [] { assert q[0] in q && Waits(w, q[0], w.tasks[t].id); }
  }

  lemma EndKeepsOtherLock(w: World, t: nat, result: Ending, other: string)
    requires LocksOk(w) && t in w.tasks && !w.tasks[t].Finished? && (w.tasks[t].Building? || other != w.tasks[t].id)
    ensures LockOk(End(w, t, result), other)
  {
    var w' := End(w, t, result);
    assert LockOf(w', other) == LockOf(w, other) && LockOk(w, other);
    forall u: nat ensures Holds(w', u, other) == Holds(w, u, other) && Waits(w', u, other) == Waits(w, u, other) {
      EndKeepsOtherTasks(w, t, result, other, u);
    }
  }

  lemma EndKeepsLocks(w: World, t: nat, result: Ending)
    requires LocksOk(w) && t in w.tasks && !w.tasks[t].Finished?
    ensures LocksOk(End(w, t, result))
  {
    var id := w.tasks[t].id;
    forall other ensures LockOk(End(w, t, result), other) {
      if w.tasks[t].Building? || other != id {
        EndKeepsOtherLock(w, t, result, other);
      } else if w.tasks[t].Waiting? {
        LeaveQueueKeepsLock(w, t, result, id);
      } else {
        ReleaseKeepsLock(w, t, result, id);
      }
    }
  }

  /** Everything an ending changes besides the lock: the task, and whoever is next in line. */
  ghost predicate EndsLike(w: World, w': World, t: nat, result: Ending) {
    && w'.sessions == w.sessions && w'.gone == w.gone && w'.tasks.Keys == w.tasks.Keys
    && t in w.tasks && w'.tasks[t] == Finished(result)
    && forall u :: u in w.tasks && u != t ==>
         || w'.tasks[u] == w.tasks[u]
         || (w.tasks[u].Waiting? && w'.tasks[u] == Holding(w.tasks[u].kind, w.tasks[u].id))
  }

  lemma EndEffect(w: World, t: nat, result: Ending)
    requires LocksOk(w) && t in w.tasks && !w.tasks[t].Finished?
    ensures EndsLike(w, End(w, t, result), t, result)
  {
    var id := w.tasks[t].id;
    assert LockOk(w, id);
    var q := LockOf(w, id).queue;
    if q != [] { assert q[0] in q && Waits(w, q[0], id); }
  }

  lemma AcquireKeepsLocks(w: World, t: nat, kind: Kind, id: string)
    requires LocksOk(w) && t !in w.tasks
    ensures LocksOk(Acquire(w, t, kind, id))
  {
    var w' := Acquire(w, t, kind, id);
    forall other ensures LockOk(w', other) {
      assert LockOk(w, other);
      if other == id { AcquireKeepsLock(w, t, kind, id); }
    }
  }

  lemma AcquireKeepsLock(w: World, t: nat, kind: Kind, id: string)
    requires LockOk(w, id) && t !in w.tasks
    ensures LockOk(Acquire(w, t, kind, id), id)
  {
    var w', l := Acquire(w, t, kind, id), LockOf(w, id);
    assert !Waits(w, t, id) && !Holds(w, t, id);
    if l.holder != None { assert LockOf(w', id).queue == l.queue + [t]; }
  }

  /** The locks only depend on the lock map and on which tasks hold or wait. */
  lemma RelabelKeepsLocks(w: World, w': World, t: nat, k: Task)
    requires LocksOk(w) && w'.tasks == w.tasks[t := k]
    requires forall id :: LockOf(w', id) == LockOf(w, id)
    requires forall id :: HasLock(k, id) <==> Holds(w, t, id)
    requires forall id :: WaitsFor(k, id) <==> Waits(w, t, id)
    ensures LocksOk(w')
  {
    forall id ensures LockOk(w', id) { assert LockOk(w, id); }
  }

  lemma SameLocks(w: World, w': World)
    requires LocksOk(w) && w'.tasks == w.tasks && w'.locks == w.locks
    ensures LocksOk(w')
  {
    forall id ensures LockOk(w', id) { assert LockOk(w, id); }
  }

  lemma BeginKeepsLocks(w: World, t: nat, kind: Kind, id: string, now: nat)
    requires LocksOk(w) && t !in w.tasks
    ensures LocksOk(BeginTask(w, t, kind, id, now))
  {
    SameLocks(w, Evict(w, id, now));
    if TouchAnswer(w.sessions, id) == Alive {
      AcquireKeepsLocks(Evict(w, id, now), t, kind, id);
    } else {
      var w' := BeginTask(w, t, kind, id, now);
      RelabelKeepsLocks(w, w', t, w'.tasks[t]);
    }
  }

  lemma FinishKeepsLocks(w: World, t: nat, ok: bool, now: nat)
    requires LocksOk(w) && Enabled(w, Finish(t, ok, now))
    ensures LocksOk(Next(w, Finish(t, ok, now)))
  {
    var w' := Bump(w, w.tasks[t].id, now);
    SameLocks(w, w');
    EndKeepsLocks(w', t, if ok then Success else Refused);
  }

  lemma HolderStepKeepsLocks(w: World, s: Step)
    requires LocksOk(w) && Enabled(w, s) && (s.Check? || s.Expect? || s.Remove? || s.CloseDone? || s.Leave?)
    ensures LocksOk(Next(w, s))
  {
    var w', t := Next(w, s), s.t;
    if s.Leave? {
      EndKeepsLocks(w, t, s.result);
    } else if s.CloseDone? {
      EndKeepsLocks(w, t, Success);
    } else if w.tasks[t].id !in w.sessions {
      EndKeepsLocks(w, t, if s.Check? then NotFound else Panicked);
    } else if !s.Expect? {
      RelabelKeepsLocks(w, w', t, w'.tasks[t]);
    }
  }

  lemma StepKeepsLocks(w: World, s: Step)
    requires LocksOk(w) && Enabled(w, s)
    requires s.Insert? ==> LockOf(w, w.tasks[s.t].id) == Lock(None, [])
    ensures LocksOk(Next(w, s))
  {
    match s
    case Begin(t, kind, id, now) => BeginKeepsLocks(w, t, kind, id, now);
    case Finish(t, ok, now) => FinishKeepsLocks(w, t, ok, now);
    case Reap(_) => SameLocks(w, Next(w, s));
    case Crash(_) => SameLocks(w, Next(w, s));
    case TouchOnly(t, _, _) => RelabelKeepsLocks(w, Next(w, s), t, Next(w, s).tasks[t]);
    case Reserve(t, _) => RelabelKeepsLocks(w, Next(w, s), t, Next(w, s).tasks[t]);
    case Insert(t, _, _) => RelabelKeepsLocks(w, Next(w, s), t, Next(w, s).tasks[t]);
    case Abandon(t) => RelabelKeepsLocks(w, Next(w, s), t, Next(w, s).tasks[t]);
    case _ => HolderStepKeepsLocks(w, s);
  }

  // ----- What became of a session ------------------------------------------------------------

  /** Gone through a crash or another task's close, and never through the reaper. */
  ghost predicate LostTo(w: World, id: string, t: nat) {
    id in w.gone && (w.gone[id] == Evicted || (w.gone[id].ClosedBy? && w.gone[id].t != t))
  }

  /** Why a task queued for, or holding, the lock of its session may find the session gone. */
  ghost predicate Explained(w: World, t: nat)
    requires t in w.tasks
  {
    match w.tasks[t]
    case Waiting(_, id) => id in w.sessions || LostTo(w, id, t)
    case Holding(_, id) => id in w.sessions || LostTo(w, id, t)
    case Working(id) => id in w.sessions || (id in w.gone && w.gone[id] == Evicted)
    case Closing(id) => id in w.gone && w.gone[id] == ClosedBy(t)
    case _ => true
  }

  ghost predicate GoneOk(w: World) {
    && w.sessions.Keys !! w.gone.Keys
    && w.locks.Keys == w.sessions.Keys + w.gone.Keys
    && forall t :: t in w.tasks ==> Explained(w, t)
  }

  /** A task's ending changes no one else's explanation: it only promotes the next in line. */
  lemma EndKeepsGone(w: World, t: nat, result: Ending)
    requires GoneOk(w) && LocksOk(w) && t in w.tasks && !w.tasks[t].Finished?
    ensures GoneOk(End(w, t, result))
  {
    EndEffect(w, t, result);
    EndKeepsLockKeys(w, t, result);
    var w' := End(w, t, result);
    forall u | u in w'.tasks ensures Explained(w', u) {
      assert Explained(w, u);
    }
  }

  lemma EndKeepsLockKeys(w: World, t: nat, result: Ending)
    requires LocksOk(w) && t in w.tasks && !w.tasks[t].Finished?
    ensures End(w, t, result).locks.Keys == w.locks.Keys
  {
    if !w.tasks[t].Building? { EngagedIsBusy(w, t); }
  }

  lemma EvictKeepsGone(w: World, id: string, now: nat)
    requires GoneOk(w)
    ensures GoneOk(Evict(w, id, now))
  {
    var w' := Evict(w, id, now);
    forall u | u in w'.tasks ensures Explained(w', u) { assert Explained(w, u); }
  }

  lemma AcquireKeepsGone(w: World, t: nat, kind: Kind, id: string)
    requires GoneOk(w) && t !in w.tasks && id in w.sessions
    ensures GoneOk(Acquire(w, t, kind, id))
  {
    var w' := Acquire(w, t, kind, id);
    forall u | u in w'.tasks ensures Explained(w', u) {
      if u != t { assert Explained(w, u); }
    }
  }

  /** The reaper leaves alone whatever a task holds or waits for. */
  lemma ReapKeepsGone(w: World, now: nat)
    requires GoneOk(w) && LocksOk(w)
    ensures GoneOk(ReapStep(w, now))
  {
    var w' := ReapStep(w, now);
    forall u | u in w'.tasks ensures Explained(w', u) {
      assert Explained(w, u);
      if !w.tasks[u].Finished? && !w.tasks[u].Building? && w.tasks[u].id in w.sessions {
        EngagedIsBusy(w, u);
      }
    }
  }

  lemma EngagedIsBusy(w: World, t: nat)
    requires LocksOk(w) && t in w.tasks && !w.tasks[t].Finished? && !w.tasks[t].Building?
    ensures w.tasks[t].id in Busy(w)
  {
    var id := w.tasks[t].id;
    assert LockOk(w, id) && (Holds(w, t, id) || Waits(w, t, id));
    assert LockOf(w, id).holder.Some?;
  }

  /** A close removes its session while it holds the lock, so no call is at work on it. */
  lemma RemoveKeepsGone(w: World, t: nat)
    requires GoneOk(w) && LocksOk(w) && Enabled(w, Remove(t))
    ensures GoneOk(Next(w, Remove(t)))
  {
    var id, w' := w.tasks[t].id, Next(w, Remove(t));
    if id !in w.sessions {
      EndKeepsGone(w, t, Panicked);
    } else {
      assert LockOk(w, id) && Holds(w, t, id);
      forall u | u in w'.tasks ensures Explained(w', u) {
        if u != t {
          assert Explained(w, u);
          assert !Holds(w, u, id);
        }
      }
    }
  }

  lemma RelabelKeepsGone(w: World, w': World, t: nat, k: Task)
    requires GoneOk(w) && w'.tasks == w.tasks[t := k]
    requires w'.sessions.Keys == w.sessions.Keys && w'.gone == w.gone && w'.locks == w.locks
    requires k.Finished? || k.Building? || (k.Working? && k.id in w.sessions)
    ensures GoneOk(w')
  {
    forall u | u in w'.tasks ensures Explained(w', u) {
      if u != t { assert Explained(w, u); }
    }
  }

  lemma InsertKeepsGone(w: World, t: nat, now: nat, crashed: bool)
    requires GoneOk(w) && Enabled(w, Insert(t, now, crashed)) && w.tasks[t].id !in w.locks
    ensures GoneOk(Next(w, Insert(t, now, crashed)))
  {
    var w' := Next(w, Insert(t, now, crashed));
    forall u | u in w'.tasks ensures Explained(w', u) {
      if u != t { assert Explained(w, u); }
    }
  }

  lemma CrashKeepsGone(w: World, id: string)
    requires GoneOk(w) && Enabled(w, Crash(id))
    ensures GoneOk(Next(w, Crash(id)))
  {
    var w' := Next(w, Crash(id));
    forall u | u in w'.tasks ensures Explained(w', u) { assert Explained(w, u); }
  }

  lemma BeginKeepsGone(w: World, t: nat, kind: Kind, id: string, now: nat)
    requires GoneOk(w) && t !in w.tasks
    ensures GoneOk(BeginTask(w, t, kind, id, now))
  {
    var w' := Evict(w, id, now);
    EvictKeepsGone(w, id, now);
    if TouchAnswer(w.sessions, id) == Alive {
      AcquireKeepsGone(w', t, kind, id);
    } else {
      RelabelKeepsGone(w', BeginTask(w, t, kind, id, now), t, BeginTask(w, t, kind, id, now).tasks[t]);
    }
  }

  lemma FinishKeepsGone(w: World, t: nat, ok: bool, now: nat)
    requires GoneOk(w) && LocksOk(w) && Enabled(w, Finish(t, ok, now))
    ensures GoneOk(Next(w, Finish(t, ok, now)))
  {
    var w' := Bump(w, w.tasks[t].id, now);
    SameLocks(w, w');
    assert GoneOk(w') by {
      forall u | u in w'.tasks ensures Explained(w', u) { assert Explained(w, u); }
    }
    EndKeepsGone(w', t, if ok then Success else Refused);
  }

  lemma StepKeepsGone(w: World, s: Step)
    requires GoneOk(w) && LocksOk(w) && Enabled(w, s)
    requires s.Insert? ==> w.tasks[s.t].id !in w.locks
    ensures GoneOk(Next(w, s))
  {
    match s
    case Begin(t, kind, id, now) => BeginKeepsGone(w, t, kind, id, now);
    case TouchOnly(t, id, now) =>
      EvictKeepsGone(w, id, now);
      RelabelKeepsGone(Evict(w, id, now), Next(w, s), t, Next(w, s).tasks[t]);
    case Finish(t, ok, now) => FinishKeepsGone(w, t, ok, now);
    case Remove(t) => RemoveKeepsGone(w, t);
    case Reserve(t, now) => ReserveKeepsGone(w, t, now);
    case Insert(t, now, crashed) => InsertKeepsGone(w, t, now, crashed);
    case Abandon(t) => AbandonKeepsGone(w, t);
    case Reap(now) => ReapKeepsGone(w, now);
    case Crash(id) => CrashKeepsGone(w, id);
    case _ => HolderStepKeepsGone(w, s);
  }

  lemma ReserveKeepsGone(w: World, t: nat, now: nat)
    requires GoneOk(w) && Enabled(w, Reserve(t, now))
    ensures GoneOk(Next(w, Reserve(t, now)))
  {
    if HasRoom(w.sessions, w.pending) {
      BuildKeepsGone(w, t, SessionId(now, w.nextId));
    } else {
      RelabelKeepsGone(w, Next(w, Reserve(t, now)), t, Finished(Refused));
    }
  }

  lemma AbandonKeepsGone(w: World, t: nat)
    requires GoneOk(w) && Enabled(w, Abandon(t))
    ensures GoneOk(Next(w, Abandon(t)))
  {
    RelabelKeepsGone(w, Next(w, Abandon(t)), t, Finished(Cancelled));
  }

  lemma BuildKeepsGone(w: World, t: nat, id: string)
    requires GoneOk(w)
    ensures GoneOk(w.(tasks := w.tasks[t := Building(id)], pending := w.pending + 1, nextId := w.nextId + 1))
  {
    var w' := w.(tasks := w.tasks[t := Building(id)], pending := w.pending + 1, nextId := w.nextId + 1);
    RelabelKeepsGone(w, w', t, Building(id));
  }

  lemma HolderStepKeepsGone(w: World, s: Step)
    requires GoneOk(w) && LocksOk(w) && Enabled(w, s) && (s.Check? || s.Expect? || s.CloseDone? || s.Leave?)
    ensures GoneOk(Next(w, s))
  {
    var w', t := Next(w, s), s.t;
    if s.Leave? {
      EndKeepsGone(w, t, s.result);
    } else if s.CloseDone? {
      EndKeepsGone(w, t, Success);
    } else if w.tasks[t].id !in w.sessions {
      EndKeepsGone(w, t, if s.Check? then NotFound else Panicked);
    } else if s.Check? {
      RelabelKeepsGone(w, w', t, w'.tasks[t]);
    }
  }

  // ----- The cap on open sessions ---------------------------------------------------------------

  ghost function Builders(w: World): set<nat> {
    set t | t in w.tasks && w.tasks[t].Building?
  }

  /** Ids in use are issued ones, and a session being built has one of its own. */
  ghost predicate IdsOk(w: World) {
    && (forall id :: id in w.locks ==> IssuedBelow(id, w.nextId))
    && (forall t :: t in Builders(w) ==> IssuedBelow(w.tasks[t].id, w.nextId) && w.tasks[t].id !in w.locks)
    && (forall t, u :: t in Builders(w) && u in Builders(w) && t != u ==> w.tasks[t].id != w.tasks[u].id)
  }

  ghost predicate CapOk(w: World) {
    w.pending == |Builders(w)| && |w.sessions| + w.pending <= MAX_OPEN_SESSIONS
  }

  lemma IssuedMore(id: string, n: nat)
    requires IssuedBelow(id, n)
    ensures IssuedBelow(id, n + 1)
  {
    var ms: nat, k: nat :| k < n && id == SessionId(ms, k);
  }

  lemma ReserveKeepsCap(w: World, t: nat, now: nat)
    requires IdsOk(w) && CapOk(w) && Enabled(w, Reserve(t, now))
    ensures IdsOk(Next(w, Reserve(t, now))) && CapOk(Next(w, Reserve(t, now)))
  {
    var w' := Next(w, Reserve(t, now));
    if |w.sessions| + w.pending >= MAX_OPEN_SESSIONS {
      assert Builders(w') == Builders(w);
    } else {
      NotYetIssued(now, w.nextId);
      BuilderKeepsCap(w, w', t, SessionId(now, w.nextId));
      BuilderKeepsIds(w, w', t, SessionId(now, w.nextId));
    }
  }

  ghost predicate Builds(w: World, w': World, t: nat, id: string) {
    && t !in w.tasks
    && w' == w.(tasks := w.tasks[t := Building(id)], pending := w.pending + 1, nextId := w.nextId + 1)
  }

  lemma BuilderKeepsCap(w: World, w': World, t: nat, id: string)
    requires CapOk(w) && Builds(w, w', t, id) && |w.sessions| + w.pending < MAX_OPEN_SESSIONS
    ensures Builders(w') == Builders(w) + {t} && CapOk(w')
  {
    assert Builders(w') == Builders(w) + {t};
  }

  lemma BuilderKeepsIds(w: World, w': World, t: nat, id: string)
    requires IdsOk(w) && Builds(w, w', t, id) && Builders(w') == Builders(w) + {t}
    requires !IssuedBelow(id, w.nextId) && IssuedBelow(id, w.nextId + 1)
    ensures IdsOk(w')
  {
    forall other | other in w'.locks ensures IssuedBelow(other, w'.nextId) && other != id {
      IssuedMore(other, w.nextId);
    }
    forall u | u in Builders(w) ensures IssuedBelow(w'.tasks[u].id, w'.nextId) && w'.tasks[u].id != id {
      IssuedMore(w.tasks[u].id, w.nextId);
    }
  }

  /** One builder less; its id, which was its own, may now be in use. */
  lemma UnbuildKeepsIds(w: World, w': World, t: nat)
    requires IdsOk(w) && t in Builders(w) && w'.nextId == w.nextId
    requires Builders(w') == Builders(w) - {t} && (forall u :: u in Builders(w') ==> w'.tasks[u] == w.tasks[u])
    requires w'.locks.Keys <= w.locks.Keys + {w.tasks[t].id}
    ensures IdsOk(w')
  {
  }

  lemma InsertKeepsCap(w: World, t: nat, now: nat, crashed: bool)
    requires IdsOk(w) && CapOk(w) && Enabled(w, Insert(t, now, crashed)) && w.sessions.Keys <= w.locks.Keys
    ensures IdsOk(Next(w, Insert(t, now, crashed))) && CapOk(Next(w, Insert(t, now, crashed)))
    ensures w.tasks[t].id !in w.locks && w.tasks[t].id !in w.sessions
  {
    var w' := Next(w, Insert(t, now, crashed));
    assert t in Builders(w) && Builders(w') == Builders(w) - {t};
    UnbuildKeepsIds(w, w', t);
  }

  lemma AbandonKeepsCap(w: World, t: nat)
    requires IdsOk(w) && CapOk(w) && Enabled(w, Abandon(t))
    ensures IdsOk(Next(w, Abandon(t))) && CapOk(Next(w, Abandon(t)))
  {
    var w' := Next(w, Abandon(t));
    OneBuilderLess(w, w', t);
    UnbuildKeepsIds(w, w', t);
  }

  lemma OneBuilderLess(w: World, w': World, t: nat)
    requires t in w.tasks && w.tasks[t].Building? && t in w'.tasks && w'.tasks == w.tasks[t := w'.tasks[t]]
    requires !w'.tasks[t].Building?
    ensures t in Builders(w) && Builders(w') == Builders(w) - {t} && |Builders(w')| == |Builders(w)| - 1
  {
    assert Builders(w') == Builders(w) - {t};
  }

  lemma OtherKeepsCap(w: World, s: Step)
    requires IdsOk(w) && CapOk(w) && GoneOk(w) && LocksOk(w)
    requires Enabled(w, s) && !s.Reserve? && !s.Insert? && !s.Abandon?
    ensures IdsOk(Next(w, s)) && CapOk(Next(w, s))
  {
    var w' := Next(w, s);
    OtherFrame(w, s);
    ShrinkOrSame(w.sessions, w'.sessions);
  }

  /** The builders and the known ids stay, and no session is added. */
  ghost predicate SameBuilders(w: World, w': World) {
    && Builders(w') == Builders(w) && w'.pending == w.pending && w'.nextId == w.nextId
    && (forall t :: t in Builders(w) ==> w'.tasks[t] == w.tasks[t])
    && w'.locks.Keys == w.locks.Keys && w'.sessions.Keys <= w.sessions.Keys
  }

  lemma OtherFrame(w: World, s: Step)
    requires GoneOk(w) && LocksOk(w) && Enabled(w, s) && !s.Reserve? && !s.Insert? && !s.Abandon?
    ensures SameBuilders(w, Next(w, s))
  {
    match s
    case Begin(t, kind, id, now) => if TouchAnswer(w.sessions, id) == Alive { assert id in w.locks; }
    case TouchOnly(_, _, _) =>
    case Reap(_) =>
    case Crash(_) =>
    case Finish(t, ok, now) =>
      var w0 := Bump(w, w.tasks[t].id, now);
      SameLocks(w, w0);
      EndFrame(w0, t, if ok then Success else Refused);
      assert SameBuilders(w, w0);
    case _ => HolderFrame(w, s);
  }

  lemma HolderFrame(w: World, s: Step)
    requires LocksOk(w) && Enabled(w, s) && (s.Check? || s.Expect? || s.Remove? || s.CloseDone? || s.Leave?)
    ensures SameBuilders(w, Next(w, s))
  {
    if s.Leave? {
      EndFrame(w, s.t, s.result);
    } else if s.CloseDone? {
      EndFrame(w, s.t, Success);
    } else if w.tasks[s.t].id !in w.sessions {
      EndFrame(w, s.t, if s.Check? then NotFound else Panicked);
    }
  }

  lemma EndFrame(w: World, t: nat, result: Ending)
    requires LocksOk(w) && t in w.tasks && !w.tasks[t].Finished? && !w.tasks[t].Building?
    ensures SameBuilders(w, End(w, t, result))
  {
    EndEffect(w, t, result);
    EndKeepsLockKeys(w, t, result);
  }

  lemma ShrinkOrSame(a: Sessions, b: Sessions)
    requires b.Keys <= a.Keys
    ensures |b| <= |a|
  {
    var rest := a.Keys - b.Keys;
    assert a.Keys == b.Keys + rest;
    assert |a.Keys| == |b.Keys| + |rest|;
    assert |a| == |a.Keys| && |b| == |b.Keys|;
  }

  // ----- Runs ---------------------------------------------------------------------------------

  ghost predicate Inv(w: World) {
    LocksOk(w) && GoneOk(w) && IdsOk(w) && CapOk(w)
  }

  lemma StepKeepsInv(w: World, s: Step)
    requires Inv(w) && Enabled(w, s)
    ensures Inv(Next(w, s))
  {
    if s.Reserve? {
      ReserveKeepsCap(w, s.t, s.now);
    } else if s.Insert? {
      InsertKeepsCap(w, s.t, s.now, s.crashed);
    } else if s.Abandon? {
      AbandonKeepsCap(w, s.t);
    } else {
      OtherKeepsCap(w, s);
    }
    StepKeepsLocks(w, s);
    StepKeepsGone(w, s);
  }

  ghost predicate ValidRun(w: World, steps: seq<Step>)
    decreases |steps|
  {
    steps != [] ==> Enabled(w, steps[0]) && ValidRun(Next(w, steps[0]), steps[1..])
  }

  ghost function After(w: World, steps: seq<Step>): World
    requires ValidRun(w, steps)
    decreases |steps|
  {
    if steps == [] then w else After(Next(w, steps[0]), steps[1..])
  }

  lemma StartInv()
    ensures Inv(Start())
  {
    assert Builders(Start()) == {};
  }

  lemma {:induction false} RunKeepsInv(w: World, steps: seq<Step>)
    requires Inv(w) && ValidRun(w, steps)
    ensures Inv(After(w, steps))
    decreases |steps|
  {
    if steps != [] {
      StepKeepsInv(w, steps[0]);
      RunKeepsInv(Next(w, steps[0]), steps[1..]);
    }
  }
}
