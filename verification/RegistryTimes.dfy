/**
 * What lookups answer, who is refused a session, and whom the reaper takes, in every run: read
 * off the steps of the run, not off what the registry keeps.
 */
module RegistryTimes {
  import opened Options
  import opened Registry
  import opened RegistryRuns

  // ----- The reaper ---------------------------------------------------------------------------

  /** The time at which a step uses the session: its insert, a lookup that finds it alive, the end of a call. */
  function UsedAt(w: World, s: Step, id: string): Option<nat>
    requires Enabled(w, s)
  {
    match s
    case Insert(t, now, _) => if w.tasks[t].id == id then Some(now) else None
    case Begin(_, _, looked, now) =>
      if looked == id && id in w.sessions && !w.sessions[id].crashed then Some(now) else None
    case TouchOnly(_, looked, now) =>
      if looked == id && id in w.sessions && !w.sessions[id].crashed then Some(now) else None
    case Finish(t, _, now) => if w.tasks[t].id == id && id in w.sessions then Some(now) else None
    case _ => None
  }

  /** The time of the last step of the run that used the session. */
  ghost function LastUse(w: World, steps: seq<Step>, id: string): Option<nat>
    requires ValidRun(w, steps)
    decreases |steps|
  {
    if steps == [] then None else
      var later := LastUse(Next(w, steps[0]), steps[1..], id);
      if later.Some? then later else UsedAt(w, steps[0], id)
  }

  lemma EndKeepsSessions(w: World, t: nat, result: Ending)
    requires LocksOk(w) && t in w.tasks && !w.tasks[t].Finished?
    ensures End(w, t, result).sessions == w.sessions
  {
    EndEffect(w, t, result);
  }

  lemma FinishSessions(w: World, t: nat, ok: bool, now: nat)
    requires LocksOk(w) && Enabled(w, Finish(t, ok, now))
    ensures var id := w.tasks[t].id;
      Next(w, Finish(t, ok, now)).sessions ==
        if id in w.sessions then w.sessions[id := w.sessions[id].(lastUsed := now)] else w.sessions
  {
    SameLocks(w, Bump(w, w.tasks[t].id, now));
    EndKeepsSessions(Bump(w, w.tasks[t].id, now), t, if ok then Success else Refused);
  }

  lemma TaskStepSessions(w: World, s: Step)
    requires LocksOk(w) && Enabled(w, s)
    requires s.Check? || s.Expect? || s.Leave? || s.CloseDone? || s.Remove?
    ensures Next(w, s).sessions == if s.Remove? then w.sessions - {w.tasks[s.t].id} else w.sessions
  {
    match s
    case Check(t) => if w.tasks[t].id !in w.sessions { EndKeepsSessions(w, t, NotFound); }
    case Expect(t) => if w.tasks[t].id !in w.sessions { EndKeepsSessions(w, t, Panicked); }
    case Leave(t, result) => EndKeepsSessions(w, t, result);
    case CloseDone(t) => EndKeepsSessions(w, t, Success);
    case Remove(t) => if w.tasks[t].id !in w.sessions { EndKeepsSessions(w, t, Panicked); }
  }

  /** A step sets the time of a session it uses, and leaves every other as it is. */
  lemma StepTimes(w: World, s: Step, id: string)
    requires LocksOk(w) && Enabled(w, s) && id in Next(w, s).sessions
    ensures if UsedAt(w, s, id).Some? then Next(w, s).sessions[id].lastUsed == UsedAt(w, s, id).value
      else id in w.sessions && Next(w, s).sessions[id].lastUsed == w.sessions[id].lastUsed
  {
    match s
    case Finish(t, ok, now) => FinishSessions(w, t, ok, now);
    case Begin(t, kind, looked, now) => assert Next(w, s).sessions == Touched(w.sessions, looked, now);
    case TouchOnly(t, looked, now) => assert Next(w, s).sessions == Touched(w.sessions, looked, now);
    case Insert(_, _, _) =>
    case Reserve(_, _) =>
    case Abandon(_) =>
    case Reap(_) =>
    case Crash(_) =>
    case _ => TaskStepSessions(w, s);
  }

  lemma {:induction false} RunTimes(w: World, steps: seq<Step>, id: string)
    requires Inv(w) && ValidRun(w, steps) && id in After(w, steps).sessions
    ensures if LastUse(w, steps, id).Some? then After(w, steps).sessions[id].lastUsed == LastUse(w, steps, id).value
      else id in w.sessions && After(w, steps).sessions[id].lastUsed == w.sessions[id].lastUsed
    decreases |steps|
  {
    if steps != [] {
      StepKeepsInv(w, steps[0]);
      RunTimes(Next(w, steps[0]), steps[1..], id);
      if id in Next(w, steps[0]).sessions { StepTimes(w, steps[0], id); }
    }
  }

  /** No task holds the lock. */
  ghost predicate Unheld(w: World, id: string) {
    forall t :: t in w.tasks ==> !HasLock(w.tasks[t], id)
  }

  lemma BusyIffHeld(w: World, id: string)
    requires LockOk(w, id)
    ensures id in Busy(w) <==> !Unheld(w, id)
  {
    if id in Busy(w) { assert Holds(w, LockOf(w, id).holder.value, id); }
    if !Unheld(w, id) {
      var t :| t in w.tasks && HasLock(w.tasks[t], id);
      assert Holds(w, t, id);
    }
  }

  lemma ScanTakes(w: World, now: nat, id: string)
    requires id in w.sessions
    ensures var w' := Next(w, Reap(now));
      && (id !in w'.sessions <==> id !in Busy(w) && now > w.sessions[id].lastUsed + 300_000)
      && (id in w'.sessions ==> w'.sessions[id] == w.sessions[id])
  {
  }

  /**
   * In every run, a scan of the reaper at `now` removes exactly the sessions whose lock no task
   * holds and that were last used more than 300 seconds before. A clock that went back makes no
   * session idle.
   */
  lemma ReapedIff(steps: seq<Step>, now: nat, id: string)
    requires ValidRun(Start(), steps) && id in After(Start(), steps).sessions
    ensures var w := After(Start(), steps);
      id !in Next(w, Reap(now)).sessions <==>
        Unheld(w, id) && LastUse(Start(), steps, id).Some? && now > LastUse(Start(), steps, id).value + 300_000
    ensures var w := After(Start(), steps);
      id in Next(w, Reap(now)).sessions ==> Next(w, Reap(now)).sessions[id] == w.sessions[id]
  {
    StartInv();
    RunKeepsInv(Start(), steps);
    RunTimes(Start(), steps, id);
    var w := After(Start(), steps);
    assert LockOk(w, id);
    BusyIffHeld(w, id);
    ScanTakes(w, now, id);
  }

  // ----- Lookups ----------------------------------------------------------------------------------

  /**
   * A lookup answers "not found" for a session that is not there, and "crashed" for one that has
   * crashed, which it removes; the others stay. Any other one is found, and goes to its lock.
   */
  lemma LookupAnswers(w: World, t: nat, kind: Kind, id: string, now: nat)
    requires Enabled(w, Begin(t, kind, id, now))
    ensures var w', there := Next(w, Begin(t, kind, id, now)), id in w.sessions;
      && (!there ==> w'.tasks[t] == Finished(NotFound) && w'.sessions == w.sessions)
      && (there && w.sessions[id].crashed ==>
            w'.tasks[t] == Finished(SessionCrashed) && w'.sessions == w.sessions - {id})
      && (there && !w.sessions[id].crashed ==>
            && w'.sessions == w.sessions[id := Entry(now, false)]
            && w'.tasks[t] == if LockOf(w, id).holder == None then Holding(kind, id) else Waiting(kind, id))
    ensures var w', there := Next(w, TouchOnly(t, id, now)), id in w.sessions;
      && w'.tasks[t] == Finished(
           if !there then NotFound else if w.sessions[id].crashed then SessionCrashed else Success)
      && w'.sessions == Next(w, Begin(t, kind, id, now)).sessions
  {
  }

  /** How a task ends: a call as its work did, or as it was left; a new session is there, as it was opened. */
  lemma TasksEnd(w: World, t: nat, ok: bool, result: Ending, now: nat, crashed: bool)
    requires LocksOk(w)
    ensures Enabled(w, Finish(t, ok, now)) ==>
      Next(w, Finish(t, ok, now)).tasks[t] == Finished(if ok then Success else Refused)
    ensures Enabled(w, Leave(t, result)) ==> Next(w, Leave(t, result)).tasks[t] == Finished(result)
    ensures Enabled(w, CloseDone(t)) ==> Next(w, CloseDone(t)).tasks[t] == Finished(Success)
    ensures Enabled(w, Insert(t, now, crashed)) ==>
      var w' := Next(w, Insert(t, now, crashed));
      w'.tasks[t] == Finished(Success) && w'.sessions == w.sessions[w.tasks[t].id := Entry(now, crashed)]
  {
    if Enabled(w, Finish(t, ok, now)) {
      SameLocks(w, Bump(w, w.tasks[t].id, now));
      EndEffect(Bump(w, w.tasks[t].id, now), t, if ok then Success else Refused);
    }
    if Enabled(w, Leave(t, result)) { EndEffect(w, t, result); }
    if Enabled(w, CloseDone(t)) { EndEffect(w, t, Success); }
  }

  // ----- New sessions --------------------------------------------------------------------------------

  /** In every run, a new session is refused exactly when 20 are open or being opened. */
  lemma RefusedIffFull(steps: seq<Step>, t: nat, now: nat)
    requires ValidRun(Start(), steps) && Enabled(After(Start(), steps), Reserve(t, now))
    ensures var w := After(Start(), steps);
      && |w.sessions| + |Builders(w)| <= 20
      && (Next(w, Reserve(t, now)).tasks[t] == Finished(Refused) <==> |w.sessions| + |Builders(w)| == 20)
      && (|w.sessions| + |Builders(w)| < 20 ==> Next(w, Reserve(t, now)).tasks[t].Building?)
  {
    StartInv();
    RunKeepsInv(Start(), steps);
  }

  /** What an id looks like: the time and the counter in hexadecimal. */
  lemma SessionIdText()
    ensures SessionId(0x18f, 0x2a) == "sess-18f-2a"
  {
  }
}
