/**
 * The promises of the session registry, over every run of its step system, and the two
 * runs that break the presence checks its comments rely on.
 */
module RegistryTheorems {
  import opened Options
  import opened Registry
  import opened RegistryRuns

  /** However navigates succeed, fail or are cancelled, at most 20 sessions are open or reserved. */
  lemma OpenSessionsCapped(steps: seq<Step>)
    requires ValidRun(Start(), steps)
    ensures var w := After(Start(), steps);
      |w.sessions| + |Builders(w)| <= MAX_OPEN_SESSIONS && w.pending == |Builders(w)|
  {
    StartInv();
    RunKeepsInv(Start(), steps);
  }

  /** The id a finished navigate inserts was never in the map before. */
  lemma InsertNeverOverwrites(steps: seq<Step>, t: nat, now: nat, crashed: bool)
    requires ValidRun(Start(), steps) && Enabled(After(Start(), steps), Insert(t, now, crashed))
    ensures var w := After(Start(), steps);
      w.tasks[t].id !in w.sessions && w.tasks[t].id !in w.gone
  {
    StartInv();
    RunKeepsInv(Start(), steps);
    var w := After(Start(), steps);
    assert t in Builders(w);
  }

  /**
   * A session whose lock is held leaves the map only by its holder's own close, or by a
   * lookup that finds it crashed. In particular the reaper never takes it.
   */
  lemma HeldSessionStays(steps: seq<Step>, s: Step, id: string)
    requires ValidRun(Start(), steps) && Enabled(After(Start(), steps), s)
    requires id in After(Start(), steps).sessions && LockOf(After(Start(), steps), id).holder.Some?
    ensures var w := After(Start(), steps);
      || id in Next(w, s).sessions
      || (s.Remove? && LockOf(w, id).holder == Some(s.t))
      || ((s.Begin? || s.TouchOnly?) && s.id == id && w.sessions[id].crashed)
  {
    StartInv();
    RunKeepsInv(Start(), steps);
    HeldSessionStep(After(Start(), steps), s, id);
  }

  lemma HeldSessionStep(w: World, s: Step, id: string)
    requires LocksOk(w) && Enabled(w, s) && id in w.sessions && LockOf(w, id).holder.Some?
    ensures id in Next(w, s).sessions
      || (s.Remove? && LockOf(w, id).holder == Some(s.t))
      || ((s.Begin? || s.TouchOnly?) && s.id == id && w.sessions[id].crashed)
  {
    match s
    case Begin(t, kind, other, now) => assert Next(w, s).sessions == Touched(w.sessions, other, now);
    case Remove(t) => RemoveTakesOwn(w, t, id);
    case Reap(now) => assert id in Busy(w) && !Expired(w.sessions, Busy(w), now, id);
    case TouchOnly(t, other, now) => assert Next(w, s).sessions == Touched(w.sessions, other, now);
    case _ => OtherStepsKeepSessions(w, s);
  }

  lemma OtherStepsKeepSessions(w: World, s: Step)
    requires LocksOk(w) && Enabled(w, s) && !s.Begin? && !s.TouchOnly? && !s.Remove? && !s.Reap?
    ensures w.sessions.Keys <= Next(w, s).sessions.Keys
  {
    match s
    case Check(t) => if w.tasks[t].id !in w.sessions { EndEffect(w, t, NotFound); }
    case Expect(t) => if w.tasks[t].id !in w.sessions { EndEffect(w, t, Panicked); }
    case Finish(t, ok, now) => FinishEffect(w, t, ok, now);
    case Leave(t, result) => EndEffect(w, t, result);
    case CloseDone(t) => EndEffect(w, t, Success);
    case _ =>
  }

  lemma RemoveTakesOwn(w: World, t: nat, id: string)
    requires LocksOk(w) && Enabled(w, Remove(t)) && id in w.sessions
    ensures id in Next(w, Remove(t)).sessions || LockOf(w, id).holder == Some(t)
  {
    assert LockOk(w, w.tasks[t].id) && Holds(w, t, w.tasks[t].id);
    if w.tasks[t].id !in w.sessions { EndEffect(w, t, Panicked); }
  }

  lemma FinishEffect(w: World, t: nat, ok: bool, now: nat)
    requires LocksOk(w) && Enabled(w, Finish(t, ok, now))
    ensures var bumped := Bump(w, w.tasks[t].id, now);
      EndsLike(bumped, Next(w, Finish(t, ok, now)), t, if ok then Success else Refused)
  {
    var w0 := Bump(w, w.tasks[t].id, now);
    SameLocks(w, w0);
    EndEffect(w0, t, if ok then Success else Refused);
  }

  /**
   * A call that wins the lock goes on if its session is there; otherwise it answers
   * "not found", and the session was closed by another task or crashed.
   */
  lemma LockWinnerAnswers(steps: seq<Step>, t: nat)
    requires ValidRun(Start(), steps) && Enabled(After(Start(), steps), Check(t))
    ensures var w := After(Start(), steps);
      var id := w.tasks[t].id;
      if id in w.sessions then Next(w, Check(t)).tasks[t] == Working(id)
      else Next(w, Check(t)).tasks[t] == Finished(NotFound) && LostTo(w, id, t)
  {
    StartInv();
    RunKeepsInv(Start(), steps);
    var w := After(Start(), steps);
    assert Explained(w, t);
    EndEffect(w, t, NotFound);
  }

  // ----- When an `expect` fails ---------------------------------------------------------------

  /** A lookup of `id` finds it crashed, and removes it without taking its lock. */
  predicate Evicts(w: World, s: Step, id: string) {
    (s.Begin? || s.TouchOnly?) && s.id == id && TouchAnswer(w.sessions, id) == HasCrashed
  }

  /** A close takes `id` out of the map. */
  predicate Closes(w: World, s: Step, id: string) {
    s.Remove? && s.t in w.tasks && w.tasks[s.t].Holding? && w.tasks[s.t].id == id && id in w.sessions
  }

  /** Somewhere in the run, a lookup evicted `id`. */
  ghost predicate EvictedIn(w: World, steps: seq<Step>, id: string)
    requires ValidRun(w, steps)
    decreases |steps|
  {
    steps != [] && (Evicts(w, steps[0], id) || EvictedIn(Next(w, steps[0]), steps[1..], id))
  }

  /** Somewhere in the run, a close other than that of task `t` removed `id`. */
  ghost predicate ClosedIn(w: World, steps: seq<Step>, id: string, t: nat)
    requires ValidRun(w, steps)
    decreases |steps|
  {
    steps != [] && ((Closes(w, steps[0], id) && steps[0].t != t) || ClosedIn(Next(w, steps[0]), steps[1..], id, t))
  }

  predicate IsGone(w: World, id: string, cause: Cause) {
    id in w.gone && w.gone[id] == cause
  }

  lemma OtherStepsKeepRecords(w: World, s: Step)
    requires LocksOk(w) && Enabled(w, s) && !s.Begin? && !s.TouchOnly? && !s.Remove? && !s.Reap?
    ensures Next(w, s).gone == w.gone
  {
    match s
    case Check(t) => if w.tasks[t].id !in w.sessions { EndEffect(w, t, NotFound); }
    case Expect(t) => if w.tasks[t].id !in w.sessions { EndEffect(w, t, Panicked); }
    case Finish(t, ok, now) => FinishEffect(w, t, ok, now);
    case Leave(t, result) => EndEffect(w, t, result);
    case CloseDone(t) => EndEffect(w, t, Success);
    case _ =>
  }

  lemma RemoveRecords(w: World, t: nat)
    requires LocksOk(w) && Enabled(w, Remove(t))
    ensures var id := w.tasks[t].id;
      Next(w, Remove(t)).gone == if id in w.sessions then w.gone[id := ClosedBy(t)] else w.gone
  {
    if w.tasks[t].id !in w.sessions { EndEffect(w, t, Panicked); }
  }

  lemma TouchRecords(w: World, s: Step)
    requires Enabled(w, s) && (s.Begin? || s.TouchOnly?)
    ensures Next(w, s).gone == if Evicts(w, s, s.id) then w.gone[s.id := Evicted] else w.gone
  {
  }

  lemma ReapRecords(w: World, now: nat)
    ensures forall id :: id in w.gone ==> id in ReapStep(w, now).gone && ReapStep(w, now).gone[id] == w.gone[id]
    ensures forall id :: id in ReapStep(w, now).gone && id !in w.gone ==> ReapStep(w, now).gone[id] == WasReaped
  {
  }

  /** The new record, given the old one, of what a step does to `id`. */
  ghost predicate Recorded(w: World, s: Step, gone: map<string, Cause>, id: string) {
    if Evicts(w, s, id) then id in gone && gone[id] == Evicted
    else if Closes(w, s, id) then id in gone && gone[id] == ClosedBy(s.t)
    else if id in w.gone then id in gone && gone[id] == w.gone[id]
    else id in gone ==> gone[id] == WasReaped
  }

  lemma StepRecorded(w: World, s: Step, id: string)
    requires LocksOk(w) && Enabled(w, s)
    ensures Recorded(w, s, Next(w, s).gone, id)
  {
    if s.Begin? || s.TouchOnly? {
      TouchRecords(w, s);
    } else if s.Remove? {
      RemoveRecords(w, s.t);
    } else if s.Reap? {
      ReapRecords(w, s.now);
    } else {
      OtherStepsKeepRecords(w, s);
    }
  }

  /** The record of why a session is gone is what the step did, and is never changed. */
  lemma StepRecords(w: World, s: Step, id: string)
    requires LocksOk(w) && GoneOk(w) && Enabled(w, s)
    ensures IsGone(Next(w, s), id, Evicted) <==> IsGone(w, id, Evicted) || Evicts(w, s, id)
    ensures forall u :: IsGone(Next(w, s), id, ClosedBy(u)) <==>
      IsGone(w, id, ClosedBy(u)) || (Closes(w, s, id) && s.t == u)
  {
    StepRecorded(w, s, id);
    assert id in w.sessions ==> id !in w.gone;
    RecordedSays(w, s, Next(w, s), id);
  }

  lemma RecordedSays(w: World, s: Step, w': World, id: string)
    requires Recorded(w, s, w'.gone, id) && (id in w.sessions ==> id !in w.gone)
    ensures IsGone(w', id, Evicted) <==> IsGone(w, id, Evicted) || Evicts(w, s, id)
    ensures forall u :: IsGone(w', id, ClosedBy(u)) <==> IsGone(w, id, ClosedBy(u)) || (Closes(w, s, id) && s.t == u)
  {
  }

  lemma {:induction false} RunRecords(w: World, steps: seq<Step>, id: string, t: nat)
    requires Inv(w) && ValidRun(w, steps)
    ensures IsGone(After(w, steps), id, Evicted) <==> IsGone(w, id, Evicted) || EvictedIn(w, steps, id)
    ensures (exists u :: u != t && IsGone(After(w, steps), id, ClosedBy(u))) <==>
      (exists u :: u != t && IsGone(w, id, ClosedBy(u))) || ClosedIn(w, steps, id, t)
    decreases |steps|
  {
    if steps != [] {
      StepKeepsInv(w, steps[0]);
      StepRecords(w, steps[0], id);
      RunRecords(Next(w, steps[0]), steps[1..], id, t);
      if Closes(w, steps[0], id) && steps[0].t != t {
        assert IsGone(Next(w, steps[0]), id, ClosedBy(steps[0].t));
      }
    }
  }

  /**
   * In every run, a call that works on a session loses it exactly when a lookup evicted it
   * as crashed, at any time in the run; then its next `expect` fails.
   */
  lemma ExpectPanicsIff(steps: seq<Step>, t: nat)
    requires ValidRun(Start(), steps) && Enabled(After(Start(), steps), Expect(t))
    ensures var w := After(Start(), steps);
      var id := w.tasks[t].id;
      && (Next(w, Expect(t)).tasks[t] == Finished(Panicked) <==> EvictedIn(Start(), steps, id))
      && (!EvictedIn(Start(), steps, id) ==> id in w.sessions && Next(w, Expect(t)) == w)
  {
    StartInv();
    RunKeepsInv(Start(), steps);
    var w := After(Start(), steps);
    RunRecords(Start(), steps, w.tasks[t].id, t);
    assert Explained(w, t);
    if w.tasks[t].id !in w.sessions { EndEffect(w, t, Panicked); }
  }

  /**
   * In every run, a close that holds the lock fails its `expect` exactly when, at any time in
   * the run, a lookup evicted its session as crashed or another close removed it.
   */
  lemma ClosePanicsIff(steps: seq<Step>, t: nat)
    requires ValidRun(Start(), steps) && Enabled(After(Start(), steps), Remove(t))
    ensures var w := After(Start(), steps);
      var id := w.tasks[t].id;
      Next(w, Remove(t)).tasks[t] == Finished(Panicked) <==>
        EvictedIn(Start(), steps, id) || ClosedIn(Start(), steps, id, t)
  {
    StartInv();
    RunKeepsInv(Start(), steps);
    var w := After(Start(), steps);
    var id := w.tasks[t].id;
    RunRecords(Start(), steps, id, t);
    assert Explained(w, t);
    if id !in w.sessions {
      EndEffect(w, t, Panicked);
      if w.gone[id] != Evicted { assert IsGone(w, id, ClosedBy(w.gone[id].t)); }
    }
  }

  // ----- Runs without crashes -----------------------------------------------------------------

  predicate NoCrash(s: Step) {
    !s.Crash? && (s.Insert? ==> !s.crashed)
  }

  ghost predicate CrashFree(steps: seq<Step>) {
    forall i :: 0 <= i < |steps| ==> NoCrash(steps[i])
  }

  ghost predicate NoneCrashed(w: World) {
    && (forall id :: id in w.sessions ==> !w.sessions[id].crashed)
    && (forall id :: id in w.gone ==> w.gone[id] != Evicted)
  }

  lemma StepKeepsNoneCrashed(w: World, s: Step)
    requires LocksOk(w) && NoneCrashed(w) && Enabled(w, s) && NoCrash(s)
    ensures NoneCrashed(Next(w, s))
  {
    match s
    case Finish(t, ok, now) => FinishEffect(w, t, ok, now);
    case Leave(t, result) => EndEffect(w, t, result);
    case CloseDone(t) => EndEffect(w, t, Success);
    case Check(t) => if w.tasks[t].id !in w.sessions { EndEffect(w, t, NotFound); }
    case Expect(t) => if w.tasks[t].id !in w.sessions { EndEffect(w, t, Panicked); }
    case Remove(t) => if w.tasks[t].id !in w.sessions { EndEffect(w, t, Panicked); }
    case _ =>
  }

  lemma {:induction false} CrashFreeRun(w: World, steps: seq<Step>)
    requires Inv(w) && NoneCrashed(w) && ValidRun(w, steps) && CrashFree(steps)
    ensures NoneCrashed(After(w, steps))
    decreases |steps|
  {
    if steps != [] {
      StepKeepsInv(w, steps[0]);
      StepKeepsNoneCrashed(w, steps[0]);
      CrashFreeRun(Next(w, steps[0]), steps[1..]);
    }
  }

  /** So a call keeps its session through every run without crashes. */
  lemma CallKeepsItsSession(steps: seq<Step>, t: nat)
    requires ValidRun(Start(), steps) && CrashFree(steps) && Enabled(After(Start(), steps), Expect(t))
    ensures var w := After(Start(), steps);
      w.tasks[t].id in w.sessions && Next(w, Expect(t)) == w
  {
    StartInv();
    CrashFreeRun(Start(), steps);
    RunKeepsInv(Start(), steps);
    assert Explained(After(Start(), steps), t);
  }

  // ----- One close per session at a time ---------------------------------------------------------

  predicate CloseInFlight(w: World, t: nat, id: string) {
    t in w.tasks && (w.tasks[t] == Waiting(Close, id) || w.tasks[t] == Holding(Close, id))
  }

  ghost predicate OneClose(w: World) {
    forall t, u, id :: CloseInFlight(w, t, id) && CloseInFlight(w, u, id) ==> t == u
  }

  /** Every state of the run, the last one included, has at most one close per session in flight. */
  ghost predicate OneCloseRun(w: World, steps: seq<Step>)
    requires ValidRun(w, steps)
    decreases |steps|
  {
    OneClose(w) && (steps != [] ==> OneCloseRun(Next(w, steps[0]), steps[1..]))
  }

  ghost predicate CloserSees(w: World) {
    forall t, id :: CloseInFlight(w, t, id) ==> id in w.sessions
  }

  ghost predicate NoPanic(w: World) {
    forall t :: t in w.tasks ==> w.tasks[t] != Finished(Panicked)
  }

  /** A task's ending neither creates a close nor moves one to another session. */
  lemma EndKeepsClosers(w: World, w': World, t: nat, result: Ending)
    requires EndsLike(w, w', t, result)
    ensures forall u, id :: CloseInFlight(w', u, id) ==> CloseInFlight(w, u, id) && u != t
    ensures NoPanic(w) && result != Panicked ==> NoPanic(w')
  {
  }

  lemma HolderStepKeepsClosers(w: World, s: Step, u: nat, id: string)
    requires LocksOk(w) && Enabled(w, s) && CloseInFlight(Next(w, s), u, id)
    requires s.Check? || s.Expect? || s.Remove? || s.Finish? || s.Leave? || s.CloseDone?
    ensures CloseInFlight(w, u, id) && (s.Remove? ==> u != s.t)
  {
    var w' := Next(w, s);
    match s
    case Finish(t, ok, now) =>
      FinishEffect(w, t, ok, now);
      EndKeepsClosers(Bump(w, w.tasks[t].id, now), w', t, if ok then Success else Refused);
    case Leave(t, result) => EndEffect(w, t, result); EndKeepsClosers(w, w', t, result);
    case CloseDone(t) => EndEffect(w, t, Success); EndKeepsClosers(w, w', t, Success);
    case Check(t) =>
      if w.tasks[t].id !in w.sessions { EndEffect(w, t, NotFound); EndKeepsClosers(w, w', t, NotFound); }
    case Expect(t) =>
      if w.tasks[t].id !in w.sessions { EndEffect(w, t, Panicked); EndKeepsClosers(w, w', t, Panicked); }
    case Remove(t) =>
      if w.tasks[t].id !in w.sessions { EndEffect(w, t, Panicked); EndKeepsClosers(w, w', t, Panicked); }
  }

  lemma CloserOrigin(w: World, s: Step, u: nat, id: string)
    requires LocksOk(w) && Enabled(w, s) && CloseInFlight(Next(w, s), u, id)
    ensures CloseInFlight(w, u, id)
      || (s.Begin? && s.t == u && s.id == id && id in w.sessions && !w.sessions[id].crashed)
    ensures s.Remove? ==> u != s.t
  {
    if s.Check? || s.Expect? || s.Remove? || s.Finish? || s.Leave? || s.CloseDone? {
      HolderStepKeepsClosers(w, s, u, id);
    }
  }

  lemma StepKeepsCloserSees(w: World, s: Step)
    requires Inv(w) && NoneCrashed(w) && OneClose(w) && CloserSees(w) && Enabled(w, s) && NoCrash(s)
    ensures CloserSees(Next(w, s))
  {
    forall u, id | CloseInFlight(Next(w, s), u, id) ensures id in Next(w, s).sessions {
      CloserOrigin(w, s, u, id);
      if CloseInFlight(w, u, id) {
        CloserHoldsBusy(w, u, id);
        HeldSessionStep(w, s, id);
      } else {
        assert id in Touched(w.sessions, id, s.now);
      }
    }
  }

  /** A close in flight keeps its lock busy; the holder, if it is about to remove, is that close. */
  lemma CloserHoldsBusy(w: World, u: nat, id: string)
    requires LocksOk(w) && OneClose(w) && CloseInFlight(w, u, id)
    ensures LockOf(w, id).holder.Some?
    ensures forall t: nat :: LockOf(w, id).holder == Some(t) && Enabled(w, Remove(t)) ==> t == u
  {
    assert LockOk(w, id) && (Holds(w, u, id) || Waits(w, u, id));
    forall t: nat | LockOf(w, id).holder == Some(t) && Enabled(w, Remove(t)) ensures t == u {
      assert Holds(w, t, id) && CloseInFlight(w, t, id);
    }
  }

  lemma StepKeepsNoPanic(w: World, s: Step)
    requires LocksOk(w) && GoneOk(w) && NoneCrashed(w) && CloserSees(w) && NoPanic(w) && Enabled(w, s)
    ensures NoPanic(Next(w, s))
  {
    var w' := Next(w, s);
    match s
    case Finish(t, ok, now) =>
      FinishEffect(w, t, ok, now);
      EndKeepsClosers(Bump(w, w.tasks[t].id, now), w', t, if ok then Success else Refused);
    case Leave(t, result) => EndEffect(w, t, result); EndKeepsClosers(w, w', t, result);
    case CloseDone(t) => EndEffect(w, t, Success); EndKeepsClosers(w, w', t, Success);
    case Check(t) =>
      if w.tasks[t].id !in w.sessions { EndEffect(w, t, NotFound); EndKeepsClosers(w, w', t, NotFound); }
    case Expect(t) => assert Explained(w, t);
    case Remove(t) => assert CloseInFlight(w, t, w.tasks[t].id);
    case _ =>
  }

  lemma {:induction false} NoPanicRun(w: World, steps: seq<Step>)
    requires Inv(w) && NoneCrashed(w) && CloserSees(w) && NoPanic(w)
    requires ValidRun(w, steps) && CrashFree(steps) && OneCloseRun(w, steps)
    ensures NoPanic(After(w, steps))
    decreases |steps|
  {
    if steps != [] {
      StepKeepsInv(w, steps[0]);
      StepKeepsNoneCrashed(w, steps[0]);
      StepKeepsCloserSees(w, steps[0]);
      StepKeepsNoPanic(w, steps[0]);
      NoPanicRun(Next(w, steps[0]), steps[1..]);
    }
  }

  /** Without crashes, and with one close per session in flight at a time, nothing panics. */
  lemma NothingPanics(steps: seq<Step>)
    requires ValidRun(Start(), steps) && CrashFree(steps) && OneCloseRun(Start(), steps)
    ensures NoPanic(After(Start(), steps))
  {
    StartInv();
    NoPanicRun(Start(), steps);
  }

  // ----- The two runs that do panic -----------------------------------------------------------------

  predicate Ended(w: World, t: nat, result: Ending) {
    t in w.tasks && w.tasks[t] == Finished(result)
  }

  /** A session at work: task 1 is a call holding the lock of the session `id`. */
  ghost function AtWork(id: string): World {
    World(map[id := Entry(0, false)], map[id := Lock(Some(1), [])], map[],
          map[0 := Finished(Success), 1 := Working(id)], 0, 1)
  }

  /** The session is open, and nobody holds its lock. */
  ghost function Opened(id: string): World {
    World(map[id := Entry(0, false)], map[id := Lock(None, [])], map[], map[0 := Finished(Success)], 0, 1)
  }

  lemma OpenedReached()
    ensures var s0, s1 := Reserve(0, 0), Insert(0, 0, false);
      && Enabled(Start(), s0) && Enabled(Next(Start(), s0), s1)
      && Next(Next(Start(), s0), s1) == Opened(SessionId(0, 0))
  {
    var id := SessionId(0, 0);
    assert Next(Start(), Reserve(0, 0)) == World(map[], map[], map[], map[0 := Building(id)], 1, 1);
  }

  lemma CallStarts(id: string)
    ensures var s2, s3 := Begin(1, Call, id, 0), Check(1);
      && Enabled(Opened(id), s2) && Enabled(Next(Opened(id), s2), s3)
      && Next(Next(Opened(id), s2), s3) == AtWork(id)
  {
    var w := World(map[id := Entry(0, false)], map[id := Lock(Some(1), [])], map[],
                   map[0 := Finished(Success), 1 := Holding(Call, id)], 0, 1);
    assert Next(Opened(id), Begin(1, Call, id, 0)) == w;
  }

  lemma AtWorkReached()
    ensures var steps := [Reserve(0, 0), Insert(0, 0, false), Begin(1, Call, SessionId(0, 0), 0), Check(1)];
      ValidRun(Start(), steps) && After(Start(), steps) == AtWork(SessionId(0, 0))
  {
    var id := SessionId(0, 0);
    OpenedReached();
    CallStarts(id);
    RunOfTwo(Opened(id), Begin(1, Call, id, 0), Check(1));
    RunGoesOn(Start(), Reserve(0, 0), Insert(0, 0, false), [Begin(1, Call, id, 0), Check(1)]);
  }

  lemma RunOfTwo(w: World, s: Step, u: Step)
    requires Enabled(w, s) && Enabled(Next(w, s), u)
    ensures ValidRun(w, [s, u]) && After(w, [s, u]) == Next(Next(w, s), u)
  {
    RunOf([u], Next(w, s));
    assert [s, u][1..] == [u];
  }

  lemma RunGoesOn(w: World, s: Step, u: Step, rest: seq<Step>)
    requires Enabled(w, s) && Enabled(Next(w, s), u) && ValidRun(Next(Next(w, s), u), rest)
    ensures ValidRun(w, [s, u] + rest) && After(w, [s, u] + rest) == After(Next(Next(w, s), u), rest)
  {
    assert ([s, u] + rest)[1..] == [u] + rest && ([u] + rest)[1..] == rest;
  }

  lemma RunOf(steps: seq<Step>, w: World)
    requires |steps| == 1 && Enabled(w, steps[0])
    ensures ValidRun(w, steps) && After(w, steps) == Next(w, steps[0])
  {
    assert steps[1..] == [];
  }

  /** The call is done; close 2 has its lock and close 3 waits. */
  ghost function TwoClosesLeft(id: string): World {
    AtWork(id).(locks := map[id := Lock(Some(2), [3])],
                tasks := map[0 := Finished(Success), 1 := Finished(Success),
                             2 := Holding(Close, id), 3 := Waiting(Close, id)])
  }

  /** At time 0 a close begins and queues for a lock that is held. */
  lemma JoinsQueue(w: World, t: nat, id: string, queue: seq<nat>, holder: nat)
    requires w.sessions == map[id := Entry(0, false)] && w.locks == map[id := Lock(Some(holder), queue)]
    requires t !in w.tasks
    ensures Enabled(w, Begin(t, Close, id, 0))
    ensures Next(w, Begin(t, Close, id, 0)) ==
      w.(locks := map[id := Lock(Some(holder), queue + [t])], tasks := w.tasks[t := Waiting(Close, id)])
  {
    assert Touched(w.sessions, id, 0) == w.sessions;
    assert w.locks[id := Lock(Some(holder), queue + [t])] == map[id := Lock(Some(holder), queue + [t])];
  }

  /** The two closes have queued; the call is still at work. */
  ghost function TwoClosesWait(id: string): World {
    AtWork(id).(locks := map[id := Lock(Some(1), [2, 3])],
                tasks := AtWork(id).tasks[2 := Waiting(Close, id)][3 := Waiting(Close, id)])
  }

  lemma CallEndsFirst(id: string)
    ensures Enabled(TwoClosesWait(id), Finish(1, true, 0))
    ensures Next(TwoClosesWait(id), Finish(1, true, 0)) == TwoClosesLeft(id)
  {
    assert [2, 3][1..] == [3];
  }

  lemma TwoClosesQueue(id: string)
    ensures var steps := [Begin(2, Close, id, 0), Begin(3, Close, id, 0), Finish(1, true, 0)];
      ValidRun(AtWork(id), steps) && After(AtWork(id), steps) == TwoClosesLeft(id)
  {
    var b2, b3, f1 := Begin(2, Close, id, 0), Begin(3, Close, id, 0), Finish(1, true, 0);
    var w0, w2 := AtWork(id), TwoClosesWait(id);
    JoinsQueue(w0, 2, id, [], 1);
    var w1 := Next(w0, b2);
    assert [] + [2] == [2] && [2] + [3] == [2, 3];
    JoinsQueue(w1, 3, id, [2], 1);
    CallEndsFirst(id);
    RunOf([f1], w2);
    assert [b3, f1][1..] == [f1] && [b2, b3, f1][1..] == [b3, f1];
  }

  /** Of two closes that queued behind a call, the first removes the session, the second panics. */
  lemma SecondClosePanics(id: string)
    ensures var steps := [Remove(2), CloseDone(2), Remove(3)];
      ValidRun(TwoClosesLeft(id), steps) && Ended(After(TwoClosesLeft(id), steps), 3, Panicked)
  {
    var r2, c2, r3 := Remove(2), CloseDone(2), Remove(3);
    var w1 := Next(TwoClosesLeft(id), r2);
    assert w1.tasks[2] == Closing(id) && id !in w1.sessions;
    assert w1.tasks[3] == Waiting(Close, id) && w1.locks[id] == Lock(Some(2), [3]);
    var w2 := Next(w1, c2);
    assert [3][1..] == [];
    assert w2.tasks[3] == Holding(Close, id) && id !in w2.sessions && w2.locks[id] == Lock(Some(3), []);
    RunOf([r3], w2);
    assert [c2, r3][1..] == [r3] && [r2, c2, r3][1..] == [c2, r3];
    assert ValidRun(w1, [c2, r3]) && After(w1, [c2, r3]) == Next(w2, r3);
  }

  /** A crash noticed by another lookup evicts the session under a call that holds its lock. */
  lemma EvictionBreaksCall(id: string)
    ensures var steps := [Crash(id), TouchOnly(2, id, 0), Expect(1)];
      ValidRun(AtWork(id), steps) && Ended(After(AtWork(id), steps), 1, Panicked)
  {
    var c, u, e := Crash(id), TouchOnly(2, id, 0), Expect(1);
    var w1 := Next(AtWork(id), c);
    var w2 := Next(w1, u);
    assert id !in w2.sessions && w2.tasks[1] == Working(id) && w2.locks[id] == Lock(Some(1), []);
    RunOf([e], w2);
    assert [u, e][1..] == [e] && [c, u, e][1..] == [u, e];
    assert ValidRun(w1, [u, e]) && After(w1, [u, e]) == Next(w2, e);
  }

  /** The same for a single close: it queues behind the call, the crash is noticed, and the close panics. */
  lemma EvictionBreaksClose(id: string)
    ensures var steps := [Begin(2, Close, id, 0), Crash(id), TouchOnly(3, id, 0), Finish(1, true, 0), Remove(2)];
      ValidRun(AtWork(id), steps) && Ended(After(AtWork(id), steps), 2, Panicked)
  {
    var b, c, u := Begin(2, Close, id, 0), Crash(id), TouchOnly(3, id, 0);
    var f, r := Finish(1, true, 0), Remove(2);
    JoinsQueue(AtWork(id), 2, id, [], 1);
    var w1 := Next(AtWork(id), b);
    assert [] + [2] == [2];
    var w2 := Next(w1, c);
    var w3 := Next(w2, u);
    assert id !in w3.sessions && w3.tasks[1] == Working(id) && w3.tasks[2] == Waiting(Close, id);
    assert w3.locks[id] == Lock(Some(1), [2]);
    CloseAfterEviction(w3, id);
    assert [f, r][1..] == [r] && [u, f, r][1..] == [f, r];
    assert [c, u, f, r][1..] == [u, f, r] && [b, c, u, f, r][1..] == [c, u, f, r];
    assert ValidRun(w2, [u, f, r]) && After(w2, [u, f, r]) == After(w3, [f, r]);
    assert ValidRun(w1, [c, u, f, r]) && After(w1, [c, u, f, r]) == After(w3, [f, r]);
  }

  lemma CloseAfterEviction(w: World, id: string)
    requires id !in w.sessions && w.locks == map[id := Lock(Some(1), [2])]
    requires 1 in w.tasks && w.tasks[1] == Working(id) && 2 in w.tasks && w.tasks[2] == Waiting(Close, id)
    ensures ValidRun(w, [Finish(1, true, 0), Remove(2)])
    ensures Ended(After(w, [Finish(1, true, 0), Remove(2)]), 2, Panicked)
  {
    var f, r := Finish(1, true, 0), Remove(2);
    var w1 := Next(w, f);
    assert [2][1..] == [];
    assert id !in w1.sessions && w1.tasks[2] == Holding(Close, id) && w1.locks[id] == Lock(Some(2), []);
    RunOf([r], w1);
    assert [f, r][1..] == [r];
  }
}
