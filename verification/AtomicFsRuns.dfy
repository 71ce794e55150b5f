/**
 * Under every interleaving, what the targets hold is what a store with indivisible writes
 * and deletes would hold: no reader ever sees a part of a write.
 */
module AtomicFsRuns {
  import opened Options
  import opened AtomicFs

  /** What an atomic store holds at `path` after the events of `log`. */
  function Latest(initial: Files, log: seq<Event>, path: string): Option<Bytes> {
    if log == [] then (if path in initial then Some(initial[path]) else None) else
      match log[|log| - 1]
      case Put(p, bytes) => if p == path then Some(bytes) else Latest(initial, log[..|log| - 1], path)
      case Delete(p) => if p == path then None else Latest(initial, log[..|log| - 1], path)
  }

  lemma LatestStep(initial: Files, log: seq<Event>, e: Event, path: string)
    ensures Latest(initial, log + [e], path) ==
      if e.path != path then Latest(initial, log, path) else if e.Put? then Some(e.bytes) else None
  {
    assert (log + [e])[..|log|] == log;
  }

  /** The number in the name of a writer's temporary file, once it has one. */
  function Num(p: Phase): Option<nat> {
    match p
    case MakingDir => None
    case Writing(n, _) => Some(n)
    case Renaming(n) => Some(n)
    case Cleaning(n) => Some(n)
    case Finished(name, _) => name
  }

  ghost predicate NamesOk(pid: nat, s: World) {
    && (forall w :: w in s.writers ==> !TempShaped(s.writers[w].path, pid))
    && (forall w :: w in s.writers && Num(s.writers[w].phase).Some? ==> Num(s.writers[w].phase).value < s.counter)
    && (forall v, w :: v in s.writers && w in s.writers && v != w && Num(s.writers[v].phase).Some? ==>
         Num(s.writers[v].phase) != Num(s.writers[w].phase))
  }

  /** What the temporary file of a writer holds. */
  ghost predicate TempOk(pid: nat, files: Files, k: Writer) {
    Num(k.phase).Some? ==>
      var tmp := TempName(k.path, pid, Num(k.phase).value);
      match k.phase
      case Writing(_, Some(upTo)) => upTo <= |k.bytes| && tmp in files && files[tmp] == k.bytes[..upTo]
      case Renaming(_) => tmp in files && files[tmp] == k.bytes
      case Finished(_, Renamed) => tmp !in files
      case Finished(_, Cleaned) => tmp !in files
      case _ => true
  }

  ghost predicate TempsOk(pid: nat, s: World) {
    forall w :: w in s.writers ==> TempOk(pid, s.files, s.writers[w])
  }

  function Held(files: Files, path: string): Option<Bytes> {
    if path in files then Some(files[path]) else None
  }

  /** The targets are what the atomic store holds. */
  ghost predicate TargetsOk(pid: nat, initial: Files, s: World) {
    forall p :: !TempShaped(p, pid) ==> Held(s.files, p) == Latest(initial, s.log, p)
  }

  /** Some write of exactly `bytes` to `path` was renamed into place. */
  ghost predicate Written(s: World, path: string, bytes: Bytes) {
    exists w :: w in s.writers && s.writers[w].path == path && s.writers[w].bytes == bytes
      && s.writers[w].phase.Finished? && s.writers[w].phase.end == Renamed
  }

  ghost predicate PutsOk(s: World) {
    forall i :: 0 <= i < |s.log| && s.log[i].Put? ==> Written(s, s.log[i].path, s.log[i].bytes)
  }

  ghost predicate Inv(pid: nat, initial: Files, s: World) {
    NamesOk(pid, s) && TempsOk(pid, s) && TargetsOk(pid, initial, s) && PutsOk(s)
  }

  // ----- What each step keeps ---------------------------------------------------------------------

  /** The writer a step belongs to moves on; the others stay as they are. */
  ghost predicate OneMoves(s: World, s': World, w: nat) {
    && w in s.writers && w in s'.writers && s'.writers == s.writers[w := s'.writers[w]]
    && s'.writers[w].path == s.writers[w].path && s'.writers[w].bytes == s.writers[w].bytes
    && s.counter <= s'.counter
    && (Num(s'.writers[w].phase) == Num(s.writers[w].phase)
        || (Num(s.writers[w].phase) == None && Num(s'.writers[w].phase) == Some(s.counter)
            && s'.counter == s.counter + 1)
        || Num(s'.writers[w].phase) == None)
  }

  predicate Moves(step: Step) {
    !step.Begin? && !step.Remove?
  }

  lemma StepMovesOne(pid: nat, s: World, step: Step)
    requires Enabled(pid, s, step) && Moves(step)
    ensures OneMoves(s, Next(pid, s, step), step.w)
  {
  }

  lemma MoveKeepsNames(pid: nat, s: World, s': World, w: nat)
    requires NamesOk(pid, s) && OneMoves(s, s', w)
    ensures NamesOk(pid, s')
  {
  }

  lemma StepKeepsNames(pid: nat, s: World, step: Step)
    requires NamesOk(pid, s) && Enabled(pid, s, step)
    ensures NamesOk(pid, Next(pid, s, step))
  {
    if Moves(step) {
      StepMovesOne(pid, s, step);
      MoveKeepsNames(pid, s, Next(pid, s, step), step.w);
    }
  }

  /** The file operations: what a step does to the writer's own file and to the targets. */
  ghost predicate Touches(pid: nat, s: World, s': World, w: nat) {
    && w in s.writers && Num(s.writers[w].phase).Some?
    && forall f :: f != TempName(s.writers[w].path, pid, Num(s.writers[w].phase).value) && TempShaped(f, pid) ==>
         Held(s'.files, f) == Held(s.files, f)
  }

  predicate MovesFile(step: Step) {
    step.Write? || step.RenameDone? || step.CleanDone?
  }

  lemma FileStepTouches(pid: nat, s: World, step: Step)
    requires NamesOk(pid, s) && Enabled(pid, s, step) && MovesFile(step)
    ensures Touches(pid, s, Next(pid, s, step), step.w)
  {
  }

  lemma TempKept(pid: nat, files: Files, files': Files, k: Writer)
    requires TempOk(pid, files, k)
    requires Num(k.phase).Some? ==>
      Held(files', TempName(k.path, pid, Num(k.phase).value)) == Held(files, TempName(k.path, pid, Num(k.phase).value))
    ensures TempOk(pid, files', k)
  {
  }

  /** Nobody else's temporary file is touched: the names are apart. */
  lemma OthersKeepTemps(pid: nat, s: World, s': World, w: nat, v: nat)
    requires NamesOk(pid, s) && TempsOk(pid, s) && Touches(pid, s, s', w) && v in s.writers && v != w
    ensures TempOk(pid, s'.files, s.writers[v])
  {
    var k := s.writers[v];
    if Num(k.phase).Some? {
      var mine, theirs := Num(s.writers[w].phase).value, Num(k.phase).value;
      if TempName(k.path, pid, theirs) == TempName(s.writers[w].path, pid, mine) {
        TempNameInjective(k.path, s.writers[w].path, pid, theirs, mine);
      }
      assert TempShaped(TempName(k.path, pid, theirs), pid);
    }
    TempKept(pid, s.files, s'.files, k);
  }

  lemma OwnTempKept(pid: nat, s: World, step: Step)
    requires NamesOk(pid, s) && TempsOk(pid, s) && Enabled(pid, s, step) && Moves(step)
    ensures TempOk(pid, Next(pid, s, step).files, Next(pid, s, step).writers[step.w])
  {
    assert TempOk(pid, s.files, s.writers[step.w]);
    if step.WriteDone? {
      var k := s.writers[step.w];
      assert k.bytes[..|k.bytes|] == k.bytes;
    } else if step.RenameDone? {
      assert TempShaped(TempName(s.writers[step.w].path, pid, s.writers[step.w].phase.n), pid);
    }
  }

  lemma StepKeepsTemps(pid: nat, s: World, step: Step)
    requires NamesOk(pid, s) && TempsOk(pid, s) && Enabled(pid, s, step)
    ensures TempsOk(pid, Next(pid, s, step))
  {
    var s' := Next(pid, s, step);
    forall v | v in s'.writers ensures TempOk(pid, s'.files, s'.writers[v]) {
      if Moves(step) && v == step.w {
        OwnTempKept(pid, s, step);
      } else if MovesFile(step) {
        FileStepTouches(pid, s, step);
        OthersKeepTemps(pid, s, s', step.w, v);
      } else if step.Remove? {
        var k := s.writers[v];
        assert Num(k.phase).Some? ==> TempShaped(TempName(k.path, pid, Num(k.phase).value), pid);
        TempKept(pid, s.files, s'.files, k);
      }
    }
  }

  /** A rename puts the whole of the write; nothing else but a delete changes a target. */
  lemma StepKeepsTargets(pid: nat, initial: Files, s: World, step: Step)
    requires NamesOk(pid, s) && TempsOk(pid, s) && TargetsOk(pid, initial, s) && Enabled(pid, s, step)
    ensures TargetsOk(pid, initial, Next(pid, s, step))
    ensures step.RenameDone? ==>
      Next(pid, s, step).log == s.log + [Put(s.writers[step.w].path, s.writers[step.w].bytes)]
  {
    var s' := Next(pid, s, step);
    if step.RenameDone? { assert TempOk(pid, s.files, s.writers[step.w]); }
    forall p | !TempShaped(p, pid) ensures Held(s'.files, p) == Latest(initial, s'.log, p) {
      if MovesFile(step) {
        var k := s.writers[step.w];
        assert TempShaped(TempName(k.path, pid, k.phase.n), pid);
      }
      if s'.log != s.log {
        LatestStep(initial, s.log, s'.log[|s.log|], p);
      }
    }
  }

  lemma StepKeepsWritten(pid: nat, s: World, step: Step, path: string, bytes: Bytes)
    requires Enabled(pid, s, step) && Written(s, path, bytes)
    ensures Written(Next(pid, s, step), path, bytes)
  {
    var w :| w in s.writers && s.writers[w].path == path && s.writers[w].bytes == bytes
      && s.writers[w].phase.Finished? && s.writers[w].phase.end == Renamed;
    var s' := Next(pid, s, step);
    assert w in s'.writers && s'.writers[w].path == path && s'.writers[w].bytes == bytes
      && s'.writers[w].phase.Finished? && s'.writers[w].phase.end == Renamed;
  }

  lemma StepKeepsPuts(pid: nat, s: World, step: Step)
    requires NamesOk(pid, s) && TempsOk(pid, s) && PutsOk(s) && Enabled(pid, s, step)
    ensures PutsOk(Next(pid, s, step))
  {
    var s' := Next(pid, s, step);
    forall i | 0 <= i < |s'.log| && s'.log[i].Put? ensures Written(s', s'.log[i].path, s'.log[i].bytes) {
      if i < |s.log| {
        StepKeepsWritten(pid, s, step, s.log[i].path, s.log[i].bytes);
      } else {
        assert TempOk(pid, s.files, s.writers[step.w]);
        assert step.w in s'.writers && s'.writers[step.w].phase.Finished?;
      }
    }
  }

  lemma StepKeepsInv(pid: nat, initial: Files, s: World, step: Step)
    requires Inv(pid, initial, s) && Enabled(pid, s, step)
    ensures Inv(pid, initial, Next(pid, s, step))
  {
    StepKeepsNames(pid, s, step);
    StepKeepsTemps(pid, s, step);
    StepKeepsTargets(pid, initial, s, step);
    StepKeepsPuts(pid, s, step);
  }

  // ----- Runs ----------------------------------------------------------------------------------------

  function Start(initial: Files): World {
    World(initial, 0, map[], [])
  }

  ghost predicate ValidRun(pid: nat, s: World, steps: seq<Step>)
    decreases |steps|
  {
    steps != [] ==> Enabled(pid, s, steps[0]) && ValidRun(pid, Next(pid, s, steps[0]), steps[1..])
  }

  ghost function After(pid: nat, s: World, steps: seq<Step>): World
    requires ValidRun(pid, s, steps)
    decreases |steps|
  {
    if steps == [] then s else After(pid, Next(pid, s, steps[0]), steps[1..])
  }

  lemma {:induction false} RunKeepsInv(pid: nat, initial: Files, s: World, steps: seq<Step>)
    requires Inv(pid, initial, s) && ValidRun(pid, s, steps)
    ensures Inv(pid, initial, After(pid, s, steps))
    decreases |steps|
  {
    if steps != [] {
      StepKeepsInv(pid, initial, s, steps[0]);
      RunKeepsInv(pid, initial, Next(pid, s, steps[0]), steps[1..]);
    }
  }

  /**
   * In every run, a target holds exactly what a store with indivisible writes and deletes would
   * hold, each write of which is the whole of one that was asked for.
   */
  lemma TargetsAreAtomic(pid: nat, initial: Files, steps: seq<Step>, path: string)
    requires ValidRun(pid, Start(initial), steps) && !TempShaped(path, pid)
    ensures var s := After(pid, Start(initial), steps);
      Held(s.files, path) == Latest(initial, s.log, path) && PutsOk(s)
  {
    RunKeepsInv(pid, initial, Start(initial), steps);
  }

  // ----- In terms of the steps alone ---------------------------------------------------------------

  lemma {:induction false} RunLast(pid: nat, s: World, steps: seq<Step>)
    requires ValidRun(pid, s, steps) && steps != []
    ensures var init, last := steps[..|steps| - 1], steps[|steps| - 1];
      && ValidRun(pid, s, init) && Enabled(pid, After(pid, s, init), last)
      && After(pid, s, steps) == Next(pid, After(pid, s, init), last)
    decreases |steps|
  {
    if |steps| > 1 {
      RunLast(pid, Next(pid, s, steps[0]), steps[1..]);
      assert steps[1..][..|steps| - 2] == steps[..|steps| - 1][1..];
    }
  }

  /** What writer `w` was asked to write, and where. */
  function AskedOf(steps: seq<Step>, w: nat): Option<(string, Bytes)> {
    if steps == [] then None else
      match steps[|steps| - 1]
      case Begin(v, path, bytes) => if v == w then Some((path, bytes)) else AskedOf(steps[..|steps| - 1], w)
      case _ => AskedOf(steps[..|steps| - 1], w)
  }

  /** Each rename that is done is the whole write that was asked for, and each removal a delete. */
  function EventsOf(steps: seq<Step>): seq<Event> {
    if steps == [] then [] else
      var init := steps[..|steps| - 1];
      match steps[|steps| - 1]
      case RenameDone(w) =>
        EventsOf(init) + (match AskedOf(init, w) case Some((path, bytes)) => [Put(path, bytes)] case None => [])
      case Remove(path) => EventsOf(init) + [Delete(path)]
      case _ => EventsOf(init)
  }

  lemma {:induction false} LogIsSteps(pid: nat, initial: Files, steps: seq<Step>)
    requires ValidRun(pid, Start(initial), steps)
    ensures var s := After(pid, Start(initial), steps);
      && s.log == EventsOf(steps)
      && forall w :: w in s.writers ==> AskedOf(steps, w) == Some((s.writers[w].path, s.writers[w].bytes))
    decreases |steps|
  {
    if steps != [] {
      var init, last := steps[..|steps| - 1], steps[|steps| - 1];
      RunLast(pid, Start(initial), steps);
      LogIsSteps(pid, initial, init);
      RunKeepsInv(pid, initial, Start(initial), init);
      var s := After(pid, Start(initial), init);
      StepKeepsTargets(pid, initial, s, last);
      if Moves(last) { StepMovesOne(pid, s, last); }
    }
  }

  /**
   * In every run, a target holds what it would if each write had been made, whole and at once,
   * when its rename was done, and each delete when the file was removed: read off the steps.
   */
  lemma TargetsFollowSteps(pid: nat, initial: Files, steps: seq<Step>, path: string)
    requires ValidRun(pid, Start(initial), steps) && !TempShaped(path, pid)
    ensures Held(After(pid, Start(initial), steps).files, path) == Latest(initial, EventsOf(steps), path)
  {
    LogIsSteps(pid, initial, steps);
    TargetsAreAtomic(pid, initial, steps, path);
  }

  lemma {:induction false} LatestOrigin(initial: Files, log: seq<Event>, path: string)
    requires Latest(initial, log, path).Some?
    ensures Held(initial, path) == Latest(initial, log, path)
      || exists i :: 0 <= i < |log| && log[i] == Put(path, Latest(initial, log, path).value)
  {
    if log != [] {
      var n := |log| - 1;
      if log[n] != Put(path, Latest(initial, log, path).value) {
        LatestOrigin(initial, log[..n], path);
        if Held(initial, path) != Latest(initial, log, path) {
          var i :| 0 <= i < n && log[..n][i] == Put(path, Latest(initial, log, path).value);
          assert log[i] == log[..n][i];
        }
      }
    }
  }

  /** In every run, a target holds what it held at first, nothing, or the whole of one write to it. */
  lemma NoPartialWrite(pid: nat, initial: Files, steps: seq<Step>, path: string)
    requires ValidRun(pid, Start(initial), steps) && !TempShaped(path, pid)
    requires path in After(pid, Start(initial), steps).files
    ensures var s := After(pid, Start(initial), steps);
      Held(initial, path) == Some(s.files[path]) || Written(s, path, s.files[path])
  {
    RunKeepsInv(pid, initial, Start(initial), steps);
    var s := After(pid, Start(initial), steps);
    LatestOrigin(initial, s.log, path);
  }

  /**
   * In every run, a read of a target that succeeds answers what the atomic store holds: its
   * first content, the whole of one write, or that there is no file.
   */
  lemma ReadsAreAtomic(pid: nat, initial: Files, steps: seq<Step>, path: string, ioOk: bool)
    requires ValidRun(pid, Start(initial), steps) && !TempShaped(path, pid)
    ensures var s := After(pid, Start(initial), steps);
      var r := ReadResult(s.files, path, ioOk);
      && (r.Ok? ==> r.value == Latest(initial, s.log, path))
      && (r.Err? <==> Latest(initial, s.log, path).Some? && !ioOk)
      && (r.Ok? && r.value.Some? ==> Held(initial, path) == r.value || Written(s, path, r.value.value))
  {
    TargetsAreAtomic(pid, initial, steps, path);
    var s := After(pid, Start(initial), steps);
    if path in s.files { NoPartialWrite(pid, initial, steps, path); }
  }

  /** In every run, no two writes share a temporary name, even to the same target. */
  lemma TempNamesApart(pid: nat, initial: Files, steps: seq<Step>, v: nat, w: nat)
    requires ValidRun(pid, Start(initial), steps) && v != w
    requires var k := After(pid, Start(initial), steps).writers;
      v in k && w in k && Num(k[v].phase).Some? && Num(k[w].phase).Some?
    ensures var k := After(pid, Start(initial), steps).writers;
      TempName(k[v].path, pid, Num(k[v].phase).value) != TempName(k[w].path, pid, Num(k[w].phase).value)
  {
    RunKeepsInv(pid, initial, Start(initial), steps);
    var k := After(pid, Start(initial), steps).writers;
    var m, n := Num(k[v].phase).value, Num(k[w].phase).value;
    if TempName(k[v].path, pid, m) == TempName(k[w].path, pid, n) {
      TempNameInjective(k[v].path, k[w].path, pid, m, n);
    }
  }

  /** In every run, a write that was renamed, or cleaned up, has left no temporary file. */
  lemma FinishedLeavesNoTemp(pid: nat, initial: Files, steps: seq<Step>, w: nat)
    requires ValidRun(pid, Start(initial), steps)
    requires var k := After(pid, Start(initial), steps).writers;
      w in k && k[w].phase.Finished? && k[w].phase.name.Some? && k[w].phase.end in {Renamed, Cleaned}
    ensures var s := After(pid, Start(initial), steps);
      TempName(s.writers[w].path, pid, s.writers[w].phase.name.value) !in s.files
  {
    RunKeepsInv(pid, initial, Start(initial), steps);
    var s := After(pid, Start(initial), steps);
    assert TempOk(pid, s.files, s.writers[w]);
  }
}
