/**
 * What each tab of a session has shown, and what that says of its refs. The history of a tab is
 * read off the answers of a run: the trees it showed, and the times its page was another one.
 * The ref tables and generations that the session keeps are no part of it.
 */
module TabHistory {
  import opened Options
  import opened AxTree
  import opened SnapshotRefs
  import opened CaptureFacts
  import opened TabRefs
  import opened TabRuns

  datatype Event = Showed(g: Grown) | Moved

  type History = seq<Event>

  /** The tree that an operation answers with. */
  ghost function ShownTree(s: Session, op: Op): Grown
    requires s.active < |s.tabs| && Step(s, op).answer.Snapped?
  {
    var c := CaptureOnce(op.first, s.next);
    if op.Resnap? || c.got.value.snapshot.root.children != [] then GrownFrom(op.first.b, s.next)
    else GrownFrom(op.second.b, c.next)
  }

  lemma ShownIsAnswered(s: Session, op: Op)
    requires s.active < |s.tabs| && Step(s, op).answer.Snapped?
    ensures var g, capture := ShownTree(s, op), Step(s, op).answer.capture;
      && g.refs == TreeRefs(capture.snapshot.root.children) && g.table == capture.refs
      && Step(s, op).s.tabs[Step(s, op).answer.tab].url == capture.snapshot.url
  {
    SnappedCaptures(s, op);
    StepConcludes(s, op);
    assert Some(Step(s, op).answer.capture) == CaptureBy(s, op).got;
  }

  lemma SnappedCaptures(s: Session, op: Op)
    requires s.active < |s.tabs| && Step(s, op).answer.Snapped?
    ensures Captures(s, op)
  {
  }

  /** The histories up to what the operation shows: a new tab has none, a navigation moves the page. */
  ghost function Opened(s: Session, op: Op, logs: seq<History>): seq<History>
    requires s.active < |s.tabs| == |logs|
  {
    if op.NewTab? && op.ready then logs + [[]]
    else if op.Navigate? && op.goto != GotoFailed then logs[s.active := logs[s.active] + [Moved]]
    else logs
  }

  /** The histories of the tabs after an operation: one more event, one more tab, or one less. */
  ghost function HistoriesAfter(s: Session, op: Op, logs: seq<History>): (r: seq<History>)
    requires s.active < |s.tabs| == |logs|
    ensures |r| == |Step(s, op).s.tabs|
  {
    var answer := Step(s, op).answer;
    if op.CloseTab? then
      var target := UnwrapOr(op.which, s.active);
      if answer.Closed? then logs[..target] + logs[target + 1..] else logs
    else
      var logs' := Opened(s, op, logs);
      if answer.Snapped? then logs'[answer.tab := logs'[answer.tab] + [Showed(ShownTree(s, op))]] else logs'
  }

  ghost function Histories(s: Session, ops: seq<Op>, logs: seq<History>): (r: seq<History>)
    requires s.active < |s.tabs| == |logs| && ValidRun(s, ops)
    ensures |r| == |After(s, ops).tabs|
    decreases |ops|
  {
    if ops == [] then logs else Histories(Step(s, ops[0]).s, ops[1..], HistoriesAfter(s, ops[0], logs))
  }

  // ----- What the session keeps of them ----------------------------------------------------------

  function LastShown(log: History): Option<Grown> {
    if log == [] then None
    else if log[|log| - 1].Showed? then Some(log[|log| - 1].g)
    else LastShown(log[..|log| - 1])
  }

  function Moves(log: History): nat {
    if log == [] then 0 else Moves(log[..|log| - 1]) + if log[|log| - 1].Moved? then 1 else 0
  }

  /** How often the page had moved when the tab first recorded the ref. */
  function FirstSeen(log: History, r: string): Option<nat> {
    if log == [] then None else
      var init, last := log[..|log| - 1], log[|log| - 1];
      if FirstSeen(init, r).Some? then FirstSeen(init, r)
      else if last.Showed? && r in last.g.table then Some(Moves(init))
      else None
  }

  /** The table records the shown nodes, and what it says of a ref holds of every node that has it. */
  ghost predicate TreeOk(g: Grown) {
    && |g.refs| == |g.nodes|
    && (forall r :: r in g.table <==> exists k :: LastNamed(g.nodes, g.refs, r, k))
    && (forall r, k :: LastNamed(g.nodes, g.refs, r, k) ==> r in g.table && EntryOf(g.table[r], g.nodes[k]))
    && (forall k :: Has(g, k) && g.nodes[k].backendNodeId.Some? ==>
          && g.refs[k] in g.table && g.table[g.refs[k]].isOopif == g.nodes[k].oopif
          && Some(g.table[g.refs[k]].backendNodeId) == g.nodes[k].backendNodeId)
  }

  ghost predicate KeptIn(t: Tab, log: History) {
    && t.latest == (match LastShown(log) case Some(g) => g.table case None => map[])
    && t.generation == Moves(log)
    && (forall r :: r in t.known <==> FirstSeen(log, r).Some?)
    && (forall r :: r in t.known ==> t.known[r] == FirstSeen(log, r).value)
    && forall i :: 0 <= i < |log| && log[i].Showed? ==> TreeOk(log[i].g)
  }

  ghost predicate AllKept(s: Session, logs: seq<History>) {
    |logs| == |s.tabs| && forall i :: 0 <= i < |logs| ==> KeptIn(s.tabs[i], logs[i])
  }

  lemma GrownTreeOk(b: Build, refs: RefTable, next: nat)
    requires ValidBuild(b, refs) && TableBelow(refs, next)
    ensures TreeOk(GrownFrom(b, next))
  {
    var g := GrownFrom(b, next);
    CaptureIsEnter(b.nodes, b.f, b.previous, next, b.url);
    EnterNames(g.nodes, b.previous, next, map[]);
    forall r
      ensures r in g.table <==> exists k :: LastNamed(g.nodes, g.refs, r, k)
      ensures forall k :: LastNamed(g.nodes, g.refs, r, k) ==> r in g.table && EntryOf(g.table[r], g.nodes[k])
    {
      CaptureTable(b.nodes, b.f, b.previous, next, b.url, r);
    }
    forall k | Has(g, k) && g.nodes[k].backendNodeId.Some?
      ensures g.refs[k] in g.table && g.table[g.refs[k]].isOopif == g.nodes[k].oopif
        && Some(g.table[g.refs[k]].backendNodeId) == g.nodes[k].backendNodeId
    {
      ReusedBackend(g.nodes, refs, b.previous, next, k);
    }
  }

  lemma ShownTreeOk(s: Session, op: Op, hist: seq<Grown>)
    requires Inv(s, hist) && ValidOp(s, op) && Step(s, op).answer.Snapped?
    ensures TreeOk(ShownTree(s, op))
  {
    var refs := StartingRefs(s, op);
    FromHistBelow(refs, hist, s.next);
    GrownTreeOk(op.first.b, refs, s.next);
    if !op.Resnap? && CaptureOnce(op.first, s.next).got.value.snapshot.root.children == [] {
      BuildExtends(hist, s.next, op.first, refs);
      var next := CaptureOnce(op.first, s.next).next;
      forall r | r in refs ensures MintedIn(r, 0, next) { MintedMore(r, 0, s.next, 0, next); }
      GrownTreeOk(op.second.b, refs, next);
    }
  }

  lemma MovedKept(t: Tab, log: History)
    requires KeptIn(t, log)
    ensures KeptIn(t.(generation := t.generation + 1), log + [Moved])
  {
    assert (log + [Moved])[..|log|] == log;
    assert LastShown(log + [Moved]) == LastShown(log);
    assert forall r :: FirstSeen(log + [Moved], r) == FirstSeen(log, r);
  }

  lemma ShowedKept(t: Tab, log: History, g: Grown, capture: AxCapture)
    requires KeptIn(t, log) && TreeOk(g) && g.table == capture.refs
    ensures KeptIn(Install(t, capture), log + [Showed(g)])
  {
    assert (log + [Showed(g)])[..|log|] == log;
    forall r
      ensures FirstSeen(log + [Showed(g)], r) ==
        if FirstSeen(log, r).None? && r in g.table then Some(Moves(log)) else FirstSeen(log, r)
    {
    }
  }

  /** The session up to its capture, and the histories up to what it shows. */
  lemma PreparedKept(s: Session, op: Op, logs: seq<History>)
    requires s.active < |s.tabs| && AllKept(s, logs) && Captures(s, op)
    ensures AllKept(Prepared(s, op).0, Opened(s, op, logs))
  {
    if op.Navigate? { MovedKept(s.tabs[s.active], logs[s.active]); }
  }

  lemma CloseKept(s: Session, which: Option<nat>, logs: seq<History>)
    requires s.active < |s.tabs| && AllKept(s, logs)
    ensures AllKept(Step(s, CloseTab(which)).s, HistoriesAfter(s, CloseTab(which), logs))
  {
    var s', logs' := Step(s, CloseTab(which)).s, HistoriesAfter(s, CloseTab(which), logs);
    if Step(s, CloseTab(which)).answer.Closed? {
      var target := UnwrapOr(which, s.active);
      forall i | 0 <= i < |logs'| ensures KeptIn(s'.tabs[i], logs'[i]) {
        var k := if i < target then i else i + 1;
        assert s'.tabs[i] == s.tabs[k] && logs'[i] == logs[k];
      }
    }
  }

  lemma NoCaptureKept(s: Session, op: Op, logs: seq<History>)
    requires s.active < |s.tabs| && AllKept(s, logs) && !Captures(s, op)
    ensures AllKept(Step(s, op).s, HistoriesAfter(s, op, logs))
  {
    match op
    case Navigate(_, _, _, _) => MovedKept(s.tabs[s.active], logs[s.active]);
    case CloseTab(which) => CloseKept(s, which, logs);
    case _ =>
  }

  lemma StepKept(s: Session, op: Op, hist: seq<Grown>, logs: seq<History>)
    requires Inv(s, hist) && ValidOp(s, op) && AllKept(s, logs)
    ensures AllKept(Step(s, op).s, HistoriesAfter(s, op, logs))
  {
    if !Captures(s, op) {
      NoCaptureKept(s, op, logs);
    } else {
      var (s', i) := Prepared(s, op);
      StepConcludes(s, op);
      PreparedKept(s, op, logs);
      if Step(s, op).answer.Snapped? {
        ShownTreeOk(s, op, hist);
        ShownIsAnswered(s, op);
        ShowedKept(s'.tabs[i], Opened(s, op, logs)[i], ShownTree(s, op), Step(s, op).answer.capture);
      }
    }
  }

  lemma {:induction false} RunKept(s: Session, ops: seq<Op>, hist: seq<Grown>, logs: seq<History>)
    requires Inv(s, hist) && ValidRun(s, ops) && AllKept(s, logs)
    ensures AllKept(After(s, ops), Histories(s, ops, logs))
    decreases |ops|
  {
    if ops != [] {
      StepKept(s, ops[0], hist, logs);
      StepKeepsInv(s, ops[0], hist);
      RunKept(Step(s, ops[0]).s, ops[1..], hist + Trees(s, ops[0]), HistoriesAfter(s, ops[0], logs));
    }
  }

  ghost function TabHistoryOf(ops: seq<Op>, i: nat): History
    requires ValidRun(NewSession(), ops) && i < |After(NewSession(), ops).tabs|
  {
    Histories(NewSession(), ops, [[]])[i]
  }

  lemma TabKept(ops: seq<Op>, i: nat)
    requires ValidRun(NewSession(), ops) && i < |After(NewSession(), ops).tabs|
    ensures KeptIn(After(NewSession(), ops).tabs[i], TabHistoryOf(ops, i))
  {
    NewSessionInv();
    RunKept(NewSession(), ops, [], [[]]);
  }

  // ----- What a ref resolves to ---------------------------------------------------------------------

  /** Some tree the tab showed recorded the ref, and its page was another one later. */
  ghost predicate SeenBeforeMove(log: History, r: string) {
    exists i, j :: 0 <= i < j < |log| && log[i].Showed? && r in log[i].g.table && log[j].Moved?
  }

  lemma {:induction false} SeenIsFirstSeen(log: History, r: string)
    ensures FirstSeen(log, r).Some? ==> FirstSeen(log, r).value <= Moves(log)
    ensures FirstSeen(log, r).Some? <==> exists i :: 0 <= i < |log| && log[i].Showed? && r in log[i].g.table
    ensures SeenBeforeMove(log, r) <==> FirstSeen(log, r).Some? && FirstSeen(log, r).value < Moves(log)
  {
    if log != [] {
      var init, last := log[..|log| - 1], log[|log| - 1];
      SeenIsFirstSeen(init, r);
      if FirstSeen(init, r).Some? {
        var i :| 0 <= i < |init| && init[i].Showed? && r in init[i].g.table;
        assert log[i] == init[i];
        if last.Moved? { assert log[i].Showed? && r in log[i].g.table && log[|log| - 1].Moved?; }
      }
      if SeenBeforeMove(init, r) {
        var i, j :| 0 <= i < j < |init| && init[i].Showed? && r in init[i].g.table && init[j].Moved?;
        assert log[i].Showed? && r in log[i].g.table && log[j].Moved?;
      }
      if SeenBeforeMove(log, r) {
        var i, j :| 0 <= i < j < |log| && log[i].Showed? && r in log[i].g.table && log[j].Moved?;
        assert init[i] == log[i] && (j < |init| ==> init[j] == log[j]);
      }
    }
  }

  /**
   * In every run, a ref of the tree a tab showed last resolves to the backend id and the role of
   * the node that has it, the last such node if there are several, unless that is in another
   * process. Any other ref answers "stale" exactly when the page has moved since it was recorded.
   */
  lemma ResolvesTo(ops: seq<Op>, i: nat, r: string)
    requires ValidRun(NewSession(), ops) && i < |After(NewSession(), ops).tabs|
    ensures var answer, log := Resolve(After(NewSession(), ops).tabs[i], r), TabHistoryOf(ops, i);
      var shown := LastShown(log);
      if shown.Some? && exists k :: LastNamed(shown.value.nodes, shown.value.refs, r, k) then
        exists k :: LastNamed(shown.value.nodes, shown.value.refs, r, k) && Answers(answer, shown.value.nodes[k])
      else answer == if SeenBeforeMove(log, r) then Stale else NotInSnapshot
  {
    var t, log := After(NewSession(), ops).tabs[i], TabHistoryOf(ops, i);
    TabKept(ops, i);
    SeenIsFirstSeen(log, r);
    LastShownIn(log);
    if LastShown(log).Some? {
      var g := LastShown(log).value;
      assert TreeOk(g);
      if k :| LastNamed(g.nodes, g.refs, r, k) {
        assert EntryOf(g.table[r], g.nodes[k]);
        assert Answers(Resolve(t, r), g.nodes[k]);
      }
    }
  }

  /** What acting on a node is told: its backend id and role, or that it cannot be acted on. */
  predicate Answers(answer: Resolution, n: RawAxNode) {
    if n.oopif then answer == CrossOrigin
    else
      && n.backendNodeId.Some?
      && answer == Found(n.backendNodeId.value, match n.role case Some(role) => role case None => "")
  }

  lemma {:induction false} LastShownIn(log: History)
    ensures LastShown(log).Some? ==> exists i :: 0 <= i < |log| && log[i] == Showed(LastShown(log).value)
  {
    if log != [] && log[|log| - 1].Moved? {
      LastShownIn(log[..|log| - 1]);
      if LastShown(log).Some? {
        var i :| 0 <= i < |log| - 1 && log[..|log| - 1][i] == Showed(LastShown(log).value);
        assert log[i] == Showed(LastShown(log).value);
      }
    }
  }

  // ----- A node keeps its ref -------------------------------------------------------------------------

  lemma StartsFromTab(s: Session, op: Op)
    requires s.active < |s.tabs| && (op.Act? || op.Resnap? || op.SelectTab?) && Step(s, op).answer.Snapped?
    ensures Step(s, op).answer.tab < |s.tabs| && StartingRefs(s, op) == s.tabs[Step(s, op).answer.tab].latest
  {
  }

  ghost predicate OneMainNode(g: Grown, j: nat, h: Grown, k: nat) {
    && Has(g, j) && Has(h, k) && !g.nodes[j].oopif && !h.nodes[k].oopif
    && g.nodes[j].backendNodeId.Some? && g.nodes[j].backendNodeId == h.nodes[k].backendNodeId
  }

  /** A tree built from the table of `g` gives the nodes that `g` showed their refs back. */
  lemma SurvivorReuses(b: Build, next: nat, g: Grown, j: nat, k: nat)
    requires ValidBuild(b, g.table) && TreeOk(g) && DistinctBackends(g.nodes)
    requires OneMainNode(g, j, GrownFrom(b, next), k)
    ensures GrownFrom(b, next).refs[k] == g.refs[j]
  {
    var h, id := GrownFrom(b, next), g.nodes[j].backendNodeId.value;
    CaptureIsEnter(b.nodes, b.f, b.previous, next, b.url);
    EnterNames(h.nodes, b.previous, next, map[]);
    assert g.refs[j] in g.table && id in b.previous;
    var r := b.previous[id];
    var m :| LastNamed(g.nodes, g.refs, r, m);
    assert EntryOf(g.table[r], g.nodes[m]) && m == j;
  }

  lemma ShownReuses(s: Session, op: Op, g: Grown, j: nat, k: nat)
    requires s.active < |s.tabs| && ValidOp(s, op) && Step(s, op).answer.Snapped?
    requires StartingRefs(s, op) == g.table && TreeOk(g) && DistinctBackends(g.nodes)
    requires OneMainNode(g, j, ShownTree(s, op), k)
    ensures ShownTree(s, op).refs[k] == g.refs[j]
  {
    if op.Resnap? || CaptureOnce(op.first, s.next).got.value.snapshot.root.children != [] {
      SurvivorReuses(op.first.b, s.next, g, j, k);
    } else {
      SurvivorReuses(op.second.b, CaptureOnce(op.first, s.next).next, g, j, k);
    }
  }

  /**
   * In every run: when an action, a snapshot or a switch of tabs shows a tree of a tab, a node of
   * the main process that the tab's last tree showed too has the same ref in both, provided the
   * last tree had each main-process backend id once.
   */
  lemma NodeKeepsRef(ops: seq<Op>, op: Op, j: nat, k: nat)
    requires ValidRun(NewSession(), ops) && (op.Act? || op.Resnap? || op.SelectTab?)
    requires ValidOp(After(NewSession(), ops), op) && Step(After(NewSession(), ops), op).answer.Snapped?
    requires var s := After(NewSession(), ops);
      Step(s, op).answer.tab < |s.tabs| && LastShown(TabHistoryOf(ops, Step(s, op).answer.tab)).Some?
    requires var s := After(NewSession(), ops);
      var g, h := LastShown(TabHistoryOf(ops, Step(s, op).answer.tab)).value, ShownTree(s, op);
      DistinctBackends(g.nodes) && OneMainNode(g, j, h, k)
    ensures var s := After(NewSession(), ops);
      var g, capture := LastShown(TabHistoryOf(ops, Step(s, op).answer.tab)).value, Step(s, op).answer.capture;
      var refs := TreeRefs(capture.snapshot.root.children);
      k < |refs| && refs[k] == g.refs[j]
  {
    var s := After(NewSession(), ops);
    var i := Step(s, op).answer.tab;
    var log := TabHistoryOf(ops, i);
    TabKept(ops, i);
    LastShownIn(log);
    ShownIsAnswered(s, op);
    StartsFromTab(s, op);
    ShownReuses(s, op, LastShown(log).value, j, k);
  }

  // ----- The active tab -------------------------------------------------------------------------------

  /**
   * Which tab is active: a new one after opening it, the one selected, and otherwise the one that
   * was, wherever it moves, as long as it is open; if it was closed, the one that takes its place.
   */
  lemma ActiveTabIs(s: Session, op: Op)
    requires s.active < |s.tabs|
    ensures var s', answer := Step(s, op).s, Step(s, op).answer;
      && (op.NewTab? && op.ready ==> |s'.tabs| == |s.tabs| + 1 && s'.active == |s.tabs|)
      && (op.SelectTab? && op.index < |s.tabs| ==> |s'.tabs| == |s.tabs| && s'.active == op.index)
      && (op.Navigate? || op.Act? || op.Resnap? ==> |s'.tabs| == |s.tabs| && s'.active == s.active)
      && (op.CloseTab? && answer.Closed? ==>
            var gone := match op.which case Some(k) => k case None => s.active;
            && gone < |s.tabs| && |s.tabs| > 1 && answer.active == s'.active
            && s'.tabs == s.tabs[..gone] + s.tabs[gone + 1..]
            && if gone != s.active then Follow(s, op, s.active) == Some(s'.active)
               else s'.active == if gone + 1 < |s.tabs| then gone else gone - 1)
      && (answer.Refused? && !op.Navigate? && !op.NewTab? && !op.SelectTab? ==> s'.tabs == s.tabs)
  {
  }
}
