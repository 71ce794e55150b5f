/**
 * What holds over every run of a session: captures, navigations, tab switches, failures
 * and cancellations in any order. `hist` collects every tree the run has built, whether or
 * not it was ever shown.
 */
module TabRuns {
  import opened Options
  import opened AxTree
  import opened SnapshotRefs
  import opened TabRefs

  // ----- The trees a run builds ---------------------------------------------------------

  /**
   * One tree: its nodes in the order they were named, the reverse index it started from, the
   * ref of each node, and the table it recorded.
   */
  datatype Grown = Grown(nodes: seq<RawAxNode>, previous: map<int, string>, refs: seq<string>, table: RefTable)

  function GrownFrom(b: Build, next: nat): Grown {
    var capture := Capture(b.nodes, b.f, b.previous, next, b.url).0;
    Grown(Survivors(b.f), b.previous, TreeRefs(capture.snapshot.root.children), capture.refs)
  }

  function TreeOf(a: Attempt, next: nat): seq<Grown> {
    if a.NoTree? then [] else [GrownFrom(a.b, next)]
  }

  function TreesOf(first: Attempt, second: Attempt, next: nat): seq<Grown> {
    var c := CaptureOnce(first, next);
    TreeOf(first, next) +
    if c.got.Some? && c.got.value.snapshot.root.children == [] then TreeOf(second, c.next) else []
  }

  /** Whether the operation gets as far as asking for a tree. */
  predicate Captures(s: Session, op: Op) {
    match op
    case Navigate(goto, blocked, _, _) => goto == Reached && !blocked
    case NewTab(ready, _, _) => ready
    case SelectTab(index, _, _) => index < |s.tabs|
    case CloseTab(_) => false
    case _ => true
  }

  /** The session as the operation leaves it up to its capture, and the tab that capture is for. */
  function Prepared(s: Session, op: Op): (Session, nat)
    requires s.active < |s.tabs| && Captures(s, op)
  {
    match op
    case Navigate(_, _, _, _) =>
      var t := s.tabs[s.active];
      (s.(tabs := s.tabs[s.active := t.(generation := t.generation + 1)]), s.active)
    case NewTab(_, _, _) => (Session(s.tabs + [FreshTab()], |s.tabs|, s.next), |s.tabs|)
    case SelectTab(index, _, _) => (s.(active := index), index)
    case _ => (s, s.active)
  }

  function CaptureBy(s: Session, op: Op): Captured
    requires Captures(s, op)
  {
    if op.Resnap? then CaptureOnce(op.first, s.next) else WaitAndCapture(op.first, op.second, s.next)
  }

  lemma StepConcludes(s: Session, op: Op)
    requires s.active < |s.tabs| && Captures(s, op)
    ensures var (s', i) := Prepared(s, op);
      i < |s'.tabs| && Step(s, op) == Conclude(s', i, CaptureBy(s, op))
  {
  }

  function Trees(s: Session, op: Op): seq<Grown> {
    if !Captures(s, op) then []
    else if op.Resnap? then TreeOf(op.first, s.next)
    else TreesOf(op.first, op.second, s.next)
  }

  // ----- What refs stand for ---------------------------------------------------------------

  predicate Has(g: Grown, k: int) {
    0 <= k < |g.nodes| && k < |g.refs|
  }

  /** The table's entry for `r` is that of node `k`. */
  ghost predicate RecordedAt(g: Grown, r: string, k: int) {
    Has(g, k) && g.refs[k] == r && r in g.table && g.nodes[k].backendNodeId.Some? && g.table[r] == Resolved(g.nodes[k])
  }

  /** All refs were minted before `next`, a ref given twice was reused, and the table records only refs given. */
  ghost predicate GrownOk(g: Grown, next: nat) {
    && |g.refs| == |g.nodes|
    && (forall k :: Has(g, k) ==> MintedIn(g.refs[k], 0, next))
    && (forall k, l :: Has(g, k) && Has(g, l) && k != l && g.refs[k] == g.refs[l] ==> Reusable(g.nodes[k], g.previous))
    && (forall r :: r in g.table ==> exists k :: RecordedAt(g, r, k))
  }

  /** Both stand for one node of the main process. */
  predicate OneNode(m: RawAxNode, n: RawAxNode) {
    m.backendNodeId.Some? && m.backendNodeId == n.backendNodeId && !m.oopif && !n.oopif
  }

  /** The same ref stands for the same node in both trees. */
  ghost predicate Agree(g: Grown, h: Grown) {
    forall k, l :: Has(g, k) && Has(h, l) && g.refs[k] == h.refs[l] ==>
      g.nodes[k] == h.nodes[l] || OneNode(g.nodes[k], h.nodes[l])
  }

  /** No ref that was minted for a node of `g` was given to a node of `h`. */
  ghost predicate NewTo(g: Grown, h: Grown) {
    forall k :: Has(g, k) && !Reusable(g.nodes[k], g.previous) ==> g.refs[k] !in h.refs
  }

  ghost predicate Consistent(hist: seq<Grown>, next: nat) {
    && (forall i :: 0 <= i < |hist| ==> GrownOk(hist[i], next))
    && (forall i, j :: 0 <= i < |hist| && 0 <= j < |hist| ==> Agree(hist[i], hist[j]))
    && (forall i, j :: 0 <= i < j < |hist| ==> NewTo(hist[j], hist[i]))
  }

  /** `refs` is empty, or the table of a tree of the run. */
  ghost predicate FromHist(refs: RefTable, hist: seq<Grown>) {
    refs == map[] || exists i :: 0 <= i < |hist| && hist[i].table == refs
  }

  lemma MintedMore(r: string, lo: nat, hi: nat, lo': nat, hi': nat)
    requires MintedIn(r, lo, hi) && lo' <= lo && hi <= hi'
    ensures MintedIn(r, lo', hi')
  {
    var m: nat :| lo <= m < hi && r == RefName(m);
  }

  lemma TreeTableBelow(g: Grown, next: nat)
    requires GrownOk(g, next)
    ensures TableBelow(g.table, next)
  {
    forall r | r in g.table ensures MintedIn(r, 0, next) {
      var k :| RecordedAt(g, r, k);
    }
  }

  lemma FromHistBelow(refs: RefTable, hist: seq<Grown>, next: nat)
    requires Consistent(hist, next) && FromHist(refs, hist)
    ensures TableBelow(refs, next)
  {
    if refs != map[] {
      var i :| 0 <= i < |hist| && hist[i].table == refs;
      TreeTableBelow(hist[i], next);
    }
  }

  /** Node `k` has a ref from the table `refs` that stood for it there, or one minted in `[next, next')`. */
  ghost predicate GivenFrom(g: Grown, k: int, refs: RefTable, next: nat, next': nat)
    requires Has(g, k)
  {
    if Reusable(g.nodes[k], g.previous) then
      var r := g.refs[k];
      r in refs && !refs[r].isOopif && Some(refs[r].backendNodeId) == g.nodes[k].backendNodeId
    else MintedIn(g.refs[k], next, next')
  }

  /** Where the ref of each node of one tree comes from. */
  lemma GrownRefs(b: Build, refs: RefTable, next: nat)
    requires ValidBuild(b, refs) && TableBelow(refs, next)
    ensures var g, next' := GrownFrom(b, next), Capture(b.nodes, b.f, b.previous, next, b.url).1;
      && next' >= next && |g.refs| == |g.nodes|
      && forall k :: Has(g, k) ==> GivenFrom(g, k, refs, next, next') && MintedIn(g.refs[k], 0, next')
  {
    var g, next' := GrownFrom(b, next), Capture(b.nodes, b.f, b.previous, next, b.url).1;
    CaptureIsEnter(b.nodes, b.f, b.previous, next, b.url);
    EnterNames(g.nodes, b.previous, next, map[]);
    forall k | Has(g, k) ensures GivenFrom(g, k, refs, next, next') && MintedIn(g.refs[k], 0, next') {
      if Reusable(g.nodes[k], b.previous) {
        var id := g.nodes[k].backendNodeId.value;
        assert id in b.previous && b.previous[id] in refs;
        assert g.refs[k] == b.previous[id];
        MintedMore(g.refs[k], 0, next, 0, next');
      } else {
        MintedMore(g.refs[k], next, next', 0, next');
      }
    }
  }

  /** One tree on its own. */
  lemma GrownAlone(b: Build, refs: RefTable, next: nat)
    requires ValidBuild(b, refs) && TableBelow(refs, next)
    ensures GrownOk(GrownFrom(b, next), Capture(b.nodes, b.f, b.previous, next, b.url).1)
  {
    var g, e := GrownFrom(b, next), Enter(Survivors(b.f), b.previous, next, map[]);
    GrownRefs(b, refs, next);
    CaptureIsEnter(b.nodes, b.f, b.previous, next, b.url);
    EnterTable(g.nodes, b.previous, next, map[]);
    forall k, l | Has(g, k) && Has(g, l) && k != l && g.refs[k] == g.refs[l] ensures Reusable(g.nodes[k], g.previous) {
      SameRefIff(g.nodes, refs, b.previous, next, if k < l then k else l, if k < l then l else k);
    }
    forall r | r in g.table ensures exists k :: RecordedAt(g, r, k) {
      var k :| NamedAt(g.nodes, e, r, k);
      assert RecordedAt(g, r, k);
    }
  }

  /** A ref of the new tree that an earlier tree has was reused, and stands for the same node. */
  lemma OldRefReused(
    hist: seq<Grown>, i: nat, k: nat, g: Grown, l: nat, refs: RefTable, next: nat, next': nat)
    requires Consistent(hist, next) && FromHist(refs, hist) && i < |hist| && Has(hist[i], k) && Has(g, l)
    requires GivenFrom(g, l, refs, next, next') && hist[i].refs[k] == g.refs[l]
    ensures Reusable(g.nodes[l], g.previous) && OneNode(hist[i].nodes[k], g.nodes[l])
  {
    var r := g.refs[l];
    if !Reusable(g.nodes[l], g.previous) {
      assert GrownOk(hist[i], next);
      MintedApart(r, 0, next, next, next');
    } else {
      var h :| 0 <= h < |hist| && hist[h].table == refs;
      assert GrownOk(hist[h], next);
      var m :| RecordedAt(hist[h], r, m);
      assert Agree(hist[i], hist[h]);
    }
  }

  lemma AgreeWithin(g: Grown, refs: RefTable, next: nat, next': nat)
    requires GrownOk(g, next') && forall k :: Has(g, k) ==> GivenFrom(g, k, refs, next, next')
    ensures Agree(g, g)
  {
    forall k, l | Has(g, k) && Has(g, l) && k != l && g.refs[k] == g.refs[l] ensures OneNode(g.nodes[k], g.nodes[l]) {
      assert Reusable(g.nodes[k], g.previous) && Reusable(g.nodes[l], g.previous);
      assert GivenFrom(g, k, refs, next, next') && GivenFrom(g, l, refs, next, next');
    }
  }

  lemma GrownOkMore(g: Grown, next: nat, next': nat)
    requires GrownOk(g, next) && next <= next'
    ensures GrownOk(g, next')
  {
    forall k | Has(g, k) ensures MintedIn(g.refs[k], 0, next') { MintedMore(g.refs[k], 0, next, 0, next'); }
  }

  lemma OneMoreTree(hist: seq<Grown>, g: Grown, refs: RefTable, next: nat, next': nat)
    requires Consistent(hist, next) && FromHist(refs, hist) && next <= next' && GrownOk(g, next')
    requires forall k :: Has(g, k) ==> GivenFrom(g, k, refs, next, next')
    ensures Consistent(hist + [g], next')
  {
    var hist' := hist + [g];
    AgreeWithin(g, refs, next, next');
    forall i | 0 <= i < |hist| ensures GrownOk(hist[i], next') && Agree(hist[i], g) && NewTo(g, hist[i]) {
      GrownOkMore(hist[i], next, next');
      forall k, l | Has(hist[i], k) && Has(g, l) && hist[i].refs[k] == g.refs[l]
        ensures Reusable(g.nodes[l], g.previous) && OneNode(hist[i].nodes[k], g.nodes[l])
      {
        OldRefReused(hist, i, k, g, l, refs, next, next');
      }
      forall l | Has(g, l) && !Reusable(g.nodes[l], g.previous) ensures g.refs[l] !in hist[i].refs {
        if k :| 0 <= k < |hist[i].refs| && hist[i].refs[k] == g.refs[l] { assert Has(hist[i], k); }
      }
    }
    forall i, j | 0 <= i < |hist'| && 0 <= j < |hist'|
      ensures Agree(hist'[i], hist'[j]) && (i < j ==> NewTo(hist'[j], hist'[i]))
    {
      if i < |hist| && j < |hist| { assert Agree(hist[i], hist[j]) && (i < j ==> NewTo(hist[j], hist[i])); }
      if i == |hist| && j < |hist| { assert Agree(hist[j], g); }
    }
  }

  /** One more tree: its fresh refs are new to the run, its reused ones keep their node. */
  lemma BuildExtends(hist: seq<Grown>, next: nat, a: Attempt, refs: RefTable)
    requires Consistent(hist, next) && ValidAttempt(a, refs) && FromHist(refs, hist)
    ensures CaptureOnce(a, next).next >= next
    ensures Consistent(hist + TreeOf(a, next), CaptureOnce(a, next).next)
  {
    if a.NoTree? {
      assert hist + [] == hist;
    } else {
      FromHistBelow(refs, hist, next);
      GrownRefs(a.b, refs, next);
      GrownAlone(a.b, refs, next);
      OneMoreTree(hist, GrownFrom(a.b, next), refs, next, CaptureOnce(a, next).next);
    }
  }

  // ----- The invariant of every run ----------------------------------------------------------

  ghost predicate TabOk(t: Tab, hist: seq<Grown>, next: nat) {
    && FromHist(t.latest, hist)
    && (forall r :: r in t.latest ==> r in t.known)
    && (forall r :: r in t.known ==> t.known[r] <= t.generation && MintedIn(r, 0, next))
  }

  ghost predicate Inv(s: Session, hist: seq<Grown>) {
    && s.active < |s.tabs|
    && Consistent(hist, s.next)
    && forall i :: 0 <= i < |s.tabs| ==> TabOk(s.tabs[i], hist, s.next)
  }

  lemma FromHistMore(refs: RefTable, hist: seq<Grown>, more: seq<Grown>)
    requires FromHist(refs, hist)
    ensures FromHist(refs, hist + more)
  {
    if refs != map[] {
      var i :| 0 <= i < |hist| && hist[i].table == refs;
      assert (hist + more)[i] == hist[i];
    }
  }

  lemma TabOkMore(t: Tab, hist: seq<Grown>, more: seq<Grown>, next: nat, next': nat)
    requires TabOk(t, hist, next) && next <= next'
    ensures TabOk(t, hist + more, next')
  {
    FromHistMore(t.latest, hist, more);
    forall r | r in t.known ensures MintedIn(r, 0, next') { MintedMore(r, 0, next, 0, next'); }
  }

  lemma InstallOk(t: Tab, c: AxCapture, hist: seq<Grown>, next: nat)
    requires TabOk(t, hist, next) && FromHist(c.refs, hist) && TableBelow(c.refs, next)
    ensures TabOk(Install(t, c), hist, next)
  {
  }

  lemma FinishedTree(hist: seq<Grown>, a: Attempt, next: nat)
    ensures a.Done? ==> FromHist(CaptureOnce(a, next).got.value.refs, hist + TreeOf(a, next))
  {
    if a.Done? { assert (hist + TreeOf(a, next))[|hist|] == GrownFrom(a.b, next); }
  }

  lemma WaitExtends(hist: seq<Grown>, next: nat, first: Attempt, second: Attempt, refs: RefTable)
    requires Consistent(hist, next) && ValidAttempt(first, refs) && ValidAttempt(second, refs)
    requires FromHist(refs, hist)
    ensures var c := WaitAndCapture(first, second, next);
      var hist' := hist + TreesOf(first, second, next);
      c.next >= next && Consistent(hist', c.next) && (c.got.Some? ==> FromHist(c.got.value.refs, hist'))
  {
    var c := CaptureOnce(first, next);
    BuildExtends(hist, next, first, refs);
    FinishedTree(hist, first, next);
    if c.got.Some? && c.got.value.snapshot.root.children == [] {
      FromHistMore(refs, hist, TreeOf(first, next));
      BuildExtends(hist + TreeOf(first, next), c.next, second, refs);
      FinishedTree(hist + TreeOf(first, next), second, c.next);
      assert hist + TreeOf(first, next) + TreeOf(second, c.next) == hist + TreesOf(first, second, next);
    } else {
      assert hist + TreeOf(first, next) == hist + TreesOf(first, second, next);
    }
  }

  lemma ConcludeOk(s: Session, i: nat, c: Captured, hist: seq<Grown>, more: seq<Grown>)
    requires s.active < |s.tabs| && i < |s.tabs| && s.next <= c.next
    requires forall k :: 0 <= k < |s.tabs| ==> TabOk(s.tabs[k], hist, s.next)
    requires Consistent(hist + more, c.next) && (c.got.Some? ==> FromHist(c.got.value.refs, hist + more))
    ensures Inv(Conclude(s, i, c).s, hist + more)
  {
    var s' := Conclude(s, i, c).s;
    if c.got.Some? { FromHistBelow(c.got.value.refs, hist + more, c.next); }
    forall k | 0 <= k < |s'.tabs| ensures TabOk(s'.tabs[k], hist + more, c.next) {
      TabOkMore(s.tabs[k], hist, more, s.next, c.next);
      if k == i && c.got.Some? {
        InstallOk(s.tabs[k], c.got.value, hist + more, c.next);
      }
    }
  }

  lemma StepKeepsInv(s: Session, op: Op, hist: seq<Grown>)
    requires Inv(s, hist) && ValidOp(s, op)
    ensures Inv(Step(s, op).s, hist + Trees(s, op))
  {
    if !Captures(s, op) {
      assert hist + [] == hist;
      return;
    }
    var (s', i) := Prepared(s, op);
    StepConcludes(s, op);
    CaptureExtends(s, op, hist);
    ConcludeOk(s', i, CaptureBy(s, op), hist, Trees(s, op));
  }

  lemma CaptureExtends(s: Session, op: Op, hist: seq<Grown>)
    requires Inv(s, hist) && ValidOp(s, op) && Captures(s, op)
    ensures var c, hist' := CaptureBy(s, op), hist + Trees(s, op);
      c.next >= s.next && Consistent(hist', c.next) && (c.got.Some? ==> FromHist(c.got.value.refs, hist'))
  {
    var refs := StartingRefs(s, op);
    if op.Resnap? {
      BuildExtends(hist, s.next, op.first, refs);
      FinishedTree(hist, op.first, s.next);
    } else {
      WaitExtends(hist, s.next, op.first, op.second, refs);
    }
  }

  // ----- Runs ------------------------------------------------------------------------------

  ghost predicate ValidRun(s: Session, ops: seq<Op>)
    requires s.active < |s.tabs|
    decreases |ops|
  {
    ops != [] ==> ValidOp(s, ops[0]) && ValidRun(Step(s, ops[0]).s, ops[1..])
  }

  /** The session after the run. */
  ghost function After(s: Session, ops: seq<Op>): (r: Session)
    requires s.active < |s.tabs| && ValidRun(s, ops)
    ensures r.active < |r.tabs|
    decreases |ops|
  {
    if ops == [] then s else After(Step(s, ops[0]).s, ops[1..])
  }

  /** Every tree built during the run, in order. */
  ghost function Built(s: Session, ops: seq<Op>): seq<Grown>
    requires s.active < |s.tabs| && ValidRun(s, ops)
    decreases |ops|
  {
    if ops == [] then [] else Trees(s, ops[0]) + Built(Step(s, ops[0]).s, ops[1..])
  }

  lemma {:induction false} RunKeepsInv(s: Session, ops: seq<Op>, hist: seq<Grown>)
    requires Inv(s, hist) && ValidRun(s, ops)
    ensures Inv(After(s, ops), hist + Built(s, ops))
    decreases |ops|
  {
    if ops == [] {
      assert hist + [] == hist;
    } else {
      StepKeepsInv(s, ops[0], hist);
      RunKeepsInv(Step(s, ops[0]).s, ops[1..], hist + Trees(s, ops[0]));
      Assoc(hist, Trees(s, ops[0]), Built(Step(s, ops[0]).s, ops[1..]));
    }
  }

  /** A session as its first navigate creates it, before that call's own capture. */
  function NewSession(): Session {
    Session([FreshTab()], 0, 0)
  }

  lemma NewSessionInv()
    ensures Inv(NewSession(), [])
  {
  }

  lemma BuiltConsistent(ops: seq<Op>)
    requires ValidRun(NewSession(), ops)
    ensures Consistent(Built(NewSession(), ops), After(NewSession(), ops).next)
  {
    NewSessionInv();
    RunKeepsInv(NewSession(), ops, []);
    assert [] + Built(NewSession(), ops) == Built(NewSession(), ops);
  }

  /**
   * Every ref minted in a session's life is new to it: no tree built before has it, as the ref
   * of a node or in its table, and no other node of the same tree has it.
   */
  lemma MintedRefIsNew(ops: seq<Op>, j: nat, l: nat)
    requires ValidRun(NewSession(), ops) && j < |Built(NewSession(), ops)|
    requires var g := Built(NewSession(), ops)[j]; l < |g.nodes| && !Reusable(g.nodes[l], g.previous)
    ensures var hist := Built(NewSession(), ops);
      var g := hist[j];
      && |g.refs| == |g.nodes|
      && (forall i :: 0 <= i < j ==> g.refs[l] !in hist[i].refs && g.refs[l] !in hist[i].table)
      && (forall k :: 0 <= k < |g.refs| && k != l ==> g.refs[k] != g.refs[l])
  {
    var hist := Built(NewSession(), ops);
    var g := hist[j];
    BuiltConsistent(ops);
    assert GrownOk(g, After(NewSession(), ops).next) && Has(g, l);
    forall i | 0 <= i < j ensures g.refs[l] !in hist[i].refs && g.refs[l] !in hist[i].table {
      assert NewTo(g, hist[i]) && GrownOk(hist[i], After(NewSession(), ops).next);
      if g.refs[l] in hist[i].table { var k :| RecordedAt(hist[i], g.refs[l], k); }
    }
    forall k | 0 <= k < |g.refs| && k != l ensures g.refs[k] != g.refs[l] { assert Has(g, k); }
  }

  /**
   * Two nodes that are given one ref, anywhere in a session's life, are one node of the main
   * process, whether or not a table records it.
   */
  lemma SharedRefIsOneNode(ops: seq<Op>, i: nat, k: nat, j: nat, l: nat)
    requires ValidRun(NewSession(), ops) && i < |Built(NewSession(), ops)| && j < |Built(NewSession(), ops)|
    requires var hist := Built(NewSession(), ops);
      && Has(hist[i], k) && Has(hist[j], l) && (i != j || k != l) && hist[i].refs[k] == hist[j].refs[l]
    ensures OneNode(Built(NewSession(), ops)[i].nodes[k], Built(NewSession(), ops)[j].nodes[l])
  {
    var hist := Built(NewSession(), ops);
    BuiltConsistent(ops);
    assert Agree(hist[i], hist[j]);
    if !Reusable(hist[j].nodes[l], hist[j].previous) && j >= i { MintedRefIsNew(ops, j, l); }
    if !Reusable(hist[i].nodes[k], hist[i].previous) && i >= j { MintedRefIsNew(ops, i, k); }
  }

  /**
   * A ref never changes its node: whenever two trees built in one session's life both
   * record it, they give it the same backend id and the same origin.
   */
  lemma RefNeverChangesNode(ops: seq<Op>, i: nat, j: nat, r: string)
    requires ValidRun(NewSession(), ops)
    requires i < |Built(NewSession(), ops)| && j < |Built(NewSession(), ops)|
    requires r in Built(NewSession(), ops)[i].table && r in Built(NewSession(), ops)[j].table
    ensures var (a, b) := (Built(NewSession(), ops)[i].table[r], Built(NewSession(), ops)[j].table[r]);
      a.backendNodeId == b.backendNodeId && a.isOopif == b.isOopif
  {
    var hist := Built(NewSession(), ops);
    BuiltConsistent(ops);
    var next := After(NewSession(), ops).next;
    assert GrownOk(hist[i], next) && GrownOk(hist[j], next);
    var k :| RecordedAt(hist[i], r, k);
    var l :| RecordedAt(hist[j], r, l);
    assert Agree(hist[i], hist[j]);
  }

  /** In every reachable state no ref is tagged with a generation its tab has not reached. */
  lemma GenerationsNeverAhead(ops: seq<Op>, i: nat, r: string)
    requires ValidRun(NewSession(), ops)
    requires i < |After(NewSession(), ops).tabs| && r in After(NewSession(), ops).tabs[i].known
    ensures var t := After(NewSession(), ops).tabs[i];
      t.known[r] <= t.generation
  {
    NewSessionInv();
    RunKeepsInv(NewSession(), ops, []);
    var hist := Built(NewSession(), ops);
    assert TabOk(After(NewSession(), ops).tabs[i], [] + hist, After(NewSession(), ops).next);
  }

  // ----- Navigation ----------------------------------------------------------------------------

  /** No ref minted before the counter stood at `n` resolves to a node of this tab. */
  ghost predicate ForgetsBefore(t: Tab, n: nat) {
    forall r :: r in t.latest ==> !MintedIn(r, 0, n)
  }

  /** Every ref recorded by the earlier tab is on record as older than the current page. */
  ghost predicate MarksStale(t: Tab, earlier: Tab) {
    forall r :: r in earlier.known ==> r in t.known && t.known[r] < t.generation
  }

  lemma FreshTableForgets(a: Attempt, next: nat)
    requires a.Done? && ValidAttempt(a, map[])
    ensures var c := CaptureOnce(a, next);
      forall r :: r in c.got.value.refs ==> MintedIn(r, next, c.next) && !MintedIn(r, 0, next)
    ensures CaptureOnce(a, next).next >= next
  {
    CaptureRefs(a.b.nodes, a.b.f, map[], a.b.previous, next, a.b.url);
    var c := CaptureOnce(a, next);
    forall r | r in c.got.value.refs ensures !MintedIn(r, 0, next) {
      NotMintedBelow(r, next, next, c.next);
    }
  }

  lemma NotMintedBelow(r: string, n: nat, lo: nat, hi: nat)
    requires MintedIn(r, lo, hi) && n <= lo
    ensures !MintedIn(r, 0, n)
  {
    if MintedIn(r, 0, n) { MintedApart(r, 0, n, lo, hi); }
  }

  lemma FreshCaptureForgets(first: Attempt, second: Attempt, next: nat)
    requires ValidAttempt(first, map[]) && ValidAttempt(second, map[])
    ensures var c := WaitAndCapture(first, second, next);
      c.got.Some? ==> forall r :: r in c.got.value.refs ==> !MintedIn(r, 0, next)
  {
    var c := CaptureOnce(first, next);
    if first.Done? { FreshTableForgets(first, next); }
    if c.got.Some? && c.got.value.snapshot.root.children == [] && second.Done? {
      FreshTableForgets(second, c.next);
      forall r | r in CaptureOnce(second, c.next).got.value.refs ensures !MintedIn(r, 0, next) {
        NotMintedBelow(r, next, c.next, CaptureOnce(second, c.next).next);
      }
    }
  }

  /**
   * After a navigate that shows its page, every ref recorded for the tab answers "stale",
   * none minted earlier in the session resolves there, and every other tab is untouched.
   */
  lemma NavigateInvalidates(s: Session, hist: seq<Grown>, op: Op)
    requires Inv(s, hist) && op.Navigate? && ValidOp(s, op) && Step(s, op).answer.Snapped?
    ensures var t, t' := s.tabs[s.active], Step(s, op).s.tabs[s.active];
      && (forall r :: r in t.known ==> Resolve(t', r) == Stale)
      && (forall r :: MintedIn(r, 0, s.next) ==> Resolve(t', r) in {Stale, NotInSnapshot})
      && ForgetsBefore(t', s.next) && MarksStale(t', t)
    ensures forall i :: 0 <= i < |s.tabs| && i != s.active ==> Step(s, op).s.tabs[i] == s.tabs[i]
    ensures |Step(s, op).s.tabs| == |s.tabs| && Step(s, op).s.active == s.active
  {
    FreshCaptureForgets(op.first, op.second, s.next);
  }

  /**
   * A navigate that fails once the page was reached keeps the old table: what resolved
   * before still does, and every other ref on record now answers "stale". One that fails
   * earlier changes no answer at all.
   */
  lemma FailedNavigateKeepsRefs(s: Session, hist: seq<Grown>, op: Op, r: string)
    requires Inv(s, hist) && op.Navigate? && ValidOp(s, op) && Step(s, op).answer == Refused
    ensures var t, t' := s.tabs[s.active], Step(s, op).s.tabs[s.active];
      Resolve(t', r) ==
        if op.goto == GotoFailed || r in t.latest then Resolve(t, r)
        else if r in t.known then Stale else NotInSnapshot
  {
    assert TabOk(s.tabs[s.active], hist, s.next);
  }

  // ----- After a navigation, for good ------------------------------------------------------------

  /** Where tab `i` stands in the tab list after the operation, if it is still open. */
  function Follow(s: Session, op: Op, i: nat): Option<nat>
    requires s.active < |s.tabs|
  {
    if op.CloseTab? && Step(s, op).answer.Closed? then
      var target := UnwrapOr(op.which, s.active);
      if i < target then Some(i) else if i == target then None else Some(i - 1)
    else Some(i)
  }

  ghost function FollowRun(s: Session, ops: seq<Op>, i: nat): Option<nat>
    requires s.active < |s.tabs| && ValidRun(s, ops)
    decreases |ops|
  {
    if ops == [] then Some(i) else
      match Follow(s, ops[0], i)
      case None => None
      case Some(i') => FollowRun(Step(s, ops[0]).s, ops[1..], i')
  }

  lemma NoCaptureKeepsForgotten(s: Session, op: Op, i: nat, n: nat, earlier: Tab)
    requires s.active < |s.tabs| && !Captures(s, op)
    requires i < |s.tabs| && ForgetsBefore(s.tabs[i], n) && MarksStale(s.tabs[i], earlier)
    ensures var s', i' := Step(s, op).s, Follow(s, op, i);
      && s'.next == s.next
      && (i'.Some? ==>
            i'.value < |s'.tabs| && ForgetsBefore(s'.tabs[i'.value], n) && MarksStale(s'.tabs[i'.value], earlier))
  {
    match op
    case CloseTab(which) =>
      var i' := Follow(s, op, i);
      if i'.Some? { assert Step(s, op).s.tabs[i'.value] == s.tabs[i]; }
    case _ =>
  }

  lemma StepKeepsForgotten(s: Session, hist: seq<Grown>, op: Op, i: nat, n: nat, earlier: Tab)
    requires Inv(s, hist) && ValidOp(s, op) && n <= s.next
    requires i < |s.tabs| && ForgetsBefore(s.tabs[i], n) && MarksStale(s.tabs[i], earlier)
    ensures var s', i' := Step(s, op).s, Follow(s, op, i);
      i'.Some? ==> i'.value < |s'.tabs| && ForgetsBefore(s'.tabs[i'.value], n) && MarksStale(s'.tabs[i'.value], earlier)
    ensures Step(s, op).s.next >= s.next
  {
    if Captures(s, op) {
      var (s', k) := Prepared(s, op);
      StepConcludes(s, op);
      CaptureForgets(s, op, n);
      ConcludeKeepsForgotten(s', k, CaptureBy(s, op), i, n, earlier);
    } else {
      NoCaptureKeepsForgotten(s, op, i, n, earlier);
    }
  }

  lemma CaptureForgets(s: Session, op: Op, n: nat)
    requires s.active < |s.tabs| && ValidOp(s, op) && Captures(s, op) && n <= s.next
    ensures var c := CaptureBy(s, op);
      && c.next >= s.next
      && (c.got.Some? && (forall r :: r in StartingRefs(s, op) ==> !MintedIn(r, 0, n)) ==>
            forall r :: r in c.got.value.refs ==> !MintedIn(r, 0, n))
  {
    var refs := StartingRefs(s, op);
    AttemptForgets(op.first, refs, s.next, n);
    if !op.Resnap? {
      AttemptForgets(op.second, refs, CaptureOnce(op.first, s.next).next, n);
    }
  }

  lemma ConcludeKeepsForgotten(s: Session, k: nat, c: Captured, i: nat, n: nat, earlier: Tab)
    requires i < |s.tabs| && k < |s.tabs| && ForgetsBefore(s.tabs[i], n) && MarksStale(s.tabs[i], earlier)
    requires k == i && c.got.Some? ==> forall r :: r in c.got.value.refs ==> !MintedIn(r, 0, n)
    ensures var s' := Conclude(s, k, c).s;
      |s'.tabs| == |s.tabs| && ForgetsBefore(s'.tabs[i], n) && MarksStale(s'.tabs[i], earlier)
  {
  }

  /** If the table a capture starts from has no ref minted before `n`, neither has its own. */
  lemma AttemptForgets(a: Attempt, refs: RefTable, next: nat, n: nat)
    requires ValidAttempt(a, refs) && n <= next
    ensures CaptureOnce(a, next).next >= next
    ensures a.Done? && (forall r :: r in refs ==> !MintedIn(r, 0, n)) ==>
      forall r :: r in CaptureOnce(a, next).got.value.refs ==> !MintedIn(r, 0, n)
  {
    if a.NoTree? { return; }
    CaptureRefs(a.b.nodes, a.b.f, refs, a.b.previous, next, a.b.url);
    var c := CaptureOnce(a, next);
    if a.Done? && forall r :: r in refs ==> !MintedIn(r, 0, n) {
      forall r | r in c.got.value.refs ensures !MintedIn(r, 0, n) {
        if MintedIn(r, next, c.next) { NotMintedBelow(r, n, next, c.next); }
      }
    }
  }

  lemma {:induction false} RunKeepsForgotten(
    s: Session, hist: seq<Grown>, ops: seq<Op>, i: nat, n: nat, earlier: Tab)
    requires Inv(s, hist) && ValidRun(s, ops) && n <= s.next
    requires i < |s.tabs| && ForgetsBefore(s.tabs[i], n) && MarksStale(s.tabs[i], earlier)
    ensures var s', i' := After(s, ops), FollowRun(s, ops, i);
      i'.Some? ==> i'.value < |s'.tabs| && ForgetsBefore(s'.tabs[i'.value], n) && MarksStale(s'.tabs[i'.value], earlier)
    decreases |ops|
  {
    if ops != [] {
      StepKeepsForgotten(s, hist, ops[0], i, n, earlier);
      StepKeepsInv(s, ops[0], hist);
      match Follow(s, ops[0], i) {
        case None =>
        case Some(i') =>
          RunKeepsForgotten(Step(s, ops[0]).s, hist + Trees(s, ops[0]), ops[1..], i', n, earlier);
      }
    }
  }

  /**
   * What a navigation invalidates never comes back: however the session goes on, a ref
   * recorded for the tab before it answers "stale" for as long as the tab is open.
   */
  lemma StaleForever(s: Session, hist: seq<Grown>, op: Op, ops: seq<Op>, r: string)
    requires Inv(s, hist) && op.Navigate? && ValidOp(s, op) && Step(s, op).answer.Snapped?
    requires ValidRun(Step(s, op).s, ops)
    requires r in s.tabs[s.active].known
    ensures var s' := Step(s, op).s;
      var i := FollowRun(s', ops, s.active);
      i.Some? ==> i.value < |After(s', ops).tabs| && Resolve(After(s', ops).tabs[i.value], r) == Stale
  {
    var s' := Step(s, op).s;
    NavigateInvalidates(s, hist, op);
    StepKeepsInv(s, op, hist);
    FreshCaptureForgets(op.first, op.second, s.next);
    WaitExtends(hist, s.next, op.first, op.second, map[]);
    RunKeepsForgotten(s', hist + Trees(s, op), ops, s.active, s.next, s.tabs[s.active]);
    assert TabOk(s.tabs[s.active], hist, s.next);
  }

  /**
   * In every run of a session: a ref on record before a navigation that ends with a
   * snapshot answers "stale" ever after, in the tab that navigated, wherever that tab moves.
   */
  lemma StaleInEveryRun(before: seq<Op>, op: Op, later: seq<Op>, r: string)
    requires ValidRun(NewSession(), before)
    requires var s := After(NewSession(), before);
      && op.Navigate? && ValidOp(s, op) && Step(s, op).answer.Snapped?
      && ValidRun(Step(s, op).s, later) && r in s.tabs[s.active].known
    ensures var s := After(NewSession(), before);
      var s', i := After(Step(s, op).s, later), FollowRun(Step(s, op).s, later, s.active);
      i.Some? ==> i.value < |s'.tabs| && Resolve(s'.tabs[i.value], r) == Stale
  {
    NewSessionInv();
    RunKeepsInv(NewSession(), before, []);
    StaleForever(After(NewSession(), before), [] + Built(NewSession(), before), op, later, r);
  }
}
