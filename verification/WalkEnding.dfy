/**
 * When the walk ends. Nodes over the cap are not descended into, so a cycle of parent
 * pointers with an unignored node on it is cut off; a cycle of ignored nodes is not. The walk
 * ends exactly when none of its own nested calls gets to a cycle of ignored nodes.
 */
module WalkEnding {
  import opened Options
  import opened AxTree
  import opened AxTreeFacts

  ghost predicate Ends(nodes: seq<RawAxNode>, id: string, count: nat) {
    exists f :: Explores(nodes, ChildrenOf(nodes, id), count, f)
  }

  /** A call of the walk: the id whose children it goes through, and the counter at its start. */
  datatype Call = Call(id: string, count: nat)

  /** The call made for one child: none for a node over the cap. */
  predicate MakesCall(n: RawAxNode, count: nat, c: Call) {
    c.id == n.nodeId && (if n.ignored then c.count == count else count < MAX_SNAPSHOT_NODES && c.count == count + 1)
  }

  /** Going through `list` from `count` makes the call `c`, once the earlier children are done. */
  ghost predicate CallsFrom(nodes: seq<RawAxNode>, list: seq<RawAxNode>, count: nat, c: Call)
    decreases |list|
  {
    list != [] &&
    (|| MakesCall(list[0], count, c)
     || exists kids :: ExploresBelow(nodes, list[0], count, kids)
                       && CallsFrom(nodes, list[1..], CountIn(list[0], kids, count), c))
  }

  ghost predicate Calls(nodes: seq<RawAxNode>, a: Call, b: Call) {
    CallsFrom(nodes, ChildrenOf(nodes, a.id), a.count, b)
  }

  /** Calls nested in each other, outermost first. */
  ghost predicate IsChain(nodes: seq<RawAxNode>, p: seq<Call>) {
    p != [] && forall i :: 0 <= i < |p| - 1 ==> Calls(nodes, p[i], p[i + 1])
  }

  ghost predicate IgnoredEdge(nodes: seq<RawAxNode>, a: string, b: string) {
    exists n :: n in nodes && n.ignored && n.parentId == Some(a) && n.nodeId == b
  }

  ghost predicate IgnoredPath(nodes: seq<RawAxNode>, p: seq<string>) {
    p != [] && forall i :: 0 <= i < |p| - 1 ==> IgnoredEdge(nodes, p[i], p[i + 1])
  }

  /** A way from `id` back to `id` through ignored nodes only. */
  ghost predicate OnIgnoredCycle(nodes: seq<RawAxNode>, id: string) {
    exists p :: IgnoredPath(nodes, p) && |p| > 1 && p[0] == id && p[|p| - 1] == id
  }

  // ----- A walk that gets to such a cycle does not end --------------------------------------

  lemma BelowUnique(nodes: seq<RawAxNode>, n: RawAxNode, count: nat, f: Forest, g: Forest)
    requires ExploresBelow(nodes, n, count, f) && ExploresBelow(nodes, n, count, g)
    ensures f == g
  {
    if n.ignored || count < MAX_SNAPSHOT_NODES {
      ExploringUnique(nodes, ChildrenOf(nodes, n.nodeId), if n.ignored then count else count + 1, f, g);
    }
  }

  /** What a call looks at holds, as a part, what each call it makes looks at. */
  lemma {:induction false} PartOfCall(nodes: seq<RawAxNode>, list: seq<RawAxNode>, count: nat, f: Forest, c: Call)
    returns (g: Forest)
    requires Explores(nodes, list, count, f) && CallsFrom(nodes, list, count, c)
    ensures Explores(nodes, ChildrenOf(nodes, c.id), c.count, g) && Size(g) < Size(f)
  {
    if MakesCall(list[0], count, c) {
      g := f.kids;
    } else {
      var kids :| ExploresBelow(nodes, list[0], count, kids)
        && CallsFrom(nodes, list[1..], CountIn(list[0], kids, count), c);
      BelowUnique(nodes, list[0], count, kids, f.kids);
      g := PartOfCall(nodes, list[1..], CountIn(list[0], kids, count), f.rest, c);
    }
  }

  lemma ChainDrop(nodes: seq<RawAxNode>, p: seq<Call>)
    requires IsChain(nodes, p) && |p| > 1
    ensures IsChain(nodes, p[1..])
  {
    var q := p[1..];
    forall i | 0 <= i < |q| - 1 ensures Calls(nodes, q[i], q[i + 1]) { assert Calls(nodes, p[i + 1], p[i + 1 + 1]); }
  }

  lemma {:induction false} PartOfChain(nodes: seq<RawAxNode>, p: seq<Call>, f: Forest) returns (g: Forest)
    requires IsChain(nodes, p) && Explores(nodes, ChildrenOf(nodes, p[0].id), p[0].count, f)
    ensures Explores(nodes, ChildrenOf(nodes, p[|p| - 1].id), p[|p| - 1].count, g)
    decreases |p|
  {
    if |p| == 1 {
      return f;
    }
    assert Calls(nodes, p[0], p[0 + 1]);
    var below := PartOfCall(nodes, ChildrenOf(nodes, p[0].id), p[0].count, f, p[1]);
    ChainDrop(nodes, p);
    g := PartOfChain(nodes, p[1..], below);
  }

  /** Whatever the counter, the walk goes below every ignored child. */
  lemma {:induction false} PartOfIgnored(
    nodes: seq<RawAxNode>, list: seq<RawAxNode>, count: nat, f: Forest, n: RawAxNode)
    returns (inside: nat, g: Forest)
    requires Explores(nodes, list, count, f) && n in list && n.ignored
    ensures Explores(nodes, ChildrenOf(nodes, n.nodeId), inside, g) && Size(g) < Size(f)
  {
    if n == list[0] {
      return count, f.kids;
    }
    inside, g := PartOfIgnored(nodes, list[1..], CountIn(list[0], f.kids, count), f.rest, n);
  }

  lemma PathDrop(nodes: seq<RawAxNode>, p: seq<string>)
    requires IgnoredPath(nodes, p) && |p| > 1
    ensures IgnoredPath(nodes, p[1..])
  {
    var q := p[1..];
    forall i | 0 <= i < |q| - 1 ensures IgnoredEdge(nodes, q[i], q[i + 1]) {
      assert IgnoredEdge(nodes, p[i + 1], p[i + 1 + 1]);
    }
  }

  lemma {:induction false} PartOfPath(nodes: seq<RawAxNode>, p: seq<string>, count: nat, f: Forest)
    returns (inside: nat, g: Forest)
    requires IgnoredPath(nodes, p) && Explores(nodes, ChildrenOf(nodes, p[0]), count, f)
    ensures Explores(nodes, ChildrenOf(nodes, p[|p| - 1]), inside, g)
    ensures Size(g) <= Size(f) && (|p| > 1 ==> Size(g) < Size(f))
    decreases |p|
  {
    if |p| == 1 {
      return count, f;
    }
    assert IgnoredEdge(nodes, p[0], p[0 + 1]);
    var n :| n in nodes && n.ignored && n.parentId == Some(p[0]) && n.nodeId == p[1];
    ChildrenMembers(nodes, p[0]);
    var c, below := PartOfIgnored(nodes, ChildrenOf(nodes, p[0]), count, f, n);
    PathDrop(nodes, p);
    inside, g := PartOfPath(nodes, p[1..], c, below);
  }

  /** The walk from an id on a cycle of ignored nodes looks at no finite forest. */
  lemma {:induction false} NothingOnCycle(nodes: seq<RawAxNode>, id: string, count: nat, f: Forest)
    requires OnIgnoredCycle(nodes, id)
    ensures !Explores(nodes, ChildrenOf(nodes, id), count, f)
    decreases Size(f)
  {
    if Explores(nodes, ChildrenOf(nodes, id), count, f) {
      var p :| IgnoredPath(nodes, p) && |p| > 1 && p[0] == id && p[|p| - 1] == id;
      var inside, g := PartOfPath(nodes, p, count, f);
      NothingOnCycle(nodes, id, inside, g);
    }
  }

  // ----- A walk that gets to none ends --------------------------------------------------------

  lemma {:induction false} CountGrows(f: Forest, count: nat)
    requires count <= MAX_SNAPSHOT_NODES
    ensures count <= CountAfter(f, count) <= MAX_SNAPSHOT_NODES
    decreases f, 0
  {
    if f.Cons? {
      CountInGrows(f.node, f.kids, count);
      CountGrows(f.rest, CountIn(f.node, f.kids, count));
    }
  }

  lemma {:induction false} CountInGrows(n: RawAxNode, kids: Forest, count: nat)
    requires count <= MAX_SNAPSHOT_NODES
    ensures count <= CountIn(n, kids, count) <= MAX_SNAPSHOT_NODES
    decreases kids, 1
  {
    if n.ignored {
      CountGrows(kids, count);
    } else if count < MAX_SNAPSHOT_NODES {
      CountGrows(kids, count + 1);
    }
  }

  /** A nested call starts no lower, and strictly higher unless it is for an ignored node. */
  lemma {:induction false} CallStep(nodes: seq<RawAxNode>, list: seq<RawAxNode>, count: nat, c: Call)
    requires count <= MAX_SNAPSHOT_NODES && CallsFrom(nodes, list, count, c)
    ensures count <= c.count <= MAX_SNAPSHOT_NODES
    ensures exists n :: n in list && n.nodeId == c.id && (c.count == count ==> n.ignored)
    decreases |list|
  {
    if MakesCall(list[0], count, c) {
      assert list[0] in list;
    } else {
      var kids :| ExploresBelow(nodes, list[0], count, kids)
        && CallsFrom(nodes, list[1..], CountIn(list[0], kids, count), c);
      CountInGrows(list[0], kids, count);
      CallStep(nodes, list[1..], CountIn(list[0], kids, count), c);
      var n :| n in list[1..] && n.nodeId == c.id && (c.count == CountIn(list[0], kids, count) ==> n.ignored);
      assert n in list;
    }
  }

  lemma CallEdge(nodes: seq<RawAxNode>, a: Call, b: Call)
    requires a.count <= MAX_SNAPSHOT_NODES && Calls(nodes, a, b)
    ensures a.count <= b.count <= MAX_SNAPSHOT_NODES && Edge(nodes, a.id, b.id)
    ensures a.count == b.count ==> IgnoredEdge(nodes, a.id, b.id)
  {
    CallStep(nodes, ChildrenOf(nodes, a.id), a.count, b);
    ChildrenMembers(nodes, a.id);
  }

  lemma {:induction false} ChainCounts(nodes: seq<RawAxNode>, p: seq<Call>, i: nat, j: nat)
    requires IsChain(nodes, p) && p[0].count <= MAX_SNAPSHOT_NODES && i <= j < |p|
    ensures p[i].count <= p[j].count <= MAX_SNAPSHOT_NODES
  {
    if i < j {
      ChainCounts(nodes, p, i, j - 1);
      assert Calls(nodes, p[j - 1], p[j - 1 + 1]);
      CallEdge(nodes, p[j - 1], p[j]);
    } else if i > 0 {
      ChainCounts(nodes, p, i - 1, i - 1);
      assert Calls(nodes, p[i - 1], p[i - 1 + 1]);
      CallEdge(nodes, p[i - 1], p[i]);
    }
  }

  /** A call nested in one like itself went around a cycle of ignored nodes. */
  lemma RepeatIsIgnoredCycle(nodes: seq<RawAxNode>, p: seq<Call>, i: nat, j: nat)
    requires IsChain(nodes, p) && p[0].count <= MAX_SNAPSHOT_NODES && i < j < |p| && p[i] == p[j]
    ensures OnIgnoredCycle(nodes, p[i].id)
  {
    var ids := seq(j - i + 1, k requires 0 <= k < j - i + 1 => p[i + k].id);
    forall k | 0 <= k < |ids| - 1 ensures IgnoredEdge(nodes, ids[k], ids[k + 1]) {
      ChainCounts(nodes, p, i, i + k);
      ChainCounts(nodes, p, i + k, i + k + 1);
      ChainCounts(nodes, p, i + k + 1, j);
      assert Calls(nodes, p[i + k], p[i + k + 1]);
      CallEdge(nodes, p[i + k], p[i + k + 1]);
    }
    CycleFound(nodes, ids);
  }

  lemma CycleFound(nodes: seq<RawAxNode>, p: seq<string>)
    requires IgnoredPath(nodes, p) && |p| > 1 && p[0] == p[|p| - 1]
    ensures OnIgnoredCycle(nodes, p[0])
  {
  }

  ghost predicate AvoidsCycles(nodes: seq<RawAxNode>, start: Call) {
    forall p: seq<Call> :: IsChain(nodes, p) && p[0] == start ==> !OnIgnoredCycle(nodes, p[|p| - 1].id)
  }

  ghost function AllCalls(nodes: seq<RawAxNode>): set<Call> {
    set n, count | n in nodes && 0 <= count <= MAX_SNAPSHOT_NODES :: Call(n.nodeId, count)
  }

  lemma ChainSlice(nodes: seq<RawAxNode>, p: seq<Call>, k: nat)
    requires IsChain(nodes, p) && k < |p|
    ensures IsChain(nodes, p[..k + 1]) && p[..k + 1][0] == p[0]
  {
    var q := p[..k + 1];
    forall i | 0 <= i < |q| - 1 ensures Calls(nodes, q[i], q[i + 1]) { assert Calls(nodes, p[i], p[i + 1]); }
  }

  /** A chain that avoids the cycles is no longer than there are different calls. */
  lemma ChainBound(nodes: seq<RawAxNode>, p: seq<Call>)
    requires IsChain(nodes, p) && p[0].count <= MAX_SNAPSHOT_NODES && AvoidsCycles(nodes, p[0])
    ensures |p| <= |AllCalls(nodes)| + 1
  {
    forall i, j | 0 <= i < j < |p| ensures p[i] != p[j] {
      if p[i] == p[j] {
        RepeatIsIgnoredCycle(nodes, p, i, j);
        ChainSlice(nodes, p, i);
      }
    }
    DifferentCallsBound(nodes, p);
  }

  lemma DifferentCallsBound(nodes: seq<RawAxNode>, p: seq<Call>)
    requires IsChain(nodes, p) && p[0].count <= MAX_SNAPSHOT_NODES && NoRepeat(p)
    ensures |p| <= |AllCalls(nodes)| + 1
  {
    forall i | 1 <= i < |p| ensures p[i] in AllCalls(nodes) {
      ChainCounts(nodes, p, i - 1, i - 1);
      assert Calls(nodes, p[i - 1], p[i - 1 + 1]);
      CallEdge(nodes, p[i - 1], p[i]);
      var n :| n in nodes && n.parentId == Some(p[i - 1].id) && n.nodeId == p[i].id;
      assert p[i] == Call(n.nodeId, p[i].count);
    }
    NoRepeatBound(p[1..], AllCalls(nodes));
  }

  lemma ChainExtend(nodes: seq<RawAxNode>, p: seq<Call>, c: Call)
    requires IsChain(nodes, p) && Calls(nodes, p[|p| - 1], c)
    ensures IsChain(nodes, p + [c])
  {
    var q := p + [c];
    forall i | 0 <= i < |q| - 1 ensures Calls(nodes, q[i], q[i + 1]) {
      if i < |p| - 1 { assert Calls(nodes, p[i], p[i + 1]); }
    }
  }

  /** The walk itself, run with its chain of nested calls at hand. */
  lemma {:induction false} Explore(nodes: seq<RawAxNode>, p: seq<Call>, list: seq<RawAxNode>, count: nat)
    returns (f: Forest)
    requires IsChain(nodes, p) && p[0].count <= MAX_SNAPSHOT_NODES && AvoidsCycles(nodes, p[0])
    requires count <= MAX_SNAPSHOT_NODES
    requires forall c :: CallsFrom(nodes, list, count, c) ==> Calls(nodes, p[|p| - 1], c)
    ensures Explores(nodes, list, count, f) && Height(f) <= |AllCalls(nodes)| + 2 - |p|
    decreases |AllCalls(nodes)| + 1 - |p|, |list|
  {
    ChainBound(nodes, p);
    if list == [] {
      return Nil;
    }
    var n, kids := list[0], Nil;
    if n.ignored || count < MAX_SNAPSHOT_NODES {
      var c := Call(n.nodeId, if n.ignored then count else count + 1);
      assert CallsFrom(nodes, list, count, c);
      ChainExtend(nodes, p, c);
      ChainBound(nodes, p + [c]);
      kids := Explore(nodes, p + [c], ChildrenOf(nodes, n.nodeId), c.count);
    }
    CountInGrows(n, kids, count);
    assert ExploresBelow(nodes, n, count, kids);
    forall c | CallsFrom(nodes, list[1..], CountIn(n, kids, count), c) ensures CallsFrom(nodes, list, count, c) {
    }
    var rest := Explore(nodes, p, list[1..], CountIn(n, kids, count));
    f := Cons(n, kids, rest);
  }

  /**
   * The walk ends exactly when none of its nested calls is for an id on a cycle of ignored
   * nodes. Calls for nodes over the cap are never made, and are not looked at here.
   */
  lemma WalkEndsIff(nodes: seq<RawAxNode>, id: string, count: nat)
    requires count <= MAX_SNAPSHOT_NODES
    ensures Ends(nodes, id, count) <==> AvoidsCycles(nodes, Call(id, count))
  {
    var start := Call(id, count);
    if AvoidsCycles(nodes, start) {
      var f := Explore(nodes, [start], ChildrenOf(nodes, id), count);
      assert Ends(nodes, id, count);
    }
    if f :| Explores(nodes, ChildrenOf(nodes, id), count, f) {
      forall p: seq<Call> | IsChain(nodes, p) && p[0] == start ensures !OnIgnoredCycle(nodes, p[|p| - 1].id) {
        var g := PartOfChain(nodes, p, f);
        if OnIgnoredCycle(nodes, p[|p| - 1].id) { NothingOnCycle(nodes, p[|p| - 1].id, p[|p| - 1].count, g); }
      }
    }
  }

  // ----- Whole node lists -----------------------------------------------------------------------

  lemma CaptureEndsIff(nodes: seq<RawAxNode>)
    ensures (exists f :: BelowRoot(nodes, f)) <==>
      (FirstRoot(nodes).Some? ==> AvoidsCycles(nodes, Call(FirstRoot(nodes).value.nodeId, 0)))
  {
    match FirstRoot(nodes)
    case None => assert BelowRoot(nodes, Nil);
    case Some(root) =>
      WalkEndsIff(nodes, root.nodeId, 0);
      if Ends(nodes, root.nodeId, 0) {
        var f :| Explores(nodes, ChildrenOf(nodes, root.nodeId), 0, f);
        assert BelowRoot(nodes, f);
      }
      if f :| BelowRoot(nodes, f) { assert Ends(nodes, root.nodeId, 0); }
  }

  lemma {:induction false} ChainPath(nodes: seq<RawAxNode>, p: seq<Call>) returns (q: seq<string>)
    requires IsChain(nodes, p) && p[0].count <= MAX_SNAPSHOT_NODES
    ensures IsPath(nodes, q) && q[0] == p[0].id && q[|q| - 1] == p[|p| - 1].id
    decreases |p|
  {
    if |p| == 1 {
      return [p[0].id];
    }
    assert Calls(nodes, p[0], p[0 + 1]);
    CallEdge(nodes, p[0], p[1]);
    ChainDrop(nodes, p);
    var rest := ChainPath(nodes, p[1..]);
    q := [p[0].id] + rest;
    forall i | 0 <= i < |q| - 1 ensures Edge(nodes, q[i], q[i + 1]) {
      if i > 0 { assert Edge(nodes, rest[i - 1], rest[i - 1 + 1]); }
    }
  }

  /** The walk ends on every list in which no cycle of ignored nodes can be reached from the root. */
  lemma NoIgnoredCycleEnds(nodes: seq<RawAxNode>, root: RawAxNode)
    requires FirstRoot(nodes) == Some(root)
    requires forall q :: IsPath(nodes, q) && q[0] == root.nodeId ==> !OnIgnoredCycle(nodes, q[|q| - 1])
    ensures exists f :: BelowRoot(nodes, f)
  {
    forall p: seq<Call> | IsChain(nodes, p) && p[0] == Call(root.nodeId, 0)
      ensures !OnIgnoredCycle(nodes, p[|p| - 1].id)
    {
      var q := ChainPath(nodes, p);
    }
    CaptureEndsIff(nodes);
  }

  /** It never ends if ignored nodes alone lead from the root to such a cycle: the cap does not matter then. */
  lemma IgnoredWayNeverEnds(nodes: seq<RawAxNode>, root: RawAxNode, p: seq<string>)
    requires FirstRoot(nodes) == Some(root) && IgnoredPath(nodes, p) && p[0] == root.nodeId
    requires OnIgnoredCycle(nodes, p[|p| - 1])
    ensures !exists f :: BelowRoot(nodes, f)
  {
    if f :| BelowRoot(nodes, f) {
      var inside, g := PartOfPath(nodes, p, 0, f);
      NothingOnCycle(nodes, p[|p| - 1], inside, g);
    }
  }

  /** Nor if the root comes back below one of its own children, both of them ignored there. */
  lemma RootBelowItself(nodes: seq<RawAxNode>, root: RawAxNode, child: RawAxNode, back: RawAxNode)
    requires FirstRoot(nodes) == Some(root) && child in nodes && back in nodes && child.ignored && back.ignored
    requires child.parentId == Some(root.nodeId) && back.parentId == Some(child.nodeId) && back.nodeId == root.nodeId
    ensures !exists f :: BelowRoot(nodes, f)
  {
    var p := [root.nodeId, child.nodeId, root.nodeId];
    assert IgnoredEdge(nodes, p[0], p[1]) && IgnoredEdge(nodes, p[1], p[2]);
    CycleFound(nodes, p);
    IgnoredWayNeverEnds(nodes, root, [root.nodeId]);
  }

  /** In particular it ends on every list without ignored nodes, whatever cycles it has. */
  lemma NoIgnoredNodesEnd(nodes: seq<RawAxNode>)
    requires forall n :: n in nodes ==> !n.ignored
    ensures exists f :: BelowRoot(nodes, f)
  {
    if FirstRoot(nodes) == None {
      assert BelowRoot(nodes, Nil);
    } else {
      forall p: seq<string> | |p| > 1 ensures !IgnoredPath(nodes, p) {
        assert IgnoredPath(nodes, p) ==> IgnoredEdge(nodes, p[0], p[0 + 1]);
      }
      NoIgnoredCycleEnds(nodes, FirstRoot(nodes).value);
    }
  }

  /** A capture that does not say it was truncated shows a page without reachable cycles, in full. */
  lemma UntruncatedIsComplete(nodes: seq<RawAxNode>, f: Forest, previous: map<int, string>, next: nat, url: string)
    requires BelowRoot(nodes, f) && !Capture(nodes, f, previous, next, url).0.snapshot.truncated
    ensures FirstRoot(nodes).Some? ==>
      var id := FirstRoot(nodes).value.nodeId; Unfolds(nodes, ChildrenOf(nodes, id), f) && AcyclicFrom(nodes, id)
  {
    if FirstRoot(nodes).Some? {
      var id := FirstRoot(nodes).value.nodeId;
      UntruncatedUnfolds(nodes, ChildrenOf(nodes, id), f, previous, WalkState(map[], 0, false, next));
      UnfoldsIffAcyclic(nodes, id);
    }
  }

  // ----- Three lists with a cycle ------------------------------------------------------------------

  function Node(id: string, parent: string, ignored: bool): RawAxNode {
    RawAxNode(id, if parent == "" then None else Some(parent), ignored, None, None, None, None, false)
  }

  lemma {:induction false} NoChild(nodes: seq<RawAxNode>, p: Option<string>)
    requires forall i :: 0 <= i < |nodes| ==> nodes[i].parentId != p
    ensures WithParent(nodes, p) == []
  {
    if nodes != [] { NoChild(nodes[..|nodes| - 1], p); }
  }

  lemma {:induction false} OnlyChild(nodes: seq<RawAxNode>, p: Option<string>, k: nat)
    requires k < |nodes| && nodes[k].parentId == p
    requires forall i :: 0 <= i < |nodes| && i != k ==> nodes[i].parentId != p
    ensures WithParent(nodes, p) == [nodes[k]]
  {
    var front := nodes[..|nodes| - 1];
    if k == |nodes| - 1 { NoChild(front, p); } else { OnlyChild(front, p, k); }
  }

  /** `x` is ignored, and its own child. */
  ghost predicate IgnoredLoop(nodes: seq<RawAxNode>, x: string) {
    exists n :: n in nodes && n.ignored && n.nodeId == x && n.parentId == Some(x)
  }

  lemma LoopIsCycle(nodes: seq<RawAxNode>, x: string)
    requires IgnoredLoop(nodes, x)
    ensures OnIgnoredCycle(nodes, x)
  {
    var p := [x, x];
    assert IgnoredEdge(nodes, p[0], p[1]);
    CycleFound(nodes, p);
  }

  function LoopBelowRoot(): seq<RawAxNode> {
    [Node("r", "", false), Node("x", "r", true), Node("x", "x", true)]
  }

  /** An ignored node that is its own child, right below the root: the walk never ends. */
  lemma IgnoredCycleNeverEnds()
    ensures !exists f :: BelowRoot(LoopBelowRoot(), f)
  {
    var nodes := LoopBelowRoot();
    assert nodes[2] in nodes;
    LoopIsCycle(nodes, "x");
    OnlyChild(nodes, Some("r"), 1);
    var p := [Call("r", 0), Call("x", 0)];
    assert MakesCall(nodes[1], 0, p[1]) && Calls(nodes, p[0], p[1]);
    assert IsChain(nodes, p) && p[|p| - 1].id == "x";
    assert FirstRoot(nodes) == Some(nodes[0]);
    CaptureEndsIff(nodes);
  }

  /** Below the root `a`, an unignored node that is its own child, and `b`, with an ignored loop `x`. */
  function LoopBehindCap(): seq<RawAxNode> {
    [Node("r", "", false), Node("a", "r", false), Node("a", "a", false),
     Node("b", "r", false), Node("x", "b", true), Node("x", "x", true)]
  }

  lemma {:induction false} LoopFillsCap(nodes: seq<RawAxNode>, n: RawAxNode, count: nat) returns (f: Forest)
    requires ChildrenOf(nodes, n.nodeId) == [n] && !n.ignored && count <= MAX_SNAPSHOT_NODES
    ensures Explores(nodes, [n], count, f) && CountAfter(f, count) == MAX_SNAPSHOT_NODES
    decreases MAX_SNAPSHOT_NODES - count
  {
    var kids := Nil;
    if count < MAX_SNAPSHOT_NODES { kids := LoopFillsCap(nodes, n, count + 1); }
    f := Cons(n, kids, Nil);
    assert [n][1..] == [];
  }

  lemma FirstUsesUpCap(nodes: seq<RawAxNode>, a: RawAxNode, b: RawAxNode, kids: Forest)
    requires !a.ignored && !b.ignored
    requires Explores(nodes, ChildrenOf(nodes, a.nodeId), 1, kids) && CountAfter(kids, 1) == MAX_SNAPSHOT_NODES
    ensures Explores(nodes, [a, b], 0, Cons(a, kids, Cons(b, Nil, Nil)))
  {
    assert [a, b][1..] == [b] && [b][1..] == [];
    assert CountIn(a, kids, 0) == MAX_SNAPSHOT_NODES;
    var none, last := Nil, Cons(b, Nil, Nil);
    assert Explores(nodes, [b][1..], CountIn(b, none, MAX_SNAPSHOT_NODES), none);
    assert Explores(nodes, [b], MAX_SNAPSHOT_NODES, last);
  }

  /** Reaching a cycle of ignored nodes is not enough: here the cap is used up before the walk gets there. */
  lemma CapHidesCycle()
    ensures var nodes := LoopBehindCap();
      && Edge(nodes, "r", "b") && IgnoredEdge(nodes, "b", "x") && OnIgnoredCycle(nodes, "x")
      && exists f :: BelowRoot(nodes, f)
  {
    var nodes := LoopBehindCap();
    assert nodes[3] in nodes && nodes[4] in nodes && nodes[5] in nodes;
    LoopIsCycle(nodes, "x");
    OnlyChild(nodes, Some("a"), 2);
    var kids := LoopFillsCap(nodes, nodes[2], 1);
    TwoChildren(nodes, Some("r"), 1, 3);
    FirstUsesUpCap(nodes, nodes[1], nodes[3], kids);
    assert FirstRoot(nodes) == Some(nodes[0]);
    assert BelowRoot(nodes, Cons(nodes[1], kids, Cons(nodes[3], Nil, Nil)));
  }

  lemma TwoChildren(nodes: seq<RawAxNode>, p: Option<string>, j: nat, k: nat)
    requires j < k < |nodes| && nodes[j].parentId == p && nodes[k].parentId == p
    requires forall i :: 0 <= i < |nodes| && i != j && i != k ==> nodes[i].parentId != p
    ensures WithParent(nodes, p) == [nodes[j], nodes[k]]
    decreases |nodes|
  {
    var front := nodes[..|nodes| - 1];
    if k == |nodes| - 1 { OnlyChild(front, p, j); } else { TwoChildren(front, p, j, k); }
  }

  /** `x` and `y` are each other's children. */
  function RepeatedIds(): seq<RawAxNode> {
    [Node("r", "", false), Node("x", "r", false), Node("y", "x", false), Node("x", "y", false)]
  }

  /** A cycle of unignored nodes: the walk ends, and says that it left something out. */
  lemma RepeatedIdsAreCut(previous: map<int, string>, next: nat, url: string)
    ensures exists f :: BelowRoot(RepeatedIds(), f)
    ensures forall f :: BelowRoot(RepeatedIds(), f) ==>
      Capture(RepeatedIds(), f, previous, next, url).0.snapshot.truncated
  {
    var nodes := RepeatedIds();
    NoIgnoredNodesEnd(nodes);
    assert nodes[1] in nodes && nodes[2] in nodes && nodes[3] in nodes;
    var p := ["r", "x", "y", "x"];
    assert Edge(nodes, p[0], p[1]) && Edge(nodes, p[1], p[2]) && Edge(nodes, p[2], p[3]);
    assert IsPath(nodes, p) && p[1] == p[3];
    assert FirstRoot(nodes) == Some(nodes[0]);
    forall f | BelowRoot(nodes, f) ensures Capture(nodes, f, previous, next, url).0.snapshot.truncated {
      if !Capture(nodes, f, previous, next, url).0.snapshot.truncated {
        UntruncatedIsComplete(nodes, f, previous, next, url);
      }
    }
  }
}
