/**
 * When the walk ends, read off the node list: it goes on without end exactly when ignored nodes
 * alone lead to a cycle of ignored nodes from the root, or from one of the first 500 rows.
 */
module EndingByRows {
  import opened Options
  import opened AxTree
  import opened AxTreeFacts
  import opened SnapshotShape
  import opened WalkEnding

  /** Ignored nodes alone lead from `id` to a cycle of ignored nodes. */
  ghost predicate Trapped(nodes: seq<RawAxNode>, id: string) {
    exists p :: IgnoredPath(nodes, p) && p[0] == id && OnIgnoredCycle(nodes, p[|p| - 1])
  }

  /** The unignored nodes of a forest, in preorder. */
  function VisibleOf(f: Forest): seq<RawAxNode> {
    match f
    case Nil => []
    case Cons(n, kids, rest) => (if n.ignored then [] else [n]) + VisibleOf(kids) + VisibleOf(rest)
  }

  /** Role, name and value of a node, empty where they are missing. */
  predicate IsLabelOf(shown: Label, n: RawAxNode) {
    && shown.role == (match n.role case Some(role) => role case None => "")
    && shown.name == (match n.name case Some(name) => name case None => "")
    && shown.value == n.value
  }

  /** They are what the rows of a snapshot show, one each. */
  lemma {:induction false} VisibleAreRows(f: Forest, depth: nat)
    ensures |VisibleRows(f, depth)| == |VisibleOf(f)|
    ensures forall k :: 0 <= k < |VisibleOf(f)| ==> IsLabelOf(VisibleRows(f, depth)[k].content, VisibleOf(f)[k])
  {
    if f.Cons? {
      VisibleAreRows(f.kids, if f.node.ignored then depth else depth + 1);
      VisibleAreRows(f.rest, depth);
    }
  }

  // ----- A walk that ends has no such row ------------------------------------------------------

  lemma NotTrapped(nodes: seq<RawAxNode>, id: string, count: nat, f: Forest)
    requires Explores(nodes, ChildrenOf(nodes, id), count, f)
    ensures !Trapped(nodes, id)
  {
    if p :| IgnoredPath(nodes, p) && p[0] == id && OnIgnoredCycle(nodes, p[|p| - 1]) {
      var inside, g := PartOfPath(nodes, p, count, f);
      NothingOnCycle(nodes, p[|p| - 1], inside, g);
    }
  }

  lemma {:induction false} CountIs(f: Forest, count: nat)
    requires count <= MAX_SNAPSHOT_NODES
    ensures CountAfter(f, count) == Min(MAX_SNAPSHOT_NODES, count + |VisibleOf(f)|)
  {
    if f.Cons? {
      var n := f.node;
      if n.ignored || count < MAX_SNAPSHOT_NODES { CountIs(f.kids, if n.ignored then count else count + 1); }
      CountIs(f.rest, CountIn(n, f.kids, count));
    }
  }

  /** The walk goes below every row that it shows. */
  lemma {:induction false} ShownIsWalked(nodes: seq<RawAxNode>, list: seq<RawAxNode>, count: nat, f: Forest, k: nat)
    returns (inside: nat, g: Forest)
    requires Explores(nodes, list, count, Prune(f, count))
    requires k < |VisibleOf(f)| && count + k < MAX_SNAPSHOT_NODES
    ensures Explores(nodes, ChildrenOf(nodes, VisibleOf(f)[k].nodeId), inside, g)
    decreases f
  {
    var n, kids := f.node, PruneBelow(f.node, f.kids, count);
    var own := if n.ignored then 0 else 1;
    assert ExploresBelow(nodes, n, count, kids) && kids == Prune(f.kids, count + own);
    if k < own {
      return count + 1, kids;
    }
    if k < own + |VisibleOf(f.kids)| {
      inside, g := ShownIsWalked(nodes, ChildrenOf(nodes, n.nodeId), count + own, f.kids, k - own);
    } else {
      CountIs(f.kids, count + own);
      PruneCounts(f.kids, count + own);
      assert CountIn(n, kids, count) == CountIn(n, f.kids, count);
      inside, g := ShownIsWalked(nodes, list[1..], CountIn(n, f.kids, count), f.rest, k - own - |VisibleOf(f.kids)|);
    }
  }

  // ----- A walk that does not end has one ---------------------------------------------------------

  /** Below the cap, what the walk has counted is at least what the unfolding shows, to any depth. */
  lemma {:induction false} RowsWithin(nodes: seq<RawAxNode>, list: seq<RawAxNode>, count: nat, f: Forest, depth: nat)
    requires Explores(nodes, list, count, f) && CountAfter(f, count) < MAX_SNAPSHOT_NODES && count <= MAX_SNAPSHOT_NODES
    ensures count + |VisibleOf(UnfoldTo(nodes, list, depth))| <= CountAfter(f, count)
    decreases f
  {
    if f.Cons? {
      var n, inside := f.node, CountIn(f.node, f.kids, count);
      CountInGrows(n, f.kids, count);
      CountGrows(f.rest, inside);
      RowsWithin(nodes, list[1..], inside, f.rest, depth);
      var own := if n.ignored then 0 else 1;
      if depth > 0 {
        RowsWithin(nodes, ChildrenOf(nodes, n.nodeId), count + own, f.kids, depth - 1);
      } else {
        CountGrows(f.kids, count + own);
      }
    }
  }

  predicate HasAt<T(==)>(s: seq<T>, k: nat, t: seq<T>) {
    k + |t| <= |s| && s[k..k + |t|] == t
  }

  function Own(n: RawAxNode): seq<RawAxNode> {
    if n.ignored then [] else [n]
  }

  lemma HasAtLater<T>(front: seq<T>, s: seq<T>, k: nat, t: seq<T>)
    requires HasAt(s, k, t)
    ensures HasAt(front + s, |front| + k, t)
  {
    assert (front + s)[|front| + k..|front| + k + |t|] == s[k..k + |t|];
  }

  /** `k` rows of the unfolding come before those of `m`: its own, if it has one, and what is below. */
  ghost predicate ComesAfter(nodes: seq<RawAxNode>, list: seq<RawAxNode>, depth: nat, m: RawAxNode, k: nat) {
    depth > 0 && HasAt(VisibleOf(UnfoldTo(nodes, list, depth)), k,
                       Own(m) + VisibleOf(UnfoldTo(nodes, ChildrenOf(nodes, m.nodeId), depth - 1)))
  }

  lemma FirstComesFirst(nodes: seq<RawAxNode>, list: seq<RawAxNode>, depth: nat)
    requires list != [] && depth > 0
    ensures ComesAfter(nodes, list, depth, list[0], 0)
  {
  }

  lemma LaterComesAfter(
    nodes: seq<RawAxNode>, list: seq<RawAxNode>, count: nat, kids: Forest, depth: nat, m: RawAxNode, k: nat)
    returns (k': nat)
    requires list != [] && count <= MAX_SNAPSHOT_NODES && ComesAfter(nodes, list[1..], depth, m, k)
    requires ExploresBelow(nodes, list[0], count, kids) && CountIn(list[0], kids, count) < MAX_SNAPSHOT_NODES
    ensures ComesAfter(nodes, list, depth, m, k') && count + k' <= CountIn(list[0], kids, count) + k
  {
    var below := UnfoldTo(nodes, ChildrenOf(nodes, list[0].nodeId), depth - 1);
    var first, rest := Own(list[0]) + VisibleOf(below), VisibleOf(UnfoldTo(nodes, list[1..], depth));
    RowsWithin(nodes, ChildrenOf(nodes, list[0].nodeId), count + |Own(list[0])|, kids, depth - 1);
    HasAtLater(first, rest, k, Own(m) + VisibleOf(UnfoldTo(nodes, ChildrenOf(nodes, m.nodeId), depth - 1)));
    k' := |first| + k;
  }

  /**
   * The node `m` a call is made for, and how many rows come before it: no more than the walk
   * has counted, as long as that is below the cap.
   */
  lemma {:induction false} PlaceOfCall(nodes: seq<RawAxNode>, list: seq<RawAxNode>, count: nat, c: Call, depth: nat)
    returns (m: RawAxNode, k: nat)
    requires CallsFrom(nodes, list, count, c) && count <= MAX_SNAPSHOT_NODES && depth > 0
    ensures m in list && m.nodeId == c.id && |Own(m)| <= c.count
    ensures c.count - |Own(m)| < MAX_SNAPSHOT_NODES ==>
      count + k + |Own(m)| <= c.count && ComesAfter(nodes, list, depth, m, k)
    decreases |list|
  {
    if MakesCall(list[0], count, c) {
      FirstComesFirst(nodes, list, depth);
      return list[0], 0;
    }
    var kids :| ExploresBelow(nodes, list[0], count, kids)
      && CallsFrom(nodes, list[1..], CountIn(list[0], kids, count), c);
    CountInGrows(list[0], kids, count);
    m, k := PlaceOfCall(nodes, list[1..], CountIn(list[0], kids, count), c, depth);
    if c.count - |Own(m)| < MAX_SNAPSHOT_NODES {
      k := LaterComesAfter(nodes, list, count, kids, depth, m, k);
    }
  }

  /** Row `k` of the forest leads to a cycle of ignored nodes, and the cap leaves room for it. */
  ghost predicate TrapRow(nodes: seq<RawAxNode>, f: Forest, count: nat, k: nat) {
    k < |VisibleOf(f)| && count + k < MAX_SNAPSHOT_NODES && Trapped(nodes, VisibleOf(f)[k].nodeId)
  }

  lemma TrapAbove(nodes: seq<RawAxNode>, a: string, m: RawAxNode)
    requires m in nodes && m.ignored && m.parentId == Some(a) && Trapped(nodes, m.nodeId)
    ensures Trapped(nodes, a)
  {
    var p :| IgnoredPath(nodes, p) && p[0] == m.nodeId && OnIgnoredCycle(nodes, p[|p| - 1]);
    var q := [a] + p;
    forall i | 0 <= i < |q| - 1 ensures IgnoredEdge(nodes, q[i], q[i + 1]) {
      if i > 0 { assert IgnoredEdge(nodes, p[i - 1], p[i - 1 + 1]); }
    }
    assert IgnoredPath(nodes, q) && q[0] == a && OnIgnoredCycle(nodes, q[|q| - 1]);
  }

  /** The call `c`, or a row below it, leads to such a cycle. */
  ghost predicate HasTrap(nodes: seq<RawAxNode>, c: Call, depth: nat) {
    || Trapped(nodes, c.id)
    || exists k: nat :: TrapRow(nodes, UnfoldTo(nodes, ChildrenOf(nodes, c.id), depth), c.count, k)
  }

  lemma RowOf(rows: seq<RawAxNode>, k: nat, part: seq<RawAxNode>, i: nat)
    requires HasAt(rows, k, part) && i < |part|
    ensures k + i < |rows| && rows[k + i] == part[i]
  {
    assert rows[k..k + |part|][i] == rows[k + i];
  }

  lemma OwnRowTraps(nodes: seq<RawAxNode>, a: Call, m: RawAxNode, k: nat, depth: nat)
    requires ComesAfter(nodes, ChildrenOf(nodes, a.id), depth, m, k) && a.count + k < MAX_SNAPSHOT_NODES
    requires !m.ignored && Trapped(nodes, m.nodeId)
    ensures HasTrap(nodes, a, depth)
  {
    var f := UnfoldTo(nodes, ChildrenOf(nodes, a.id), depth);
    RowOf(VisibleOf(f), k, Own(m) + VisibleOf(UnfoldTo(nodes, ChildrenOf(nodes, m.nodeId), depth - 1)), 0);
    assert TrapRow(nodes, f, a.count, k);
  }

  lemma RowBelowTraps(nodes: seq<RawAxNode>, a: Call, b: Call, m: RawAxNode, k: nat, depth: nat, j: nat)
    requires ComesAfter(nodes, ChildrenOf(nodes, a.id), depth, m, k) && m.nodeId == b.id
    requires a.count + k + |Own(m)| <= b.count
    requires TrapRow(nodes, UnfoldTo(nodes, ChildrenOf(nodes, b.id), depth - 1), b.count, j)
    ensures HasTrap(nodes, a, depth)
  {
    var f, below := UnfoldTo(nodes, ChildrenOf(nodes, a.id), depth),
                    UnfoldTo(nodes, ChildrenOf(nodes, b.id), depth - 1);
    var i := |Own(m)| + j;
    RowOf(VisibleOf(f), k, Own(m) + VisibleOf(below), i);
    assert TrapRow(nodes, f, a.count, k + i);
  }

  lemma TrapStep(nodes: seq<RawAxNode>, a: Call, b: Call, m: RawAxNode, k: nat, depth: nat)
    requires m in nodes && m.parentId == Some(a.id) && m.nodeId == b.id && depth > 0
    requires |Own(m)| <= b.count <= MAX_SNAPSHOT_NODES
    requires b.count - |Own(m)| < MAX_SNAPSHOT_NODES ==>
      a.count + k + |Own(m)| <= b.count && ComesAfter(nodes, ChildrenOf(nodes, a.id), depth, m, k)
    requires HasTrap(nodes, b, depth - 1)
    ensures HasTrap(nodes, a, depth)
  {
    if Trapped(nodes, b.id) {
      if m.ignored {
        TrapAbove(nodes, a.id, m);
      } else {
        OwnRowTraps(nodes, a, m, k, depth);
      }
    } else {
      var j: nat :| TrapRow(nodes, UnfoldTo(nodes, ChildrenOf(nodes, b.id), depth - 1), b.count, j);
      RowBelowTraps(nodes, a, b, m, k, depth, j);
    }
  }

  lemma TrappedHere(nodes: seq<RawAxNode>, id: string)
    requires OnIgnoredCycle(nodes, id)
    ensures Trapped(nodes, id)
  {
    var p := [id];
    assert IgnoredPath(nodes, p) && p[0] == id && OnIgnoredCycle(nodes, p[|p| - 1]);
  }

  /** Nested calls that get to such a cycle start out at a trap, or pass through a row that is one. */
  lemma {:induction false} ChainHasTrap(nodes: seq<RawAxNode>, p: seq<Call>, depth: nat)
    requires IsChain(nodes, p) && p[0].count <= MAX_SNAPSHOT_NODES && depth >= |p|
    requires OnIgnoredCycle(nodes, p[|p| - 1].id)
    ensures HasTrap(nodes, p[0], depth)
    decreases |p|
  {
    if |p| == 1 {
      TrappedHere(nodes, p[0].id);
    } else {
      assert Calls(nodes, p[0], p[0 + 1]);
      CallEdge(nodes, p[0], p[1]);
      ChainDrop(nodes, p);
      ChainHasTrap(nodes, p[1..], depth - 1);
      ChildrenMembers(nodes, p[0].id);
      var m, k := PlaceOfCall(nodes, ChildrenOf(nodes, p[0].id), p[0].count, p[1], depth);
      TrapStep(nodes, p[0], p[1], m, k, depth);
    }
  }

  /** A chain that gets to a cycle has a short one in it that does. */
  lemma {:induction false} ShortChain(nodes: seq<RawAxNode>, p: seq<Call>) returns (q: seq<Call>)
    requires IsChain(nodes, p) && p[0].count <= MAX_SNAPSHOT_NODES && OnIgnoredCycle(nodes, p[|p| - 1].id)
    ensures IsChain(nodes, q) && q[0] == p[0] && OnIgnoredCycle(nodes, q[|q| - 1].id)
    ensures |q| <= |AllCalls(nodes)| + 2
    decreases |p|
  {
    if i: nat :| i < |p| - 1 && OnIgnoredCycle(nodes, p[i].id) {
      ChainSlice(nodes, p, i);
      q := ShortChain(nodes, p[..i + 1]);
    } else {
      q := p;
      if |p| > 1 {
        var front := p[..|p| - 1];
        ChainSlice(nodes, p, |p| - 2);
        forall i, j | 0 <= i < j < |front| ensures front[i] != front[j] {
          if p[i] == p[j] { RepeatIsIgnoredCycle(nodes, p, i, j); }
        }
        DifferentCallsBound(nodes, front);
      }
    }
  }

  // ----- Deep enough ---------------------------------------------------------------------------------

  /** A number of levels that shows all there is to see. */
  function DeepEnough(nodes: seq<RawAxNode>): nat {
    (MAX_SNAPSHOT_NODES + 1) * |nodes| + 2
  }

  ghost function CallsTo(id: string, n: nat): set<Call> {
    set count | 0 <= count < n :: Call(id, count)
  }

  lemma {:induction false} CallsToBound(id: string, n: nat)
    ensures |CallsTo(id, n)| <= n
  {
    if n > 0 {
      CallsToBound(id, n - 1);
      assert CallsTo(id, n) == CallsTo(id, n - 1) + {Call(id, n - 1)};
    }
  }

  lemma {:induction false} AllCallsBound(nodes: seq<RawAxNode>)
    ensures |AllCalls(nodes)| <= (MAX_SNAPSHOT_NODES + 1) * |nodes|
  {
    if nodes == [] {
      assert AllCalls(nodes) == {};
    } else {
      var front, last := nodes[..|nodes| - 1], nodes[|nodes| - 1];
      assert nodes == front + [last];
      AllCallsBound(front);
      CallsToBound(last.nodeId, MAX_SNAPSHOT_NODES + 1);
      assert AllCalls(nodes) == AllCalls(front) + CallsTo(last.nodeId, MAX_SNAPSHOT_NODES + 1);
    }
  }

  /** The rows below the root, as far as `depth` levels show them. */
  function RowNodes(nodes: seq<RawAxNode>, root: RawAxNode, depth: nat): seq<RawAxNode> {
    VisibleOf(UnfoldTo(nodes, ChildrenOf(nodes, root.nodeId), depth))
  }

  lemma EndingHasNoTrap(nodes: seq<RawAxNode>, root: RawAxNode, depth: nat, k: nat)
    requires Ends(nodes, root.nodeId, 0) && depth >= DeepEnough(nodes)
    requires k < |RowNodes(nodes, root, depth)| && k < MAX_SNAPSHOT_NODES
    ensures !Trapped(nodes, RowNodes(nodes, root, depth)[k].nodeId)
  {
    var list, start := ChildrenOf(nodes, root.nodeId), Call(root.nodeId, 0);
    WalkEndsIff(nodes, root.nodeId, 0);
    var f := Explore(nodes, [start], list, 0);
    AllCallsBound(nodes);
    ExploredIsPruned(nodes, list, 0, f, depth);
    var inside, g := ShownIsWalked(nodes, list, 0, UnfoldTo(nodes, list, depth), k);
    NotTrapped(nodes, RowNodes(nodes, root, depth)[k].nodeId, inside, g);
  }

  lemma EndlessHasTrap(nodes: seq<RawAxNode>, root: RawAxNode, depth: nat)
    requires !Ends(nodes, root.nodeId, 0) && depth >= DeepEnough(nodes)
    ensures HasTrap(nodes, Call(root.nodeId, 0), depth)
  {
    var start := Call(root.nodeId, 0);
    WalkEndsIff(nodes, root.nodeId, 0);
    var p: seq<Call> :| IsChain(nodes, p) && p[0] == start && OnIgnoredCycle(nodes, p[|p| - 1].id);
    var q := ShortChain(nodes, p);
    AllCallsBound(nodes);
    ChainHasTrap(nodes, q, depth);
  }

  /**
   * The capture ends exactly when ignored nodes alone lead to a cycle of ignored nodes neither
   * from the root nor from any of the first 500 rows below it, where two levels more than 501 for each
   * node of the list are deep enough to see these rows.
   */
  lemma CaptureEndsIffRows(nodes: seq<RawAxNode>, root: RawAxNode, depth: nat)
    requires FirstRoot(nodes) == Some(root) && depth >= DeepEnough(nodes)
    ensures var rows := RowNodes(nodes, root, depth);
      (exists f :: BelowRoot(nodes, f)) <==>
        && !Trapped(nodes, root.nodeId)
        && forall k :: 0 <= k < |rows| && k < 500 ==> !Trapped(nodes, rows[k].nodeId)
  {
    CaptureEndsIff(nodes);
    WalkEndsIff(nodes, root.nodeId, 0);
    if Ends(nodes, root.nodeId, 0) {
      var f :| Explores(nodes, ChildrenOf(nodes, root.nodeId), 0, f);
      NotTrapped(nodes, root.nodeId, 0, f);
      forall k | 0 <= k < |RowNodes(nodes, root, depth)| && k < 500
        ensures !Trapped(nodes, RowNodes(nodes, root, depth)[k].nodeId)
      {
        EndingHasNoTrap(nodes, root, depth, k);
      }
    } else {
      EndlessHasTrap(nodes, root, depth);
    }
  }
}
