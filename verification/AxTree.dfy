/**
 * The accessibility-tree walk: a flat list of nodes with parent pointers becomes a
 * tree, with ignored nodes spliced out, at most 500 nodes kept, and a ref string per
 * surviving node. The walk does all of this in one recursive pass over shared
 * counters; the lemmas of `AxTreeFacts` say what the pass computes.
 */
module AxTree {
  import opened Options
  import opened Numerals

  const MAX_SNAPSHOT_NODES: nat := 500
  const ROOT_REF := "root"

  datatype RawAxNode = RawAxNode(
    nodeId: string,
    parentId: Option<string>,
    ignored: bool,
    role: Option<string>,
    name: Option<string>,
    value: Option<string>,
    backendNodeId: Option<int>,
    oopif: bool)

  datatype ResolvedRef = ResolvedRef(backendNodeId: int, role: string, isOopif: bool)

  type RefTable = map<string, ResolvedRef>

  datatype AxNode = AxNode(
    nodeRef: string, role: string, name: string, value: Option<string>, children: seq<AxNode>)

  datatype AxSnapshot = AxSnapshot(
    root: AxNode, url: string, truncated: bool, navigatedFrom: Option<string>)

  datatype AxCapture = AxCapture(snapshot: AxSnapshot, refs: RefTable)

  /** The ref string minted for the `n`-th fresh node of a session. */
  function RefName(n: nat): string {
    ['e'] + Numeral(n, Decimal)
  }

  // ----- The list of nodes as a forest ---------------------------------------------

  /** First child, next sibling: the shape the recursion of the walk follows. */
  datatype Forest = Nil | Cons(node: RawAxNode, kids: Forest, rest: Forest)

  /** The same shape for the nodes of a snapshot, each with the ref it was given. */
  datatype Named = NoneLeft | Next(nodeRef: string, node: RawAxNode, below: Named, beside: Named)

  function Shown(n: RawAxNode, nodeRef: string, children: seq<AxNode>): AxNode {
    AxNode(nodeRef, UnwrapOr(n.role, ""), UnwrapOr(n.name, ""), n.value, children)
  }

  function Tree(t: Named): seq<AxNode> {
    match t
    case NoneLeft => []
    case Next(nodeRef, n, below, beside) => [Shown(n, nodeRef, Tree(below))] + Tree(beside)
  }

  function Join(s: Named, t: Named): Named {
    match s
    case NoneLeft => t
    case Next(nodeRef, n, below, beside) => Next(nodeRef, n, below, Join(beside, t))
  }

  lemma {:induction false} JoinTrees(s: Named, t: Named)
    ensures Tree(Join(s, t)) == Tree(s) + Tree(t)
  {
    if s.Next? { JoinTrees(s.beside, t); }
  }

  /** The nodes with parent pointer `p`, in list order. */
  function WithParent(nodes: seq<RawAxNode>, p: Option<string>): seq<RawAxNode> {
    if nodes == [] then [] else
      var last := nodes[|nodes| - 1];
      WithParent(nodes[..|nodes| - 1], p) + if last.parentId == p then [last] else []
  }

  function ChildrenOf(nodes: seq<RawAxNode>, id: string): seq<RawAxNode> {
    WithParent(nodes, Some(id))
  }

  /** The finite forest `f` is what following parent pointers down from `list` yields. */
  ghost predicate Unfolds(nodes: seq<RawAxNode>, list: seq<RawAxNode>, f: Forest)
    decreases f
  {
    match f
    case Nil => list == []
    case Cons(n, kids, rest) =>
      && list != [] && n == list[0]
      && Unfolds(nodes, ChildrenOf(nodes, n.nodeId), kids)
      && Unfolds(nodes, list[1..], rest)
  }

  function FirstRoot(nodes: seq<RawAxNode>): Option<RawAxNode> {
    if nodes == [] then None
    else if nodes[0].parentId == None then Some(nodes[0])
    else FirstRoot(nodes[1..])
  }

  function Size(f: Forest): nat {
    match f
    case Nil => 0
    case Cons(_, kids, rest) => 1 + Size(kids) + Size(rest)
  }

  // ----- The walk -------------------------------------------------------------------

  datatype WalkState = WalkState(refs: RefTable, count: nat, truncated: bool, nextRefId: nat)

  /** A node can keep a ref only through its parent process's backend id. */
  predicate Reusable(n: RawAxNode, previous: map<int, string>) {
    n.backendNodeId.Some? && !n.oopif && n.backendNodeId.value in previous
  }

  function RefFor(n: RawAxNode, previous: map<int, string>, nextRefId: nat): string {
    if Reusable(n, previous) then previous[n.backendNodeId.value] else RefName(nextRefId)
  }

  function NextAfter(n: RawAxNode, previous: map<int, string>, nextRefId: nat): nat {
    if Reusable(n, previous) then nextRefId else nextRefId + 1
  }

  function Resolved(n: RawAxNode): ResolvedRef
    requires n.backendNodeId.Some?
  {
    ResolvedRef(n.backendNodeId.value, UnwrapOr(n.role, ""), n.oopif)
  }

  function Record(refs: RefTable, nodeRef: string, n: RawAxNode): RefTable {
    if n.backendNodeId.Some? then refs[nodeRef := Resolved(n)] else refs
  }

  /** A node is named, and entered in the table, once its own children are done. */
  function AfterNaming(n: RawAxNode, previous: map<int, string>, st: WalkState): WalkState {
    st.(refs := Record(st.refs, RefFor(n, previous, st.nextRefId), n),
        nextRefId := NextAfter(n, previous, st.nextRefId))
  }

  datatype Walked = Walked(out: Named, st: WalkState)

  /** The one-pass walk over the children of one node, as a function of its counters. */
  function Walk(f: Forest, previous: map<int, string>, st: WalkState): Walked
    decreases f, 0
  {
    match f
    case Nil => Walked(NoneLeft, st)
    case Cons(n, kids, rest) =>
      var first := Visit(n, kids, previous, st);
      var others := Walk(rest, previous, first.st);
      Walked(Join(first.out, others.out), others.st)
  }

  /** What one child contributes: its spliced-in kids, nothing, or its own node. */
  function Visit(n: RawAxNode, kids: Forest, previous: map<int, string>, st: WalkState): Walked
    decreases kids, 1
  {
    if n.ignored then
      Walk(kids, previous, st)
    else if st.count >= MAX_SNAPSHOT_NODES then
      Walked(NoneLeft, st.(truncated := true))
    else
      var below := Walk(kids, previous, st.(count := st.count + 1));
      Walked(Next(RefFor(n, previous, below.st.nextRefId), n, below.out, NoneLeft),
             AfterNaming(n, previous, below.st))
  }

  // ----- What the walk looks at --------------------------------------------------------

  /** The counter of the walk after all of `f`. */
  function CountAfter(f: Forest, count: nat): nat
    decreases f, 0
  {
    match f
    case Nil => count
    case Cons(n, kids, rest) => CountAfter(rest, CountIn(n, kids, count))
  }

  /** The counter after one child: a node over the cap is not counted, and not descended into. */
  function CountIn(n: RawAxNode, kids: Forest, count: nat): nat
    decreases kids, 1
  {
    if n.ignored then CountAfter(kids, count)
    else if count >= MAX_SNAPSHOT_NODES then count
    else CountAfter(kids, count + 1)
  }

  /**
   * The finite forest `f` is what the walk looks at when it starts on `list` with its
   * counter at `count`: it goes below an ignored node always, below another only under the cap.
   */
  ghost predicate Explores(nodes: seq<RawAxNode>, list: seq<RawAxNode>, count: nat, f: Forest)
    decreases f, 0
  {
    match f
    case Nil => list == []
    case Cons(n, kids, rest) =>
      && list != [] && n == list[0]
      && ExploresBelow(nodes, n, count, kids)
      && Explores(nodes, list[1..], CountIn(n, kids, count), rest)
  }

  ghost predicate ExploresBelow(nodes: seq<RawAxNode>, n: RawAxNode, count: nat, kids: Forest)
    decreases kids, 1
  {
    if n.ignored then Explores(nodes, ChildrenOf(nodes, n.nodeId), count, kids)
    else if count >= MAX_SNAPSHOT_NODES then kids == Nil
    else Explores(nodes, ChildrenOf(nodes, n.nodeId), count + 1, kids)
  }

  /** What the walk looks at below the first parentless node; nothing when there is none. */
  ghost predicate BelowRoot(nodes: seq<RawAxNode>, f: Forest) {
    match FirstRoot(nodes)
    case None => f == Nil
    case Some(root) => Explores(nodes, ChildrenOf(nodes, root.nodeId), 0, f)
  }

  lemma {:induction false} WalkCounts(f: Forest, previous: map<int, string>, st: WalkState)
    ensures Walk(f, previous, st).st.count == CountAfter(f, st.count)
    decreases f, 0
  {
    if f.Cons? {
      VisitCounts(f.node, f.kids, previous, st);
      WalkCounts(f.rest, previous, Visit(f.node, f.kids, previous, st).st);
    }
  }

  lemma {:induction false} VisitCounts(n: RawAxNode, kids: Forest, previous: map<int, string>, st: WalkState)
    ensures Visit(n, kids, previous, st).st.count == CountIn(n, kids, st.count)
    decreases kids, 1
  {
    if n.ignored {
      WalkCounts(kids, previous, st);
    } else if st.count < MAX_SNAPSHOT_NODES {
      WalkCounts(kids, previous, st.(count := st.count + 1));
    }
  }

  /** `previous` answers, for each reusable backend id, with one ref that had it. */
  ghost predicate IsReverseIndex(refs: RefTable, previous: map<int, string>) {
    && (forall b :: b in previous ==>
          previous[b] in refs && refs[previous[b]].backendNodeId == b && !refs[previous[b]].isOopif)
    && (forall r :: r in refs && !refs[r].isOopif ==> refs[r].backendNodeId in previous)
  }

  /** The capture of `nodes`, given the forest below its root. */
  function Capture(nodes: seq<RawAxNode>, f: Forest, previous: map<int, string>, nextRefId: nat, url: string)
    : (AxCapture, nat)
  {
    var walked := Walk(f, previous, WalkState(map[], 0, false, nextRefId));
    var root := match FirstRoot(nodes)
      case Some(r) => Shown(r, ROOT_REF, Tree(walked.out))
      case None => AxNode(ROOT_REF, "", "", None, []);
    (AxCapture(AxSnapshot(root, url, walked.st.truncated, None), walked.st.refs), walked.st.nextRefId)
  }

  // ----- The walk as the program runs it -----------------------------------------------

  lemma WithParentStep(nodes: seq<RawAxNode>, k: nat, p: Option<string>)
    requires k < |nodes|
    ensures WithParent(nodes[..k + 1], p)
         == WithParent(nodes[..k], p) + if nodes[k].parentId == p then [nodes[k]] else []
  {
    assert nodes[..k + 1][..k] == nodes[..k];
  }

  method IndexByParent(nodes: seq<RawAxNode>) returns (byParent: map<Option<string>, seq<RawAxNode>>)
    ensures forall p :: p in byParent ==> byParent[p] == WithParent(nodes, p)
    ensures forall p :: p !in byParent ==> WithParent(nodes, p) == []
  {
    byParent := map[];
    for k := 0 to |nodes|
      invariant forall p :: p in byParent ==> byParent[p] == WithParent(nodes[..k], p)
      invariant forall p :: p !in byParent ==> WithParent(nodes[..k], p) == []
    {
      forall p {
        WithParentStep(nodes, k, p);
      }
      var p := nodes[k].parentId;
      byParent := byParent[p := (if p in byParent then byParent[p] else []) + [nodes[k]]];
    }
    assert nodes[..|nodes|] == nodes;
  }

  /** Visits the refs in an arbitrary order; a later ref of the same backend id wins. */
  method ReverseIndex(refs: RefTable) returns (previous: map<int, string>)
    ensures IsReverseIndex(refs, previous)
  {
    previous := map[];
    var left := refs.Keys;
    while left != {}
      invariant left <= refs.Keys
      invariant forall b :: b in previous ==>
        previous[b] in refs && refs[previous[b]].backendNodeId == b && !refs[previous[b]].isOopif
      invariant forall r :: r in refs && r !in left && !refs[r].isOopif ==> refs[r].backendNodeId in previous
      decreases |left|
    {
      var r :| r in left;
      if !refs[r].isOopif {
        previous := previous[refs[r].backendNodeId := r];
      }
      left := left - {r};
    }
  }

  class TreeWalk {
    ghost const nodes: seq<RawAxNode>
    const byParent: map<Option<string>, seq<RawAxNode>>
    const previous: map<int, string>
    var refs: RefTable
    var count: nat
    var truncated: bool
    var nextRefId: nat

    ghost predicate Indexed() {
      && (forall p :: p in byParent ==> byParent[p] == WithParent(nodes, p))
      && (forall p :: p !in byParent ==> WithParent(nodes, p) == [])
    }

    ghost function State(): WalkState
      reads this
    {
      WalkState(refs, count, truncated, nextRefId)
    }

    constructor (ghost nodes: seq<RawAxNode>, byParent: map<Option<string>, seq<RawAxNode>>,
                 previous: map<int, string>, nextRefId: nat)
      ensures this.nodes == nodes && this.byParent == byParent && this.previous == previous
      ensures State() == WalkState(map[], 0, false, nextRefId)
    {
      this.nodes, this.byParent, this.previous := nodes, byParent, previous;
      refs, count, truncated, this.nextRefId := map[], 0, false, nextRefId;
    }

    method NameNode(child: RawAxNode) returns (nodeRef: string)
      modifies this
      ensures State() == AfterNaming(child, previous, old(State()))
      ensures nodeRef == RefFor(child, previous, old(nextRefId))
    {
      if Reusable(child, previous) {
        nodeRef := previous[child.backendNodeId.value];
      } else {
        nodeRef := RefName(nextRefId);
        nextRefId := nextRefId + 1;
      }
      refs := Record(refs, nodeRef, child);
    }

    /** One turn of the loop in `WalkChildren`. */
    method VisitChild(child: RawAxNode, ghost kids: Forest) returns (out: seq<AxNode>)
      requires Indexed() && ExploresBelow(nodes, child, count, kids)
      modifies this
      ensures out == Tree(Visit(child, kids, previous, old(State())).out)
      ensures State() == Visit(child, kids, previous, old(State())).st
      decreases Size(kids), 1
    {
      if child.ignored {
        out := WalkChildren(child.nodeId, kids);
      } else if count >= MAX_SNAPSHOT_NODES {
        truncated := true;
        out := [];
      } else {
        count := count + 1;
        var grandchildren := WalkChildren(child.nodeId, kids);
        var nodeRef := NameNode(child);
        out := [Shown(child, nodeRef, grandchildren)];
      }
    }

    /** The recursion is finite when what it looks at is; `WalkEnding` says when that is so. */
    method WalkChildren(parentId: string, ghost kids: Forest) returns (out: seq<AxNode>)
      requires Indexed() && Explores(nodes, ChildrenOf(nodes, parentId), count, kids)
      modifies this
      ensures out == Tree(Walk(kids, previous, old(State())).out)
      ensures State() == Walk(kids, previous, old(State())).st
      decreases Size(kids), 0
    {
      out := [];
      if Some(parentId) !in byParent {
        return;
      }
      var children := byParent[Some(parentId)];
      ghost var rest, all := kids, Walk(kids, previous, State());
      for k := 0 to |children|
        invariant Explores(nodes, children[k..], count, rest) && Size(rest) <= Size(kids)
        invariant out + Tree(Walk(rest, previous, State()).out) == Tree(all.out)
        invariant Walk(rest, previous, State()).st == all.st
      {
        assert children[k..][1..] == children[k + 1..];
        ghost var first := Visit(rest.node, rest.kids, previous, State());
        JoinTrees(first.out, Walk(rest.rest, previous, first.st).out);
        VisitCounts(rest.node, rest.kids, previous, State());
        var more := VisitChild(children[k], rest.kids);
        out := out + more;
        rest := rest.rest;
      }
    }
  }

  /** `refs` and the counter of the session go in, the capture and the counter come out. */
  method BuildTree(nodes: seq<RawAxNode>, nextRefId: nat, url: string, previousRefs: RefTable, ghost f: Forest)
    returns (capture: AxCapture, nextRefId': nat)
    requires BelowRoot(nodes, f)
    ensures exists previous ::
      && IsReverseIndex(previousRefs, previous)
      && (capture, nextRefId') == Capture(nodes, f, previous, nextRefId, url)
  {
    var byParent := IndexByParent(nodes);
    var reverse := ReverseIndex(previousRefs);
    var walk := new TreeWalk(nodes, byParent, reverse, nextRefId);
    var root;
    match FirstRoot(nodes) {
      case Some(r) =>
        var children := walk.WalkChildren(r.nodeId, f);
        root := Shown(r, ROOT_REF, children);
      case None =>
        root := AxNode(ROOT_REF, "", "", None, []);
    }
    capture := AxCapture(AxSnapshot(root, url, walk.truncated, None), walk.refs);
    nextRefId' := walk.nextRefId;
    assert (capture, nextRefId') == Capture(nodes, f, reverse, nextRefId, url);
  }
}
