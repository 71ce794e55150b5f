/**
 * The shape of a snapshot: which nodes it shows, in which order, under which ancestors,
 * and when it says it was truncated. A tree is written down as its preorder list of
 * rows, each with the number of its ancestors; `RowsDetermineTree` says nothing about
 * the tree is lost that way.
 */
module SnapshotShape {
  import opened Options
  import opened AxTree
  import opened AxTreeFacts

  datatype Label = Label(role: string, name: string, value: Option<string>)
  datatype Row = Row(depth: nat, content: Label)

  function LabelOf(n: RawAxNode): Label {
    Label(UnwrapOr(n.role, ""), UnwrapOr(n.name, ""), n.value)
  }

  /** The rows of the forest with its ignored nodes left out and their kids moved up. */
  function VisibleRows(f: Forest, depth: nat): seq<Row> {
    match f
    case Nil => []
    case Cons(n, kids, rest) =>
      (if n.ignored then VisibleRows(kids, depth)
       else [Row(depth, LabelOf(n))] + VisibleRows(kids, depth + 1))
      + VisibleRows(rest, depth)
  }

  function Rows(f: Forest, depth: nat): seq<Row> {
    match f
    case Nil => []
    case Cons(n, kids, rest) => [Row(depth, LabelOf(n))] + Rows(kids, depth + 1) + Rows(rest, depth)
  }

  function TreeRows(nodes: seq<AxNode>, depth: nat): seq<Row>
    decreases nodes
  {
    if nodes == [] then [] else
      [Row(depth, Label(nodes[0].role, nodes[0].name, nodes[0].value))]
      + TreeRows(nodes[0].children, depth + 1) + TreeRows(nodes[1..], depth)
  }

  lemma {:induction false} AppendRows(f: Forest, g: Forest, depth: nat)
    ensures Rows(Append(f, g), depth) == Rows(f, depth) + Rows(g, depth)
  {
    if f.Cons? { AppendRows(f.rest, g, depth); }
  }

  lemma {:induction false} SpliceRows(f: Forest, depth: nat)
    ensures Rows(Splice(f), depth) == VisibleRows(f, depth)
  {
    match f
    case Nil =>
    case Cons(n, kids, rest) =>
      SpliceRows(kids, depth);
      SpliceRows(kids, depth + 1);
      SpliceRows(rest, depth);
      AppendRows(Splice(kids), Splice(rest), depth);
  }

  lemma {:induction false} RowCount(f: Forest, depth: nat)
    ensures |Rows(f, depth)| == Size(f)
  {
    if f.Cons? {
      RowCount(f.kids, depth + 1);
      RowCount(f.rest, depth);
    }
  }

  lemma {:induction false} TakeRows(f: Forest, k: nat, depth: nat)
    ensures Rows(Take(f, k), depth) == Rows(f, depth)[..Min(k, |Rows(f, depth)|)]
  {
    match f
    case Nil =>
    case Cons(n, kids, rest) =>
      if k > 0 {
        TakeRows(kids, k - 1, depth + 1);
        TakeRows(rest, k - 1 - Min(k - 1, Size(kids)), depth);
        RowCount(kids, depth + 1);
      }
  }

  lemma {:induction false} NameRows(f: Forest, previous: map<int, string>, next: nat, refs: RefTable, depth: nat)
    ensures TreeRows(Tree(Name(f, previous, next, refs).out), depth) == Rows(f, depth)
  {
    if f.Cons? {
      var below := Name(f.kids, previous, next, refs);
      var n', r' := NextAfter(f.node, previous, below.next),
                    Record(below.refs, RefFor(f.node, previous, below.next), f.node);
      NameRows(f.kids, previous, next, refs, depth + 1);
      NameRows(f.rest, previous, n', r', depth);
      var out := Tree(Name(f, previous, next, refs).out);
      assert out[1..] == Tree(Name(f.rest, previous, n', r').out);
    }
  }

  /** Everything below the root, `depth` levels down. */
  function BelowTo(nodes: seq<RawAxNode>, depth: nat): Forest {
    match FirstRoot(nodes)
    case None => Nil
    case Some(root) => UnfoldTo(nodes, ChildrenOf(nodes, root.nodeId), depth)
  }

  /**
   * Whenever the walk ends, the snapshot shows exactly the first 500 visible rows below the
   * root, and says it was truncated exactly when there are more. This also holds where the
   * rows go on without end: any part of the unfolding as deep as the walk went has the same
   * first rows.
   */
  lemma SnapshotShowsFirstRows(
    nodes: seq<RawAxNode>, f: Forest, previous: map<int, string>, next: nat, url: string, depth: nat)
    requires BelowRoot(nodes, f) && Height(f) <= depth + 1
    ensures var snapshot := Capture(nodes, f, previous, next, url).0.snapshot;
      var rows := VisibleRows(BelowTo(nodes, depth), 0);
      && TreeRows(snapshot.root.children, 0) == (if |rows| <= 500 then rows else rows[..500])
      && (snapshot.truncated <==> |rows| > 500)
      && snapshot.url == url
  {
    var g, st := BelowTo(nodes, depth), WalkState(map[], 0, false, next);
    if FirstRoot(nodes).Some? {
      ExploredIsPruned(nodes, ChildrenOf(nodes, FirstRoot(nodes).value.nodeId), 0, f, depth);
    }
    assert f == Prune(g, 0);
    PruneWalks(g, previous, st);
    WalkShowsFirstRows(g, previous, next);
  }

  lemma WalkShowsFirstRows(g: Forest, previous: map<int, string>, next: nat)
    ensures var walked, rows := Walk(g, previous, WalkState(map[], 0, false, next)), VisibleRows(g, 0);
      && TreeRows(Tree(walked.out), 0) == rows[..Min(MAX_SNAPSHOT_NODES, |rows|)]
      && (walked.st.truncated <==> |rows| > MAX_SNAPSHOT_NODES)
  {
    var v := Splice(g);
    WalkIsThreePasses(g, previous, WalkState(map[], 0, false, next));
    SpliceRows(g, 0);
    RowCount(v, 0);
    TakeRows(v, MAX_SNAPSHOT_NODES, 0);
    NameRows(Take(v, MAX_SNAPSHOT_NODES), previous, next, map[], 0);
  }

  // ----- Which nodes those rows are ------------------------------------------------------

  function Labels(rows: seq<Row>): seq<Label> {
    if rows == [] then [] else [rows[0].content] + Labels(rows[1..])
  }

  lemma {:induction false} LabelsAppend(a: seq<Row>, b: seq<Row>)
    ensures Labels(a + b) == Labels(a) + Labels(b)
  {
    if a == [] {
      assert a + b == b;
    } else {
      assert (a + b)[1..] == a[1..] + b;
      LabelsAppend(a[1..], b);
    }
  }

  function VisibleLabels(list: seq<RawAxNode>): seq<Label> {
    if list == [] then [] else
      (if list[0].ignored then [] else [LabelOf(list[0])]) + VisibleLabels(list[1..])
  }

  lemma {:induction false} VisibleLabelsAppend(a: seq<RawAxNode>, b: seq<RawAxNode>)
    ensures VisibleLabels(a + b) == VisibleLabels(a) + VisibleLabels(b)
  {
    if a == [] {
      assert a + b == b;
    } else {
      assert (a + b)[1..] == a[1..] + b;
      VisibleLabelsAppend(a[1..], b);
    }
  }

  /** The visible rows are the unignored nodes of the unfolded tree, in preorder. */
  lemma {:induction false} VisibleRowsArePreorder(f: Forest, depth: nat)
    ensures Labels(VisibleRows(f, depth)) == VisibleLabels(Preorder(f))
  {
    match f
    case Nil =>
    case Cons(n, kids, rest) =>
      VisibleRowsArePreorder(kids, if n.ignored then depth else depth + 1);
      VisibleRowsArePreorder(rest, depth);
      LabelsOfCons(n, kids, rest, depth);
      VisibleLabelsOfCons(n, Preorder(kids), Preorder(rest));
  }

  lemma VisibleLabelsOfCons(n: RawAxNode, a: seq<RawAxNode>, b: seq<RawAxNode>)
    ensures VisibleLabels([n] + a + b) == (if n.ignored then [] else [LabelOf(n)]) + VisibleLabels(a) + VisibleLabels(b)
  {
    VisibleLabelsAppend([n] + a, b);
    VisibleLabelsAppend([n], a);
    assert [n][1..] == [];
  }

  lemma LabelsOfCons(n: RawAxNode, kids: Forest, rest: Forest, depth: nat)
    ensures Labels(VisibleRows(Cons(n, kids, rest), depth)) ==
      (if n.ignored then [] else [LabelOf(n)])
      + Labels(VisibleRows(kids, if n.ignored then depth else depth + 1)) + Labels(VisibleRows(rest, depth))
  {
    var row := [Row(depth, LabelOf(n))];
    assert row[1..] == [];
    if n.ignored {
      LabelsAppend(VisibleRows(kids, depth), VisibleRows(rest, depth));
    } else {
      LabelsAppend(row, VisibleRows(kids, depth + 1));
      LabelsAppend(row + VisibleRows(kids, depth + 1), VisibleRows(rest, depth));
    }
  }

  /** `n` hangs below the id `r` through a chain of parent pointers. */
  ghost predicate Reachable(nodes: seq<RawAxNode>, r: string, n: RawAxNode) {
    n in nodes && exists p :: IsPath(nodes, p) && p[0] == r && n.parentId == Some(p[|p| - 1])
  }

  lemma PrefixLonger(a: seq<string>, x: string, p: seq<string>, y: string)
    requires a + [x] <= p
    ensures a <= p && a + [x] <= p + [y]
  {
  }

  /** The path from the parent of `list` down to the member `m` of its unfolding. */
  lemma {:induction false} PathInside(
    nodes: seq<RawAxNode>, list: seq<RawAxNode>, f: Forest, path: seq<string>, m: RawAxNode)
    returns (p: seq<string>, k: nat)
    requires Unfolds(nodes, list, f) && IsPath(nodes, path) && m in Preorder(f)
    requires forall i :: 0 <= i < |list| ==> list[i] in nodes && list[i].parentId == Some(path[|path| - 1])
    ensures m in nodes && IsPath(nodes, p) && path <= p && m.parentId == Some(p[|p| - 1])
    ensures k < |list| && path + [list[k].nodeId] <= p + [m.nodeId]
    decreases f
  {
    var n := f.node;
    if m == n {
      return path, 0;
    }
    if m in Preorder(f.kids) {
      PathExtend(nodes, path, n);
      ChildrenMembers(nodes, n.nodeId);
      var k';
      p, k' := PathInside(nodes, ChildrenOf(nodes, n.nodeId), f.kids, path + [n.nodeId], m);
      PrefixLonger(path, n.nodeId, p, m.nodeId);
      k := 0;
    } else {
      p, k := PathInside(nodes, list[1..], f.rest, path, m);
      assert list[1..][k] == list[k + 1];
      k := k + 1;
    }
  }

  /** The unfolded tree holds exactly the nodes reachable from the root. */
  lemma UnfoldedIffReachable(nodes: seq<RawAxNode>, r: string, f: Forest, n: RawAxNode)
    requires Unfolds(nodes, ChildrenOf(nodes, r), f)
    ensures n in Preorder(f) <==> Reachable(nodes, r, n)
  {
    ChildrenMembers(nodes, r);
    if n in Preorder(f) {
      var p, _ := PathInside(nodes, ChildrenOf(nodes, r), f, [r], n);
    }
    if Reachable(nodes, r, n) {
      var p :| IsPath(nodes, p) && p[0] == r && n.parentId == Some(p[|p| - 1]);
      var g := Descend(nodes, f, p);
      ChildrenMembers(nodes, p[|p| - 1]);
      TopLevel(nodes, ChildrenOf(nodes, p[|p| - 1]), g, n);
    }
  }

  lemma {:induction false} TopLevel(nodes: seq<RawAxNode>, list: seq<RawAxNode>, f: Forest, n: RawAxNode)
    requires Unfolds(nodes, list, f) && n in list
    ensures n in Preorder(f)
    decreases f
  {
    if n != list[0] { TopLevel(nodes, list[1..], f.rest, n); }
  }

  /** With unique ids there is one way down from a parentless root to any id. */
  lemma {:induction false} PathUnique(nodes: seq<RawAxNode>, root: RawAxNode, p: seq<string>, q: seq<string>)
    requires UniqueIds(nodes) && root in nodes && root.parentId == None
    requires IsPath(nodes, p) && IsPath(nodes, q) && p[0] == q[0] == root.nodeId
    requires p[|p| - 1] == q[|q| - 1]
    ensures p == q
    decreases |p|
  {
    var i, j := |p| - 2, |q| - 2;
    if i >= 0 { assert Edge(nodes, p[i], p[i + 1]); }
    if j >= 0 { assert Edge(nodes, q[j], q[j + 1]); }
    if i >= 0 && j >= 0 {
      PathSlice(nodes, p, 0, i);
      PathSlice(nodes, q, 0, j);
      PathUnique(nodes, root, p[0..i + 1], q[0..j + 1]);
      assert p == p[0..i + 1] + [p[i + 1]] && q == q[0..j + 1] + [q[j + 1]];
    }
  }

  lemma {:induction false} ChildrenDistinct(nodes: seq<RawAxNode>, p: Option<string>)
    requires UniqueIds(nodes)
    ensures UniqueIds(WithParent(nodes, p))
  {
    if nodes != [] {
      var front := nodes[..|nodes| - 1];
      ChildrenDistinct(front, p);
      forall n { WithParentMembers(front, p, n); }
      assert forall k :: 0 <= k < |WithParent(front, p)| ==> WithParent(front, p)[k] in front;
    }
  }

  /** The unfolding `f` of `list` hangs at the end of a path from the root. */
  ghost predicate Placed(nodes: seq<RawAxNode>, root: RawAxNode, list: seq<RawAxNode>, f: Forest, path: seq<string>) {
    && UniqueIds(nodes) && root in nodes && root.parentId == None
    && IsPath(nodes, path) && path[0] == root.nodeId && Unfolds(nodes, list, f) && UniqueIds(list)
    && forall i :: 0 <= i < |list| ==> list[i] in nodes && list[i].parentId == Some(path[|path| - 1])
  }

  lemma PlacedParts(nodes: seq<RawAxNode>, root: RawAxNode, list: seq<RawAxNode>, f: Forest, path: seq<string>)
    requires Placed(nodes, root, list, f, path) && f.Cons?
    ensures Placed(nodes, root, ChildrenOf(nodes, f.node.nodeId), f.kids, path + [f.node.nodeId])
    ensures Placed(nodes, root, list[1..], f.rest, path)
  {
    PathExtend(nodes, path, f.node);
    ChildrenMembers(nodes, f.node.nodeId);
    ChildrenDistinct(nodes, Some(f.node.nodeId));
  }

  lemma BelowApart(
    nodes: seq<RawAxNode>, root: RawAxNode, list: seq<RawAxNode>, f: Forest, path: seq<string>, m: RawAxNode)
    requires Placed(nodes, root, list, f, path) && f.Cons? && m in Preorder(f.kids)
    ensures m.nodeId != f.node.nodeId
  {
    var n := f.node;
    PlacedParts(nodes, root, list, f, path);
    var p, k := PathInside(nodes, ChildrenOf(nodes, n.nodeId), f.kids, path + [n.nodeId], m);
    assert |p| > |path|;
    Apart(nodes, root, p, m, path, n);
  }

  lemma BesideApart(
    nodes: seq<RawAxNode>, root: RawAxNode, list: seq<RawAxNode>, f: Forest, path: seq<string>, m: RawAxNode)
    requires Placed(nodes, root, list, f, path) && f.Cons? && m in Preorder(f.rest)
    ensures m.nodeId != f.node.nodeId
  {
    PlacedParts(nodes, root, list, f, path);
    var p, k := PathInside(nodes, list[1..], f.rest, path, m);
    assert (p + [m.nodeId])[|path|] == list[1..][k].nodeId && (path + [f.node.nodeId])[|path|] == list[0].nodeId;
    Apart(nodes, root, p, m, path, f.node);
  }

  lemma BelowBesideApart(
    nodes: seq<RawAxNode>, root: RawAxNode, list: seq<RawAxNode>, f: Forest, path: seq<string>,
    m: RawAxNode, m': RawAxNode)
    requires Placed(nodes, root, list, f, path) && f.Cons? && m in Preorder(f.kids) && m' in Preorder(f.rest)
    ensures m.nodeId != m'.nodeId
  {
    var n := f.node;
    PlacedParts(nodes, root, list, f, path);
    var p, k := PathInside(nodes, ChildrenOf(nodes, n.nodeId), f.kids, path + [n.nodeId], m);
    var q, k' := PathInside(nodes, list[1..], f.rest, path, m');
    assert (p + [m.nodeId])[|path|] == n.nodeId && (q + [m'.nodeId])[|path|] == list[1..][k'].nodeId;
    Apart(nodes, root, p, m, q, m');
  }

  /** With unique ids, every reachable node is unfolded once. */
  lemma {:induction false} UnfoldedOnce(
    nodes: seq<RawAxNode>, root: RawAxNode, list: seq<RawAxNode>, f: Forest, path: seq<string>)
    requires Placed(nodes, root, list, f, path)
    ensures UniqueIds(Preorder(f))
    decreases f
  {
    if f.Cons? {
      var n, below, beside := f.node, Preorder(f.kids), Preorder(f.rest);
      PlacedParts(nodes, root, list, f, path);
      UnfoldedOnce(nodes, root, ChildrenOf(nodes, n.nodeId), f.kids, path + [n.nodeId]);
      UnfoldedOnce(nodes, root, list[1..], f.rest, path);
      forall i | 0 <= i < |below| ensures below[i].nodeId != n.nodeId {
        BelowApart(nodes, root, list, f, path, below[i]);
      }
      forall i | 0 <= i < |beside| ensures beside[i].nodeId != n.nodeId {
        BesideApart(nodes, root, list, f, path, beside[i]);
      }
      forall i, j | 0 <= i < |below| && 0 <= j < |beside| ensures below[i].nodeId != beside[j].nodeId {
        BelowBesideApart(nodes, root, list, f, path, below[i], beside[j]);
      }
      DistinctJoin(n, below, beside);
    }
  }

  lemma WholeOnce(nodes: seq<RawAxNode>, root: RawAxNode, g: Forest)
    requires UniqueIds(nodes) && FirstRoot(nodes) == Some(root) && Unfolds(nodes, ChildrenOf(nodes, root.nodeId), g)
    ensures UniqueIds(Preorder(g))
  {
    FirstRootIsRoot(nodes);
    ChildrenMembers(nodes, root.nodeId);
    ChildrenDistinct(nodes, Some(root.nodeId));
    UnfoldedOnce(nodes, root, ChildrenOf(nodes, root.nodeId), g, [root.nodeId]);
  }

  lemma DistinctJoin(n: RawAxNode, a: seq<RawAxNode>, b: seq<RawAxNode>)
    requires UniqueIds(a) && UniqueIds(b)
    requires forall i :: 0 <= i < |a| ==> a[i].nodeId != n.nodeId
    requires forall i :: 0 <= i < |b| ==> b[i].nodeId != n.nodeId
    requires forall i, j :: 0 <= i < |a| && 0 <= j < |b| ==> a[i].nodeId != b[j].nodeId
    ensures UniqueIds([n] + a + b)
  {
  }

  /** Nodes reached along different paths have different ids. */
  lemma Apart(nodes: seq<RawAxNode>, root: RawAxNode, p: seq<string>, a: RawAxNode, q: seq<string>, b: RawAxNode)
    requires UniqueIds(nodes) && root in nodes && root.parentId == None
    requires IsPath(nodes, p) && p[0] == root.nodeId && a in nodes && a.parentId == Some(p[|p| - 1])
    requires IsPath(nodes, q) && q[0] == root.nodeId && b in nodes && b.parentId == Some(q[|q| - 1])
    requires p + [a.nodeId] != q + [b.nodeId]
    ensures a.nodeId != b.nodeId
  {
    PathExtend(nodes, p, a);
    PathExtend(nodes, q, b);
    if a.nodeId == b.nodeId {
      PathUnique(nodes, root, p + [a.nodeId], q + [b.nodeId]);
    }
  }

  // ----- How many there are ------------------------------------------------------------------

  function VisibleNodes(list: seq<RawAxNode>): seq<RawAxNode> {
    if list == [] then [] else (if list[0].ignored then [] else [list[0]]) + VisibleNodes(list[1..])
  }

  lemma {:induction false} VisibleNodesOf(list: seq<RawAxNode>)
    requires UniqueIds(list)
    ensures |VisibleLabels(list)| == |VisibleNodes(list)| && UniqueIds(VisibleNodes(list))
    ensures forall n :: n in VisibleNodes(list) <==> n in list && !n.ignored
  {
    if list != [] {
      var rest := list[1..];
      VisibleNodesOf(rest);
      assert list == [list[0]] + rest;
      assert forall i :: 0 <= i < |rest| ==> rest[i] == list[i + 1];
      assert forall i :: 0 <= i < |VisibleNodes(rest)| ==> VisibleNodes(rest)[i] in rest;
    }
  }

  lemma {:induction false} LabelCount(rows: seq<Row>)
    ensures |Labels(rows)| == |rows|
  {
    if rows != [] { LabelCount(rows[1..]); }
  }

  /** A list without repeated ids has as many members as there are places they come from. */
  lemma {:induction false} CountPlaces(nodes: seq<RawAxNode>, list: seq<RawAxNode>, places: set<nat>)
    requires UniqueIds(nodes) && UniqueIds(list)
    requires forall i :: i in places ==> i < |nodes| && nodes[i] in list
    requires forall n :: n in list ==> exists i :: i in places && nodes[i] == n
    ensures |list| == |places|
  {
    if list == [] {
      assert places == {};
    } else {
      var n, front := list[|list| - 1], list[..|list| - 1];
      assert n in list && list == front + [n];
      var i :| i in places && nodes[i] == n;
      forall k | k in places - {i} ensures nodes[k] in front { assert nodes[k].nodeId != n.nodeId; }
      forall m | m in front ensures exists k :: k in places - {i} && nodes[k] == m {
        assert m in list;
        var k :| k in places && nodes[k] == m;
        assert m.nodeId != n.nodeId;
      }
      CountPlaces(nodes, front, places - {i});
      assert places == (places - {i}) + {i};
    }
  }

  /** The unignored nodes that hang below the root, by their place in the list. */
  ghost function ReachableVisible(nodes: seq<RawAxNode>, root: RawAxNode): set<nat> {
    set i: nat | i < |nodes| && !nodes[i].ignored && Reachable(nodes, root.nodeId, nodes[i])
  }

  lemma RowsAreReachable(nodes: seq<RawAxNode>, root: RawAxNode, g: Forest)
    requires UniqueIds(nodes) && FirstRoot(nodes) == Some(root) && Unfolds(nodes, ChildrenOf(nodes, root.nodeId), g)
    ensures |VisibleRows(g, 0)| == |ReachableVisible(nodes, root)|
  {
    WholeOnce(nodes, root, g);
    VisibleRowsArePreorder(g, 0);
    LabelCount(VisibleRows(g, 0));
    VisibleNodesOf(Preorder(g));
    forall n ensures n in Preorder(g) <==> Reachable(nodes, root.nodeId, n) {
      UnfoldedIffReachable(nodes, root.nodeId, g, n);
    }
    forall n | n in VisibleNodes(Preorder(g)) ensures exists i :: i in ReachableVisible(nodes, root) && nodes[i] == n {
      var i :| 0 <= i < |nodes| && nodes[i] == n;
      assert i in ReachableVisible(nodes, root);
    }
    CountPlaces(nodes, VisibleNodes(Preorder(g)), ReachableVisible(nodes, root));
  }

  /**
   * With unique ids, let N be the number of unignored nodes reachable from the root: the
   * snapshot has min(N, 500) nodes below its root, and is truncated exactly when N > 500.
   */
  lemma SnapshotCounts(
    nodes: seq<RawAxNode>, root: RawAxNode, f: Forest, previous: map<int, string>, next: nat, url: string)
    requires UniqueIds(nodes) && FirstRoot(nodes) == Some(root) && BelowRoot(nodes, f)
    ensures var snapshot, n := Capture(nodes, f, previous, next, url).0.snapshot, |ReachableVisible(nodes, root)|;
      && |TreeRows(snapshot.root.children, 0)| == (if n <= 500 then n else 500)
      && (snapshot.truncated <==> n > 500)
  {
    var list := ChildrenOf(nodes, root.nodeId);
    UniqueIdsUnfold(nodes, root);
    var g :| Unfolds(nodes, list, g);
    RowsAreReachable(nodes, root, g);
    var depth := Height(f) + Height(g);
    UnfoldToAll(nodes, list, g, depth);
    SnapshotShowsFirstRows(nodes, f, previous, next, url, depth);
  }

  // ----- Rows lose nothing -----------------------------------------------------------------

  lemma {:induction false} RowDepths(nodes: seq<AxNode>, depth: nat)
    ensures forall i :: 0 <= i < |TreeRows(nodes, depth)| ==> TreeRows(nodes, depth)[i].depth >= depth
    decreases nodes
  {
    if nodes != [] {
      RowDepths(nodes[0].children, depth + 1);
      RowDepths(nodes[1..], depth);
    }
  }

  function Unnamed(nodes: seq<AxNode>): seq<AxNode>
    decreases nodes
  {
    if nodes == [] then [] else
      [AxNode("", nodes[0].role, nodes[0].name, nodes[0].value, Unnamed(nodes[0].children))] + Unnamed(nodes[1..])
  }

  /** Deeper rows end where the first row of the given depth begins. */
  lemma SplitRows(ka: seq<Row>, ra: seq<Row>, kb: seq<Row>, rb: seq<Row>, depth: nat)
    requires ka + ra == kb + rb
    requires forall i :: 0 <= i < |ka| ==> ka[i].depth > depth
    requires forall i :: 0 <= i < |kb| ==> kb[i].depth > depth
    requires (ra != [] ==> ra[0].depth == depth) && (rb != [] ==> rb[0].depth == depth)
    ensures ka == kb && ra == rb
  {
    var rows := ka + ra;
    assert forall i :: 0 <= i < |ka| ==> rows[i].depth > depth;
    assert forall i :: 0 <= i < |kb| ==> rows[i].depth > depth;
    assert |ka| < |rows| ==> rows[|ka|].depth == depth;
    assert |kb| < |rows| ==> rows[|kb|].depth == depth;
    assert ka == (ka + ra)[..|ka|] && kb == (kb + rb)[..|kb|];
    assert ra == (ka + ra)[|ka|..] && rb == (kb + rb)[|kb|..];
  }

  /** Two trees with the same rows are the same but for their ref strings. */
  lemma {:induction false} RowsDetermineTree(a: seq<AxNode>, b: seq<AxNode>, depth: nat)
    requires TreeRows(a, depth) == TreeRows(b, depth)
    ensures Unnamed(a) == Unnamed(b)
    decreases a
  {
    if a != [] {
      var ka, ra := TreeRows(a[0].children, depth + 1), TreeRows(a[1..], depth);
      var kb, rb := TreeRows(b[0].children, depth + 1), TreeRows(b[1..], depth);
      assert TreeRows(a, depth)[0] == TreeRows(b, depth)[0];
      assert TreeRows(a, depth)[1..] == ka + ra && TreeRows(b, depth)[1..] == kb + rb;
      RowDepths(a[0].children, depth + 1);
      RowDepths(b[0].children, depth + 1);
      SplitRows(ka, ra, kb, rb, depth);
      RowsDetermineTree(a[0].children, b[0].children, depth + 1);
      RowsDetermineTree(a[1..], b[1..], depth);
    }
  }
}
