/**
 * What the one-pass walk computes: it equals three simple passes (splice out ignored
 * nodes, keep the first nodes in preorder, name the survivors in postorder), and each
 * pass is characterised on plain lists.
 */
module AxTreeFacts {
  import opened Options
  import opened AxTree

  function Preorder(f: Forest): seq<RawAxNode> {
    match f
    case Nil => []
    case Cons(n, kids, rest) => [n] + Preorder(kids) + Preorder(rest)
  }

  function Postorder(f: Forest): seq<RawAxNode> {
    match f
    case Nil => []
    case Cons(n, kids, rest) => Postorder(kids) + [n] + Postorder(rest)
  }

  // ----- Following parent pointers to the end --------------------------------------------

  ghost predicate Edge(nodes: seq<RawAxNode>, a: string, b: string) {
    exists n :: n in nodes && n.parentId == Some(a) && n.nodeId == b
  }

  /** `p` follows parent-to-child links from its first id to its last. */
  ghost predicate IsPath(nodes: seq<RawAxNode>, p: seq<string>) {
    p != [] && forall i :: 0 <= i < |p| - 1 ==> Edge(nodes, p[i], p[i + 1])
  }

  /** No cycle of parent pointers can be reached from `id`. */
  ghost predicate AcyclicFrom(nodes: seq<RawAxNode>, id: string) {
    forall p :: IsPath(nodes, p) && p[0] == id ==> NoRepeat(p)
  }

  lemma {:induction false} WithParentMembers(nodes: seq<RawAxNode>, p: Option<string>, n: RawAxNode)
    ensures n in WithParent(nodes, p) <==> n in nodes && n.parentId == p
  {
    if nodes != [] {
      WithParentMembers(nodes[..|nodes| - 1], p, n);
      assert nodes == nodes[..|nodes| - 1] + [nodes[|nodes| - 1]];
    }
  }

  lemma ChildrenMembers(nodes: seq<RawAxNode>, id: string)
    ensures forall n :: n in ChildrenOf(nodes, id) <==> n in nodes && n.parentId == Some(id)
  {
    forall n { WithParentMembers(nodes, Some(id), n); }
  }

  lemma PathSlice(nodes: seq<RawAxNode>, p: seq<string>, i: nat, j: nat)
    requires IsPath(nodes, p) && i <= j < |p|
    ensures IsPath(nodes, p[i..j + 1])
  {
    var q := p[i..j + 1];
    forall k | 0 <= k < |q| - 1 ensures Edge(nodes, q[k], q[k + 1]) {
      assert Edge(nodes, p[i + k], p[i + k + 1]);
    }
  }

  lemma PathExtend(nodes: seq<RawAxNode>, p: seq<string>, n: RawAxNode)
    requires IsPath(nodes, p) && n in nodes && n.parentId == Some(p[|p| - 1])
    ensures IsPath(nodes, p + [n.nodeId])
  {
    var q := p + [n.nodeId];
    forall k | 0 <= k < |q| - 1 ensures Edge(nodes, q[k], q[k + 1]) {
      if k < |p| - 1 { assert Edge(nodes, p[k], p[k + 1]); }
    }
  }

  lemma {:induction false} NoRepeatBound<T>(p: seq<T>, s: set<T>)
    requires NoRepeat(p) && forall x :: x in p ==> x in s
    ensures |p| <= |s|
  {
    if p != [] {
      var last := p[|p| - 1];
      NoRepeatBound(p[..|p| - 1], s - {last});
    }
  }

  /** The root's own walk, run on ids: recursion can go no deeper than the ids last. */
  lemma {:induction false} Unfold(nodes: seq<RawAxNode>, list: seq<RawAxNode>, path: seq<string>) returns (f: Forest)
    requires IsPath(nodes, path) && AcyclicFrom(nodes, path[0])
    requires forall k :: 0 <= k < |list| ==> list[k] in ChildrenOf(nodes, path[|path| - 1])
    ensures Unfolds(nodes, list, f)
    decreases |set n | n in nodes :: n.nodeId| + 1 - |path|, |list|
  {
    if list == [] {
      return Nil;
    }
    var n := list[0];
    ChildrenMembers(nodes, path[|path| - 1]);
    var longer := path + [n.nodeId];
    PathExtend(nodes, path, n);
    var ids := set n | n in nodes :: n.nodeId;
    forall i | 1 <= i < |longer| ensures longer[i] in ids {
      assert Edge(nodes, longer[i - 1], longer[i - 1 + 1]);
    }
    NoRepeatBound(longer[1..], ids);
    var kids := Unfold(nodes, ChildrenOf(nodes, n.nodeId), longer);
    var rest := Unfold(nodes, list[1..], path);
    f := Cons(n, kids, rest);
  }

  lemma {:induction false} UnfoldingUnique(nodes: seq<RawAxNode>, list: seq<RawAxNode>, f: Forest, g: Forest)
    requires Unfolds(nodes, list, f) && Unfolds(nodes, list, g)
    ensures f == g
    decreases f
  {
    if f.Cons? {
      UnfoldingUnique(nodes, ChildrenOf(nodes, f.node.nodeId), f.kids, g.kids);
      UnfoldingUnique(nodes, list[1..], f.rest, g.rest);
    }
  }

  /** The forest below the first entry of `list` that carries the id `id`. */
  lemma {:induction false} FindBelow(nodes: seq<RawAxNode>, list: seq<RawAxNode>, f: Forest, id: string)
    returns (g: Forest)
    requires Unfolds(nodes, list, f) && exists n :: n in list && n.nodeId == id
    ensures Unfolds(nodes, ChildrenOf(nodes, id), g) && Size(g) < Size(f)
    ensures forall m :: m in Preorder(g) ==> m in Preorder(f)
  {
    if list[0].nodeId == id {
      g := f.kids;
    } else {
      g := FindBelow(nodes, list[1..], f.rest, id);
    }
  }

  lemma {:induction false} Descend(nodes: seq<RawAxNode>, f: Forest, p: seq<string>) returns (g: Forest)
    requires IsPath(nodes, p) && Unfolds(nodes, ChildrenOf(nodes, p[0]), f)
    ensures Unfolds(nodes, ChildrenOf(nodes, p[|p| - 1]), g)
    ensures Size(g) <= Size(f) && (|p| > 1 ==> Size(g) < Size(f))
    ensures forall m :: m in Preorder(g) ==> m in Preorder(f)
    decreases |p|
  {
    if |p| == 1 {
      return f;
    }
    assert Edge(nodes, p[0], p[1]);
    var n :| n in nodes && n.parentId == Some(p[0]) && n.nodeId == p[1];
    ChildrenMembers(nodes, p[0]);
    var below := FindBelow(nodes, ChildrenOf(nodes, p[0]), f, p[1]);
    PathSlice(nodes, p, 1, |p| - 1);
    g := Descend(nodes, below, p[1..]);
  }

  lemma NoRepeatOnPath(nodes: seq<RawAxNode>, f: Forest, p: seq<string>, i: nat, j: nat)
    requires IsPath(nodes, p) && Unfolds(nodes, ChildrenOf(nodes, p[0]), f) && i < j < |p|
    ensures p[i] != p[j]
  {
    PathSlice(nodes, p, 0, i);
    PathSlice(nodes, p, i, j);
    var upper := Descend(nodes, f, p[0..i + 1]);
    var lower := Descend(nodes, upper, p[i..j + 1]);
    if p[i] == p[j] {
      UnfoldingUnique(nodes, ChildrenOf(nodes, p[i]), upper, lower);
    }
  }

  ghost predicate FinitelyUnfolds(nodes: seq<RawAxNode>, id: string) {
    exists f :: Unfolds(nodes, ChildrenOf(nodes, id), f)
  }

  /** There are finitely many ways down from an id exactly when no cycle is reachable. */
  lemma UnfoldsIffAcyclic(nodes: seq<RawAxNode>, id: string)
    ensures FinitelyUnfolds(nodes, id) <==> AcyclicFrom(nodes, id)
  {
    if AcyclicFrom(nodes, id) {
      var f := Unfold(nodes, ChildrenOf(nodes, id), [id]);
      assert FinitelyUnfolds(nodes, id);
    }
    if f :| Unfolds(nodes, ChildrenOf(nodes, id), f) {
      forall p | IsPath(nodes, p) && p[0] == id ensures NoRepeat(p) {
        forall i, j | 0 <= i < j < |p| ensures p[i] != p[j] {
          NoRepeatOnPath(nodes, f, p, i, j);
        }
      }
      assert AcyclicFrom(nodes, id);
    }
  }

  // ----- What the walk leaves out of that ----------------------------------------------------

  /** The forest `f` as the walk sees it: nothing below the nodes over the cap. */
  function Prune(f: Forest, count: nat): Forest
    decreases f, 0
  {
    match f
    case Nil => Nil
    case Cons(n, kids, rest) => Cons(n, PruneBelow(n, kids, count), Prune(rest, CountIn(n, kids, count)))
  }

  function PruneBelow(n: RawAxNode, kids: Forest, count: nat): Forest
    decreases kids, 1
  {
    if n.ignored then Prune(kids, count)
    else if count >= MAX_SNAPSHOT_NODES then Nil
    else Prune(kids, count + 1)
  }

  /** Pruning changes nothing for the walk. */
  lemma {:induction false} PruneCounts(f: Forest, count: nat)
    ensures CountAfter(Prune(f, count), count) == CountAfter(f, count)
  {
    if f.Cons? {
      PruneCounts(f.kids, if f.node.ignored then count else count + 1);
      assert CountIn(f.node, PruneBelow(f.node, f.kids, count), count) == CountIn(f.node, f.kids, count);
      PruneCounts(f.rest, CountIn(f.node, f.kids, count));
    }
  }

  lemma {:induction false} PruneWalks(f: Forest, previous: map<int, string>, st: WalkState)
    ensures Walk(Prune(f, st.count), previous, st) == Walk(f, previous, st)
  {
    if f.Cons? {
      var n := f.node;
      if n.ignored {
        PruneWalks(f.kids, previous, st);
      } else if st.count < MAX_SNAPSHOT_NODES {
        PruneWalks(f.kids, previous, st.(count := st.count + 1));
      }
      assert Visit(n, PruneBelow(n, f.kids, st.count), previous, st) == Visit(n, f.kids, previous, st);
      VisitCounts(n, f.kids, previous, st);
      PruneWalks(f.rest, previous, Visit(n, f.kids, previous, st).st);
    }
  }

  /** Where there is a finite unfolding, the walk looks at what pruning leaves of it. */
  lemma {:induction false} PruneExplores(nodes: seq<RawAxNode>, list: seq<RawAxNode>, count: nat, f: Forest)
    requires Unfolds(nodes, list, f)
    ensures Explores(nodes, list, count, Prune(f, count))
    decreases f
  {
    if f.Cons? {
      var n := f.node;
      if n.ignored || count < MAX_SNAPSHOT_NODES {
        var inside := if n.ignored then count else count + 1;
        PruneExplores(nodes, ChildrenOf(nodes, n.nodeId), inside, f.kids);
        PruneCounts(f.kids, inside);
      }
      assert CountIn(n, PruneBelow(n, f.kids, count), count) == CountIn(n, f.kids, count);
      PruneExplores(nodes, list[1..], CountIn(n, f.kids, count), f.rest);
    }
  }

  function Height(f: Forest): nat {
    match f
    case Nil => 0
    case Cons(_, kids, rest) => if 1 + Height(kids) < Height(rest) then Height(rest) else 1 + Height(kids)
  }

  /** Everything below `list`, `depth` levels down; there may be more below that, even without end. */
  function UnfoldTo(nodes: seq<RawAxNode>, list: seq<RawAxNode>, depth: nat): Forest
    decreases depth, |list|
  {
    if list == [] then Nil else
      Cons(list[0], if depth == 0 then Nil else UnfoldTo(nodes, ChildrenOf(nodes, list[0].nodeId), depth - 1),
           UnfoldTo(nodes, list[1..], depth))
  }

  /** Where the walk ends, it looks at what pruning leaves of any deep enough part of the unfolding. */
  lemma {:induction false} ExploredIsPruned(
    nodes: seq<RawAxNode>, list: seq<RawAxNode>, count: nat, f: Forest, depth: nat)
    requires Explores(nodes, list, count, f) && Height(f) <= depth + 1
    ensures f == Prune(UnfoldTo(nodes, list, depth), count)
    decreases f
  {
    if f.Cons? {
      var n, whole := f.node, UnfoldTo(nodes, list, depth);
      if n.ignored || count < MAX_SNAPSHOT_NODES {
        var inside := if n.ignored then count else count + 1;
        if depth > 0 {
          ExploredIsPruned(nodes, ChildrenOf(nodes, n.nodeId), inside, f.kids, depth - 1);
        }
        PruneCounts(whole.kids, inside);
      }
      assert CountIn(n, whole.kids, count) == CountIn(n, f.kids, count);
      ExploredIsPruned(nodes, list[1..], CountIn(n, f.kids, count), f.rest, depth);
    }
  }

  /** A deep enough part of a finite unfolding is all of it. */
  lemma {:induction false} UnfoldToAll(nodes: seq<RawAxNode>, list: seq<RawAxNode>, f: Forest, depth: nat)
    requires Unfolds(nodes, list, f) && Height(f) <= depth + 1
    ensures UnfoldTo(nodes, list, depth) == f
    decreases f
  {
    if f.Cons? {
      if depth > 0 { UnfoldToAll(nodes, ChildrenOf(nodes, f.node.nodeId), f.kids, depth - 1); }
      UnfoldToAll(nodes, list[1..], f.rest, depth);
    }
  }

  /** A walk that was not truncated looked at everything. */
  lemma {:induction false} UntruncatedUnfolds(
    nodes: seq<RawAxNode>, list: seq<RawAxNode>, f: Forest, previous: map<int, string>, st: WalkState)
    requires Explores(nodes, list, st.count, f) && !Walk(f, previous, st).st.truncated
    ensures Unfolds(nodes, list, f) && !st.truncated
    decreases f
  {
    if f.Cons? {
      var n := f.node;
      VisitCounts(n, f.kids, previous, st);
      UntruncatedUnfolds(nodes, list[1..], f.rest, previous, Visit(n, f.kids, previous, st).st);
      if n.ignored {
        UntruncatedUnfolds(nodes, ChildrenOf(nodes, n.nodeId), f.kids, previous, st);
      } else {
        UntruncatedUnfolds(nodes, ChildrenOf(nodes, n.nodeId), f.kids, previous, st.(count := st.count + 1));
      }
    }
  }

  /** What the walk looks at is determined by the node list. */
  lemma {:induction false} ExploringUnique(
    nodes: seq<RawAxNode>, list: seq<RawAxNode>, count: nat, f: Forest, g: Forest)
    requires Explores(nodes, list, count, f) && Explores(nodes, list, count, g)
    ensures f == g
    decreases f
  {
    if f.Cons? {
      var n := f.node;
      if n.ignored || count < MAX_SNAPSHOT_NODES {
        ExploringUnique(nodes, ChildrenOf(nodes, n.nodeId), if n.ignored then count else count + 1, f.kids, g.kids);
      }
      ExploringUnique(nodes, list[1..], CountIn(n, f.kids, count), f.rest, g.rest);
    }
  }

  ghost predicate UniqueIds(nodes: seq<RawAxNode>) {
    forall i, j :: 0 <= i < j < |nodes| ==> nodes[i].nodeId != nodes[j].nodeId
  }

  lemma {:induction false} NoCycleThrough(nodes: seq<RawAxNode>, root: RawAxNode, p: seq<string>, i: nat, j: nat)
    requires UniqueIds(nodes) && root in nodes && root.parentId == None
    requires IsPath(nodes, p) && p[0] == root.nodeId && i < j < |p|
    ensures p[i] != p[j]
    decreases i
  {
    assert Edge(nodes, p[j - 1], p[j]);
    if i > 0 {
      assert Edge(nodes, p[i - 1], p[i]);
      NoCycleThrough(nodes, root, p, i - 1, j - 1);
    }
  }

  lemma UniqueIdsUnfold(nodes: seq<RawAxNode>, root: RawAxNode)
    requires UniqueIds(nodes) && FirstRoot(nodes) == Some(root)
    ensures FinitelyUnfolds(nodes, root.nodeId)
  {
    FirstRootIsRoot(nodes);
    forall p | IsPath(nodes, p) && p[0] == root.nodeId ensures NoRepeat(p) {
      forall i, j | 0 <= i < j < |p| ensures p[i] != p[j] {
        NoCycleThrough(nodes, root, p, i, j);
      }
    }
    UnfoldsIffAcyclic(nodes, root.nodeId);
  }

  /** Unique ids and a parentless root are enough for the walk to end. */
  lemma UniqueIdsTerminate(nodes: seq<RawAxNode>)
    requires UniqueIds(nodes)
    ensures exists f :: BelowRoot(nodes, f)
  {
    match FirstRoot(nodes)
    case None =>
      assert BelowRoot(nodes, Nil);
    case Some(root) =>
      UniqueIdsUnfold(nodes, root);
      var g :| Unfolds(nodes, ChildrenOf(nodes, root.nodeId), g);
      PruneExplores(nodes, ChildrenOf(nodes, root.nodeId), 0, g);
      assert BelowRoot(nodes, Prune(g, 0));
  }

  lemma {:induction false} FirstRootIsRoot(nodes: seq<RawAxNode>)
    ensures FirstRoot(nodes).Some? ==> FirstRoot(nodes).value in nodes && FirstRoot(nodes).value.parentId == None
    ensures FirstRoot(nodes) == None ==> forall n :: n in nodes ==> n.parentId != None
  {
    if nodes != [] {
      FirstRootIsRoot(nodes[1..]);
      assert nodes == [nodes[0]] + nodes[1..];
    }
  }

  // ----- Pass one: splice out the ignored nodes ------------------------------------------

  function Append(f: Forest, g: Forest): Forest {
    match f
    case Nil => g
    case Cons(n, kids, rest) => Cons(n, kids, Append(rest, g))
  }

  function Splice(f: Forest): Forest {
    match f
    case Nil => Nil
    case Cons(n, kids, rest) =>
      if n.ignored then Append(Splice(kids), Splice(rest)) else Cons(n, Splice(kids), Splice(rest))
  }

  // ----- Pass two: keep the first `k` nodes in preorder ------------------------------------

  function Min(a: nat, b: nat): nat {
    if a < b then a else b
  }

  function Take(f: Forest, k: nat): Forest {
    match f
    case Nil => Nil
    case Cons(n, kids, rest) =>
      if k == 0 then Nil
      else Cons(n, Take(kids, k - 1), Take(rest, k - 1 - Min(k - 1, Size(kids))))
  }

  // ----- Pass three: name the survivors in postorder --------------------------------------

  datatype Naming = Naming(out: Named, next: nat, refs: RefTable)

  function Name(f: Forest, previous: map<int, string>, next: nat, refs: RefTable): Naming {
    match f
    case Nil => Naming(NoneLeft, next, refs)
    case Cons(n, kids, rest) =>
      var below := Name(kids, previous, next, refs);
      var nodeRef := RefFor(n, previous, below.next);
      var beside := Name(rest, previous, NextAfter(n, previous, below.next), Record(below.refs, nodeRef, n));
      Naming(Next(nodeRef, n, below.out, beside.out), beside.next, beside.refs)
  }

  lemma {:induction false} TakeZero(f: Forest)
    ensures Take(f, 0) == Nil
  {
    if f.Cons? { }
  }

  /** Names the forest `cut`, and leaves the counters as after `size` visible nodes. */
  function NameCut(cut: Forest, size: nat, previous: map<int, string>, st: WalkState): Walked
    requires st.count <= MAX_SNAPSHOT_NODES
  {
    var room := MAX_SNAPSHOT_NODES - st.count;
    var named := Name(cut, previous, st.nextRefId, st.refs);
    Walked(named.out,
           WalkState(named.refs, st.count + Min(room, size), st.truncated || size > room, named.next))
  }

  /** Passes two and three on the visible forest `v`, with the counters they leave. */
  function CutAndName(v: Forest, previous: map<int, string>, st: WalkState): Walked
    requires st.count <= MAX_SNAPSHOT_NODES
  {
    NameCut(Take(v, MAX_SNAPSHOT_NODES - st.count), Size(v), previous, st)
  }

  lemma NameCutCons(
    n: RawAxNode, f: Forest, g: Forest, sizeF: nat, sizeG: nat, previous: map<int, string>, st: WalkState)
    requires st.count < MAX_SNAPSHOT_NODES
    ensures var a := NameCut(f, sizeF, previous, st.(count := st.count + 1));
      var b := NameCut(g, sizeG, previous, AfterNaming(n, previous, a.st));
      && NameCut(Cons(n, f, g), 1 + sizeF + sizeG, previous, st)
         == Walked(Next(RefFor(n, previous, a.st.nextRefId), n, a.out, b.out), b.st)
      && a.st.count == st.count + 1 + Min(MAX_SNAPSHOT_NODES - st.count - 1, sizeF)
  {
  }

  lemma CutAndNameCons(n: RawAxNode, f: Forest, g: Forest, previous: map<int, string>, st: WalkState)
    requires st.count < MAX_SNAPSHOT_NODES
    ensures var a := CutAndName(f, previous, st.(count := st.count + 1));
      var b := CutAndName(g, previous, AfterNaming(n, previous, a.st));
      var nodeRef := RefFor(n, previous, a.st.nextRefId);
      CutAndName(Cons(n, f, g), previous, st) == Walked(Next(nodeRef, n, a.out, b.out), b.st)
  {
    var room := MAX_SNAPSHOT_NODES - st.count - 1;
    NameCutCons(n, Take(f, room), Take(g, room - Min(room, Size(f))), Size(f), Size(g), previous, st);
  }

  lemma {:induction false} JoinAssoc(a: Named, b: Named, c: Named)
    ensures Join(Join(a, b), c) == Join(a, Join(b, c))
  {
    if a.Next? { JoinAssoc(a.beside, b, c); }
  }

  lemma {:induction false} WalkAppend(f: Forest, g: Forest, previous: map<int, string>, st: WalkState)
    ensures var a := Walk(f, previous, st);
      var b := Walk(g, previous, a.st);
      Walk(Append(f, g), previous, st) == Walked(Join(a.out, b.out), b.st)
  {
    if f.Cons? {
      var first := Visit(f.node, f.kids, previous, st);
      WalkAppend(f.rest, g, previous, first.st);
      var rest := Walk(f.rest, previous, first.st);
      JoinAssoc(first.out, rest.out, Walk(g, previous, rest.st).out);
    }
  }

  predicate AllVisible(f: Forest) {
    f.Cons? ==> !f.node.ignored && AllVisible(f.kids) && AllVisible(f.rest)
  }

  lemma {:induction false} AppendVisible(f: Forest, g: Forest)
    requires AllVisible(f) && AllVisible(g)
    ensures AllVisible(Append(f, g))
  {
    if f.Cons? { AppendVisible(f.rest, g); }
  }

  lemma {:induction false} SpliceVisible(f: Forest)
    ensures AllVisible(Splice(f))
  {
    if f.Cons? {
      SpliceVisible(f.kids);
      SpliceVisible(f.rest);
      AppendVisible(Splice(f.kids), Splice(f.rest));
    }
  }

  /** Splicing beforehand changes nothing for the walk. */
  lemma {:induction false} WalkSpliced(f: Forest, previous: map<int, string>, st: WalkState)
    ensures Walk(Splice(f), previous, st) == Walk(f, previous, st)
  {
    if f.Cons? {
      var n := f.node;
      var first := Visit(n, f.kids, previous, st);
      WalkSpliced(f.rest, previous, first.st);
      if n.ignored {
        WalkSpliced(f.kids, previous, st);
        WalkAppend(Splice(f.kids), Splice(f.rest), previous, st);
      } else {
        WalkSpliced(f.kids, previous, st.(count := st.count + 1));
        assert Visit(n, Splice(f.kids), previous, st) == first;
      }
    }
  }

  /** Without ignored nodes, the walk cuts and names. */
  lemma {:induction false} WalkVisible(f: Forest, previous: map<int, string>, st: WalkState)
    requires st.count <= MAX_SNAPSHOT_NODES && AllVisible(f)
    ensures Walk(f, previous, st) == CutAndName(f, previous, st)
  {
    match f
    case Nil =>
    case Cons(n, kids, rest) =>
      if st.count == MAX_SNAPSHOT_NODES {
        assert Visit(n, kids, previous, st) == Walked(NoneLeft, st.(truncated := true));
        WalkVisible(rest, previous, st.(truncated := true));
        TakeZero(rest);
      } else {
        var inside := st.(count := st.count + 1);
        WalkVisible(kids, previous, inside);
        var below := Walk(kids, previous, inside);
        var first := Walked(Next(RefFor(n, previous, below.st.nextRefId), n, below.out, NoneLeft),
                            AfterNaming(n, previous, below.st));
        assert Visit(n, kids, previous, st) == first;
        assert Join(NoneLeft, Walk(rest, previous, first.st).out) == Walk(rest, previous, first.st).out;
        WalkVisible(rest, previous, first.st);
        CutAndNameCons(n, kids, rest, previous, st);
      }
  }

  /** The single pass with its running counters is the three simple passes in turn. */
  lemma WalkIsThreePasses(f: Forest, previous: map<int, string>, st: WalkState)
    requires st.count <= MAX_SNAPSHOT_NODES
    ensures Walk(f, previous, st) == CutAndName(Splice(f), previous, st)
  {
    SpliceVisible(f);
    WalkSpliced(f, previous, st);
    WalkVisible(Splice(f), previous, st);
  }
}
