/**
 * The ref strings of one capture. Along the postorder list of surviving nodes the walk
 * hands out refs one by one: a node whose backend id had a ref keeps it, any other node
 * takes the next number of the session's counter.
 */
module SnapshotRefs {
  import opened Options
  import opened Numerals
  import opened AxTree
  import opened AxTreeFacts
  import opened SnapshotShape

  datatype Entered = Entered(names: seq<string>, next: nat, refs: RefTable)

  /** Names a plain list of nodes, first to last. */
  function Enter(list: seq<RawAxNode>, previous: map<int, string>, next: nat, refs: RefTable): Entered {
    if list == [] then Entered([], next, refs) else
      var nodeRef := RefFor(list[0], previous, next);
      var e := Enter(list[1..], previous, NextAfter(list[0], previous, next), Record(refs, nodeRef, list[0]));
      e.(names := [nodeRef] + e.names)
  }

  lemma {:induction false} EnterAppend(
    a: seq<RawAxNode>, b: seq<RawAxNode>, previous: map<int, string>, next: nat, refs: RefTable)
    ensures var x := Enter(a, previous, next, refs);
      var y := Enter(b, previous, x.next, x.refs);
      Enter(a + b, previous, next, refs) == Entered(x.names + y.names, y.next, y.refs)
  {
    if a == [] {
      assert a + b == b;
    } else {
      assert (a + b)[1..] == a[1..] + b;
      EnterAppend(a[1..], b, previous, NextAfter(a[0], previous, next),
                  Record(refs, RefFor(a[0], previous, next), a[0]));
    }
  }

  /** The refs of a named forest, children before parents. */
  function Names(t: Named): seq<string> {
    match t
    case NoneLeft => []
    case Next(nodeRef, _, below, beside) => Names(below) + [nodeRef] + Names(beside)
  }

  function TreeRefs(nodes: seq<AxNode>): seq<string>
    decreases nodes
  {
    if nodes == [] then [] else TreeRefs(nodes[0].children) + [nodes[0].nodeRef] + TreeRefs(nodes[1..])
  }

  lemma {:induction false} NamesAreTreeRefs(t: Named)
    ensures TreeRefs(Tree(t)) == Names(t)
  {
    if t.Next? {
      NamesAreTreeRefs(t.below);
      NamesAreTreeRefs(t.beside);
      assert Tree(t)[1..] == Tree(t.beside);
    }
  }

  /** Naming a forest is naming its nodes in postorder. */
  lemma {:induction false} NameIsEnter(f: Forest, previous: map<int, string>, next: nat, refs: RefTable)
    ensures var named := Name(f, previous, next, refs);
      Enter(Postorder(f), previous, next, refs) == Entered(Names(named.out), named.next, named.refs)
  {
    if f.Cons? {
      var below := Name(f.kids, previous, next, refs);
      NameIsEnter(f.kids, previous, next, refs);
      EnterAppend(Postorder(f.kids), [f.node], previous, next, refs);
      var nodeRef := RefFor(f.node, previous, below.next);
      var n', r' := NextAfter(f.node, previous, below.next), Record(below.refs, nodeRef, f.node);
      assert Enter([], previous, n', r') == Entered([], n', r');
      assert Enter([f.node], previous, below.next, below.refs) == Entered([nodeRef], n', r');
      NameIsEnter(f.rest, previous, n', r');
      EnterAppend(Postorder(f.kids) + [f.node], Postorder(f.rest), previous, next, refs);
    }
  }

  lemma RefNameInjective(m: nat, n: nat)
    requires RefName(m) == RefName(n)
    ensures m == n
  {
    assert Numeral(m, Decimal) == RefName(m)[1..] && Numeral(n, Decimal) == RefName(n)[1..];
    NumeralInjective(m, n, Decimal);
  }

  /** `r` is a ref minted with a counter value in `[lo, hi)`. */
  ghost predicate MintedIn(r: string, lo: nat, hi: nat) {
    exists m: nat :: lo <= m < hi && r == RefName(m)
  }

  lemma MintedApart(r: string, lo: nat, mid: nat, mid': nat, hi: nat)
    requires MintedIn(r, lo, mid) && mid <= mid'
    ensures !MintedIn(r, mid', hi)
  {
    var m: nat :| lo <= m < mid && r == RefName(m);
    if MintedIn(r, mid', hi) {
      var n: nat :| mid' <= n < hi && r == RefName(n);
      RefNameInjective(m, n);
    }
  }

  lemma {:induction false} EnterNames(list: seq<RawAxNode>, previous: map<int, string>, next: nat, refs: RefTable)
    ensures var e := Enter(list, previous, next, refs);
      && |e.names| == |list| && e.next >= next
      && (forall k :: 0 <= k < |list| ==>
            if Reusable(list[k], previous) then e.names[k] == previous[list[k].backendNodeId.value]
            else MintedIn(e.names[k], next, e.next))
  {
    if list != [] {
      var next' := NextAfter(list[0], previous, next);
      EnterNames(list[1..], previous, next', Record(refs, RefFor(list[0], previous, next), list[0]));
      var e := Enter(list, previous, next, refs);
      forall k | 0 <= k < |list|
        ensures if Reusable(list[k], previous) then e.names[k] == previous[list[k].backendNodeId.value]
          else MintedIn(e.names[k], next, e.next)
      {
        if k > 0 {
          assert e.names[k] == e.names[1..][k - 1] && list[k] == list[1..][k - 1];
        }
      }
    }
  }

  lemma FirstMintedApart(list: seq<RawAxNode>, previous: map<int, string>, next: nat, refs: RefTable, k: nat)
    requires 0 < k < |list| && !Reusable(list[0], previous) && !Reusable(list[k], previous)
    ensures var names := Enter(list, previous, next, refs).names;
      |names| == |list| && names[0] != names[k]
  {
    var e := Enter(list[1..], previous, next + 1, Record(refs, RefName(next), list[0]));
    EnterNames(list[1..], previous, next + 1, Record(refs, RefName(next), list[0]));
    assert Enter(list, previous, next, refs).names == [RefName(next)] + e.names;
    assert list[k] == list[1..][k - 1];
    assert MintedIn(RefName(next), next, next + 1);
    MintedApart(RefName(next), next, next + 1, next + 1, e.next);
  }

  /** Two different nodes never share a freshly minted ref. */
  lemma {:induction false} MintedDistinct(
    list: seq<RawAxNode>, previous: map<int, string>, next: nat, refs: RefTable, j: nat, k: nat)
    requires j < k < |list| && !Reusable(list[j], previous) && !Reusable(list[k], previous)
    ensures var names := Enter(list, previous, next, refs).names;
      |names| == |list| && names[j] != names[k]
  {
    if j == 0 {
      FirstMintedApart(list, previous, next, refs, k);
    } else {
      var nodeRef := RefFor(list[0], previous, next);
      MintedDistinct(list[1..], previous, NextAfter(list[0], previous, next), Record(refs, nodeRef, list[0]),
                     j - 1, k - 1);
    }
  }

  /** Node `k` of the list was given the ref `r`, and the table says so. */
  ghost predicate NamedAt(list: seq<RawAxNode>, e: Entered, r: string, k: int) {
    && 0 <= k < |list| && k < |e.names| && e.names[k] == r && list[k].backendNodeId.Some?
    && r in e.refs && e.refs[r] == Resolved(list[k])
  }

  /** The table maps each named node's ref to a node of that name, and nothing else is new. */
  lemma {:induction false} EnterTable(list: seq<RawAxNode>, previous: map<int, string>, next: nat, refs: RefTable)
    ensures var e := Enter(list, previous, next, refs);
      && |e.names| == |list|
      && (forall k :: 0 <= k < |list| && list[k].backendNodeId.Some? ==> e.names[k] in e.refs)
      && (forall r :: r in refs ==> r in e.refs)
      && (forall r :: r in e.refs ==>
            || (r in refs && e.refs[r] == refs[r])
            || exists k :: NamedAt(list, e, r, k))
  {
    if list != [] {
      var nodeRef := RefFor(list[0], previous, next);
      var refs' := Record(refs, nodeRef, list[0]);
      EnterTable(list[1..], previous, NextAfter(list[0], previous, next), refs');
      var e := Enter(list, previous, next, refs);
      var e' := Enter(list[1..], previous, NextAfter(list[0], previous, next), refs');
      assert e.names[0] == nodeRef && e.names[1..] == e'.names;
      forall k | 0 <= k < |list| && list[k].backendNodeId.Some? ensures e.names[k] in e.refs {
        if k > 0 { assert list[1..][k - 1] == list[k]; }
      }
      forall r | r in e.refs && !(r in refs && e.refs[r] == refs[r])
        ensures exists k :: NamedAt(list, e, r, k)
      {
        if k' :| NamedAt(list[1..], e', r, k') {
          assert NamedAt(list, e, r, k' + 1);
        } else {
          assert NamedAt(list, e, r, 0);
        }
      }
    }
  }

  // ----- Whole captures ----------------------------------------------------------------

  /** The nodes a capture shows, in the order they are named. */
  function Survivors(f: Forest): seq<RawAxNode> {
    Postorder(Take(Splice(f), MAX_SNAPSHOT_NODES))
  }

  lemma CaptureIsEnter(nodes: seq<RawAxNode>, f: Forest, previous: map<int, string>, next: nat, url: string)
    requires BelowRoot(nodes, f)
    ensures var (capture, next') := Capture(nodes, f, previous, next, url);
      Enter(Survivors(f), previous, next, map[])
        == Entered(TreeRefs(capture.snapshot.root.children), next', capture.refs)
  {
    WalkIsThreePasses(f, previous, WalkState(map[], 0, false, next));
    var v := Take(Splice(f), MAX_SNAPSHOT_NODES);
    NameIsEnter(v, previous, next, map[]);
    NamesAreTreeRefs(Name(v, previous, next, map[]).out);
  }

  /** All refs of an earlier table were minted before the counter stood at `next`. */
  ghost predicate TableBelow(refs: RefTable, next: nat) {
    forall r :: r in refs ==> MintedIn(r, 0, next)
  }

  /**
   * Every ref a capture records either was minted by it, or belonged to the same
   * main-process backend id before.
   */
  lemma CaptureRefs(
    nodes: seq<RawAxNode>, f: Forest, earlier: RefTable, previous: map<int, string>, next: nat, url: string)
    requires BelowRoot(nodes, f) && IsReverseIndex(earlier, previous)
    ensures var (capture, next') := Capture(nodes, f, previous, next, url);
      && next' >= next
      && (forall r :: r in capture.refs ==>
            || MintedIn(r, next, next')
            || (r in earlier && capture.refs[r].backendNodeId == earlier[r].backendNodeId
                && !capture.refs[r].isOopif && !earlier[r].isOopif))
  {
    CaptureIsEnter(nodes, f, previous, next, url);
    EnterNames(Survivors(f), previous, next, map[]);
    EnterTable(Survivors(f), previous, next, map[]);
  }

  /** No two survivors could reuse a ref through one and the same backend id. */
  ghost predicate NoSharedReuse(list: seq<RawAxNode>, previous: map<int, string>) {
    forall j, k :: 0 <= j < k < |list| && Reusable(list[j], previous) && Reusable(list[k], previous) ==>
      list[j].backendNodeId != list[k].backendNodeId
  }

  /**
   * The refs of one snapshot are pairwise distinct exactly when no two of its nodes
   * have the same reusable backend id.
   */
  lemma RefsDistinctIff(
    nodes: seq<RawAxNode>, f: Forest, earlier: RefTable, previous: map<int, string>, next: nat, url: string)
    requires BelowRoot(nodes, f) && IsReverseIndex(earlier, previous) && TableBelow(earlier, next)
    ensures var capture := Capture(nodes, f, previous, next, url).0;
      NoRepeat(TreeRefs(capture.snapshot.root.children)) <==> NoSharedReuse(Survivors(f), previous)
  {
    var list := Survivors(f);
    var names := Enter(list, previous, next, map[]).names;
    CaptureIsEnter(nodes, f, previous, next, url);
    EnterNames(list, previous, next, map[]);
    forall j, k | 0 <= j < k < |list|
      ensures names[j] == names[k] <==>
        Reusable(list[j], previous) && Reusable(list[k], previous) && list[j].backendNodeId == list[k].backendNodeId
    {
      SameRefIff(list, earlier, previous, next, j, k);
    }
  }

  lemma SameRefIff(list: seq<RawAxNode>, earlier: RefTable, previous: map<int, string>, next: nat, j: nat, k: nat)
    requires IsReverseIndex(earlier, previous) && TableBelow(earlier, next) && j < k < |list|
    ensures var names := Enter(list, previous, next, map[]).names;
      |names| == |list| && (names[j] == names[k] <==>
        Reusable(list[j], previous) && Reusable(list[k], previous) && list[j].backendNodeId == list[k].backendNodeId)
  {
    var e := Enter(list, previous, next, map[]);
    EnterNames(list, previous, next, map[]);
    var reuseJ, reuseK := Reusable(list[j], previous), Reusable(list[k], previous);
    if !reuseJ && !reuseK {
      MintedDistinct(list, previous, next, map[], j, k);
    } else if reuseJ != reuseK {
      var b := list[if reuseJ then j else k].backendNodeId.value;
      var reused := previous[b];
      assert b in previous && reused in earlier && MintedIn(reused, 0, next);
      MintedApart(reused, 0, next, next, e.next);
      assert e.names[if reuseJ then j else k] == reused && MintedIn(e.names[if reuseJ then k else j], next, e.next);
    } else {
      var b, c := list[j].backendNodeId.value, list[k].backendNodeId.value;
      assert earlier[previous[b]].backendNodeId == b && earlier[previous[c]].backendNodeId == c;
    }
  }

  /** No two main-process nodes of the list have the same backend id. */
  ghost predicate DistinctBackends(list: seq<RawAxNode>) {
    forall j, k :: 0 <= j < k < |list| && !list[j].oopif && !list[k].oopif && list[j].backendNodeId.Some? ==>
      list[j].backendNodeId != list[k].backendNodeId
  }

  /**
   * A node shown by two consecutive captures keeps its ref: the second capture starts
   * from the table of the first, and neither repeats a main-process backend id.
   */
  lemma SurvivorKeepsRef(
    nodes: seq<RawAxNode>, f: Forest, earlier: RefTable, previous: map<int, string>, next: nat, url: string,
    nodes': seq<RawAxNode>, f': Forest, previous': map<int, string>, url': string, j: nat, k: nat)
    requires BelowRoot(nodes, f) && IsReverseIndex(earlier, previous) && TableBelow(earlier, next)
    requires DistinctBackends(Survivors(f)) && BelowRoot(nodes', f')
    requires IsReverseIndex(Capture(nodes, f, previous, next, url).0.refs, previous')
    requires j < |Survivors(f)| && k < |Survivors(f')|
    requires !Survivors(f)[j].oopif && !Survivors(f')[k].oopif && Survivors(f)[j].backendNodeId.Some?
    requires Survivors(f)[j].backendNodeId == Survivors(f')[k].backendNodeId
    ensures var (first, next') := Capture(nodes, f, previous, next, url);
      var second := Capture(nodes', f', previous', next', url').0;
      var refs, refs' := TreeRefs(first.snapshot.root.children), TreeRefs(second.snapshot.root.children);
      |refs| == |Survivors(f)| && |refs'| == |Survivors(f')| && refs[j] == refs'[k]
  {
    var list := Survivors(f);
    var (first, next') := Capture(nodes, f, previous, next, url);
    CaptureIsEnter(nodes, f, previous, next, url);
    CaptureIsEnter(nodes', f', previous', next', url');
    EnterNames(list, previous, next, map[]);
    EnterNames(Survivors(f'), previous', next', map[]);
    EnterTable(list, previous, next, map[]);
    var e := Enter(list, previous, next, map[]);
    var b := list[j].backendNodeId.value;
    // the only way the table can answer b is through node j itself
    if !first.refs[e.names[j]].isOopif {
      assert b in previous' by { ReusedBackend(list, earlier, previous, next, j); }
      assert first.refs == e.refs && previous'[b] in e.refs;
      var i :| NamedAt(list, e, previous'[b], i);
      assert list[i].backendNodeId == Some(b) && !list[i].oopif;
      assert i == j;
    } else {
      ReusedBackend(list, earlier, previous, next, j);
    }
  }

  /** The table's entry for a node's ref has that node's own backend id and origin. */
  lemma ReusedBackend(list: seq<RawAxNode>, earlier: RefTable, previous: map<int, string>, next: nat, j: nat)
    requires IsReverseIndex(earlier, previous) && TableBelow(earlier, next)
    requires j < |list| && list[j].backendNodeId.Some?
    ensures var e := Enter(list, previous, next, map[]);
      && |e.names| == |list| && e.names[j] in e.refs
      && e.refs[e.names[j]].backendNodeId == list[j].backendNodeId.value
      && e.refs[e.names[j]].isOopif == list[j].oopif
  {
    var e := Enter(list, previous, next, map[]);
    EnterTable(list, previous, next, map[]);
    var r := e.names[j];
    assert r in e.refs;
    var k :| NamedAt(list, e, r, k);
    if j < k {
      SameRefIff(list, earlier, previous, next, j, k);
    } else if k < j {
      SameRefIff(list, earlier, previous, next, k, j);
    }
  }

  // ----- Distinct input nodes make distinct survivors -----------------------------------

  lemma {:induction false} PostorderSame(f: Forest)
    ensures multiset(Postorder(f)) == multiset(Preorder(f))
  {
    if f.Cons? {
      PostorderSame(f.kids);
      PostorderSame(f.rest);
    }
  }

  lemma {:induction false} TakeFewer(f: Forest, k: nat)
    ensures multiset(Preorder(Take(f, k))) <= multiset(Preorder(f))
  {
    if f.Cons? && k > 0 {
      var k' := k - 1 - Min(k - 1, Size(f.kids));
      TakeFewer(f.kids, k - 1);
      TakeFewer(f.rest, k');
      var a, b := Preorder(Take(f.kids, k - 1)), Preorder(Take(f.rest, k'));
      assert Preorder(Take(f, k)) == [f.node] + a + b;
      assert multiset([f.node] + a + b) == multiset{f.node} + multiset(a) + multiset(b);
    }
  }

  lemma {:induction false} PruneFewer(f: Forest, count: nat)
    ensures multiset(Preorder(Prune(f, count))) <= multiset(Preorder(f))
  {
    if f.Cons? {
      var n, below := f.node, PruneBelow(f.node, f.kids, count);
      PruneFewer(f.kids, if n.ignored then count else count + 1);
      PruneFewer(f.rest, CountIn(n, f.kids, count));
      var a, b := Preorder(below), Preorder(Prune(f.rest, CountIn(n, f.kids, count)));
      assert multiset([n] + a + b) == multiset{n} + multiset(a) + multiset(b);
    }
  }

  lemma {:induction false} PreorderAppend(f: Forest, g: Forest)
    ensures Preorder(Append(f, g)) == Preorder(f) + Preorder(g)
  {
    if f.Cons? { PreorderAppend(f.rest, g); }
  }

  lemma {:induction false} SpliceFewer(f: Forest)
    ensures multiset(Preorder(Splice(f))) <= multiset(Preorder(f))
  {
    if f.Cons? {
      SpliceFewer(f.kids);
      SpliceFewer(f.rest);
      PreorderAppend(Splice(f.kids), Splice(f.rest));
    }
  }

  lemma {:induction false} OccursOnce(list: seq<RawAxNode>, n: RawAxNode)
    requires UniqueIds(list)
    ensures multiset(list)[n] <= 1
  {
    if list != [] {
      OccursOnce(list[1..], n);
      assert list == [list[0]] + list[1..];
      if n in list[1..] { assert n in multiset(list[1..]); }
    }
  }

  lemma OccursTwice(list: seq<RawAxNode>, i: nat, j: nat)
    requires i < j < |list| && list[i] == list[j]
    ensures multiset(list)[list[i]] >= 2
  {
    assert list == list[..j] + [list[j]] + list[j + 1..];
    assert list[i] == list[..j][i] && list[i] in multiset(list[..j]);
  }

  lemma SurvivorsWithin(f: Forest)
    ensures multiset(Survivors(f)) <= multiset(Preorder(f))
    ensures forall k :: 0 <= k < |Survivors(f)| ==> Survivors(f)[k] in Preorder(f)
  {
    var list := Survivors(f);
    PostorderSame(Take(Splice(f), MAX_SNAPSHOT_NODES));
    TakeFewer(Splice(f), MAX_SNAPSHOT_NODES);
    SpliceFewer(f);
    forall k | 0 <= k < |list| ensures list[k] in Preorder(f) {
      assert list[k] in multiset(list) && list[k] in multiset(Preorder(f));
    }
  }

  /** Every survivor is an input node, and none is shown twice. */
  lemma SurvivorsDistinct(nodes: seq<RawAxNode>, f: Forest)
    requires BelowRoot(nodes, f) && UniqueIds(nodes)
    ensures forall k :: 0 <= k < |Survivors(f)| ==> Survivors(f)[k] in nodes
    ensures forall j, k :: 0 <= j < k < |Survivors(f)| ==> Survivors(f)[j] != Survivors(f)[k]
  {
    var list := Survivors(f);
    SurvivorsWithin(f);
    if FirstRoot(nodes).Some? {
      var root := FirstRoot(nodes).value;
      var g := WholeBelow(nodes, root, f);
      forall k | 0 <= k < |list| ensures list[k] in nodes {
        assert list[k] in multiset(Preorder(f)) && list[k] in multiset(Preorder(g));
        UnfoldedIffReachable(nodes, root.nodeId, g, list[k]);
      }
      forall j, k | 0 <= j < k < |list| ensures list[j] != list[k] {
        OccursOnce(Preorder(g), list[j]);
        if list[j] == list[k] { OccursTwice(list, j, k); }
      }
    }
  }

  /** The whole unfolding, of which the walk looked at a part. */
  lemma WholeBelow(nodes: seq<RawAxNode>, root: RawAxNode, f: Forest) returns (g: Forest)
    requires BelowRoot(nodes, f) && UniqueIds(nodes) && FirstRoot(nodes) == Some(root)
    ensures Unfolds(nodes, ChildrenOf(nodes, root.nodeId), g) && UniqueIds(Preorder(g))
    ensures multiset(Preorder(f)) <= multiset(Preorder(g))
  {
    var list := ChildrenOf(nodes, root.nodeId);
    UniqueIdsUnfold(nodes, root);
    g :| Unfolds(nodes, list, g);
    PruneExplores(nodes, list, 0, g);
    ExploringUnique(nodes, list, 0, f, Prune(g, 0));
    PruneFewer(g, 0);
    WholeOnce(nodes, root, g);
  }

  /** Unique node ids and distinct backend ids make the refs of a snapshot distinct. */
  lemma DistinctNodesDistinctRefs(
    nodes: seq<RawAxNode>, f: Forest, earlier: RefTable, previous: map<int, string>, next: nat, url: string)
    requires BelowRoot(nodes, f) && IsReverseIndex(earlier, previous) && TableBelow(earlier, next)
    requires UniqueIds(nodes) && DistinctBackends(nodes)
    ensures DistinctBackends(Survivors(f))
    ensures NoRepeat(TreeRefs(Capture(nodes, f, previous, next, url).0.snapshot.root.children))
  {
    var list := Survivors(f);
    SurvivorsDistinct(nodes, f);
    forall j, k | 0 <= j < k < |list| && !list[j].oopif && !list[k].oopif && list[j].backendNodeId.Some?
      ensures list[j].backendNodeId != list[k].backendNodeId
    {
      var a :| 0 <= a < |nodes| && nodes[a] == list[j];
      var b :| 0 <= b < |nodes| && nodes[b] == list[k];
      assert a < b || b < a;
    }
    RefsDistinctIff(nodes, f, earlier, previous, next, url);
  }

  // ----- A snapshot in which a ref repeats --------------------------------------------------

  /** A main-process node below the root `r`, with the backend id 7. */
  function TwinNode(id: string): RawAxNode {
    RawAxNode(id, Some("r"), false, Some("textbox"), None, Some("typed"), Some(7), false)
  }

  function TwinNodes(): seq<RawAxNode> {
    [TwinNode("r").(parentId := None, backendNodeId := None), TwinNode("a"), TwinNode("b")]
  }

  function TwinForest(): Forest {
    Cons(TwinNode("a"), Nil, Cons(TwinNode("b"), Nil, Nil))
  }

  function Twins(): seq<AxNode> {
    [Shown(TwinNode("a"), RefName(0), []), Shown(TwinNode("b"), RefName(0), [])]
  }

  /**
   * Two nodes with one backend id, which has a ref from the capture before: both are given
   * that ref, although their node ids are unique.
   */
  lemma RefsCanRepeat(url: string)
    ensures var previous, earlier := map[7 := RefName(0)], map[RefName(0) := ResolvedRef(7, "textbox", false)];
      && BelowRoot(TwinNodes(), TwinForest()) && UniqueIds(TwinNodes())
      && IsReverseIndex(earlier, previous) && TableBelow(earlier, 1)
      && Capture(TwinNodes(), TwinForest(), previous, 1, url).0.snapshot.root.children == Twins()
      && !NoRepeat(TreeRefs(Twins()))
  {
    TwinsExplored();
    TwinsWalked();
    TwinsRepeat();
    assert MintedIn(RefName(0), 0, 1);
  }

  lemma TwinsExplored()
    ensures BelowRoot(TwinNodes(), TwinForest()) && FirstRoot(TwinNodes()) == Some(TwinNodes()[0])
  {
    var nodes, a, b := TwinNodes(), TwinNode("a"), TwinNode("b");
    TwinChildren();
    assert [a, b][1..] == [b] && [b][1..] == [];
    assert Explores(nodes, [b], 1, Cons(b, Nil, Nil));
    assert Explores(nodes, [a, b], 0, TwinForest());
  }

  lemma TwinsWalked()
    ensures Tree(Walk(TwinForest(), map[7 := RefName(0)], WalkState(map[], 0, false, 1)).out) == Twins()
  {
    var a, b, previous, st := TwinNode("a"), TwinNode("b"), map[7 := RefName(0)], WalkState(map[], 0, false, 1);
    var first := Visit(a, Nil, previous, st);
    assert first.out == Next(RefName(0), a, NoneLeft, NoneLeft);
    assert Walk(Cons(b, Nil, Nil), previous, first.st).out == Next(RefName(0), b, NoneLeft, NoneLeft);
    assert Walk(TwinForest(), previous, st).out
      == Next(RefName(0), a, NoneLeft, Next(RefName(0), b, NoneLeft, NoneLeft));
  }

  lemma TwinsRepeat()
    ensures TreeRefs(Twins()) == [RefName(0), RefName(0)] && !NoRepeat(TreeRefs(Twins()))
  {
    assert Twins()[1..] == [Twins()[1]] && [Twins()[1]][1..] == [];
    var refs := TreeRefs(Twins());
    assert refs == [RefName(0), RefName(0)] && refs[0] == refs[1];
  }

  lemma TwinChildren()
    ensures var nodes, a, b := TwinNodes(), TwinNode("a"), TwinNode("b");
      ChildrenOf(nodes, "r") == [a, b] && ChildrenOf(nodes, "a") == [] && ChildrenOf(nodes, "b") == []
  {
    var nodes := TwinNodes();
    assert nodes[..2] == [nodes[0], nodes[1]] && nodes[..2][..1] == [nodes[0]] && nodes[..1][..0] == [];
    assert nodes[..3] == nodes;
    WithParentStep(nodes, 0, Some("r"));
    WithParentStep(nodes, 1, Some("r"));
    WithParentStep(nodes, 2, Some("r"));
    WithParentStep(nodes, 0, Some("a"));
    WithParentStep(nodes, 1, Some("a"));
    WithParentStep(nodes, 2, Some("a"));
    WithParentStep(nodes, 0, Some("b"));
    WithParentStep(nodes, 1, Some("b"));
    WithParentStep(nodes, 2, Some("b"));
  }
}
