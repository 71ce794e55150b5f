/**
 * A capture, field by field: what each node of the snapshot shows, and what the ref table says
 * of it, in terms of the browser's own nodes.
 */
module CaptureFacts {
  import opened Options
  import opened Numerals
  import opened AxTree
  import opened AxTreeFacts
  import opened SnapshotRefs

  /** The nodes of a tree, children before parents: the order in which they are named. */
  function PostNodes(nodes: seq<AxNode>): seq<AxNode>
    decreases nodes
  {
    if nodes == [] then [] else PostNodes(nodes[0].children) + [nodes[0]] + PostNodes(nodes[1..])
  }

  lemma {:induction false} PostNodesRefs(nodes: seq<AxNode>)
    ensures |TreeRefs(nodes)| == |PostNodes(nodes)|
    ensures forall k :: 0 <= k < |PostNodes(nodes)| ==> TreeRefs(nodes)[k] == PostNodes(nodes)[k].nodeRef
    decreases nodes
  {
    if nodes != [] {
      PostNodesRefs(nodes[0].children);
      PostNodesRefs(nodes[1..]);
    }
  }

  /** `x` has the role, the name and the value of `n`, empty where they are missing. */
  predicate ShowsNode(x: AxNode, n: RawAxNode) {
    && x.role == (match n.role case Some(role) => role case None => "")
    && x.name == (match n.name case Some(name) => name case None => "")
    && x.value == n.value
  }

  lemma {:induction false} NameShows(f: Forest, previous: map<int, string>, next: nat, refs: RefTable)
    ensures var shown := PostNodes(Tree(Name(f, previous, next, refs).out));
      |shown| == |Postorder(f)| && forall k :: 0 <= k < |shown| ==> ShowsNode(shown[k], Postorder(f)[k])
  {
    if f.Cons? {
      var below := Name(f.kids, previous, next, refs);
      var nodeRef := RefFor(f.node, previous, below.next);
      var n', r' := NextAfter(f.node, previous, below.next), Record(below.refs, nodeRef, f.node);
      NameShows(f.kids, previous, next, refs);
      NameShows(f.rest, previous, n', r');
      var out := Tree(Name(f, previous, next, refs).out);
      assert out[1..] == Tree(Name(f.rest, previous, n', r').out) && out[0].children == Tree(below.out);
    }
  }

  /** The snapshot shows the survivors, in order, with the refs they were given. */
  lemma CaptureShows(nodes: seq<RawAxNode>, f: Forest, previous: map<int, string>, next: nat, url: string)
    requires BelowRoot(nodes, f)
    ensures var snapshot := Capture(nodes, f, previous, next, url).0.snapshot;
      var shown := PostNodes(snapshot.root.children);
      && |shown| == |Survivors(f)| == |TreeRefs(snapshot.root.children)|
      && forall k :: 0 <= k < |shown| ==>
           ShowsNode(shown[k], Survivors(f)[k]) && shown[k].nodeRef == TreeRefs(snapshot.root.children)[k]
  {
    WalkIsThreePasses(f, previous, WalkState(map[], 0, false, next));
    NameShows(Take(Splice(f), MAX_SNAPSHOT_NODES), previous, next, map[]);
    PostNodesRefs(Capture(nodes, f, previous, next, url).0.snapshot.root.children);
  }

  ghost predicate FirstParentless(nodes: seq<RawAxNode>, k: int) {
    0 <= k < |nodes| && nodes[k].parentId == None && forall j :: 0 <= j < k ==> nodes[j].parentId != None
  }

  /** The root of a snapshot is the first parentless node of the list, and has a ref of its own. */
  lemma CaptureRoot(nodes: seq<RawAxNode>, f: Forest, previous: map<int, string>, next: nat, url: string)
    ensures var snapshot := Capture(nodes, f, previous, next, url).0.snapshot;
      && snapshot.root.nodeRef == "root" && snapshot.url == url && snapshot.navigatedFrom == None
      && (forall k :: FirstParentless(nodes, k) ==> ShowsNode(snapshot.root, nodes[k]))
      && ((forall k :: 0 <= k < |nodes| ==> nodes[k].parentId != None) ==>
            snapshot.root == AxNode("root", "", "", None, []))
  {
    forall k | FirstParentless(nodes, k) ensures FirstRoot(nodes) == Some(nodes[k]) { FirstRootAt(nodes, k); }
    FirstRootIsRoot(nodes);
  }

  lemma {:induction false} FirstRootAt(nodes: seq<RawAxNode>, k: nat)
    requires FirstParentless(nodes, k)
    ensures FirstRoot(nodes) == Some(nodes[k])
  {
    if k > 0 { FirstRootAt(nodes[1..], k - 1); }
  }

  /** The children of an id are the nodes that name it as their parent, each once, in the order of the list. */
  lemma {:induction false} ChildrenInOrder(nodes: seq<RawAxNode>, p: Option<string>) returns (at: seq<nat>)
    ensures |at| == |WithParent(nodes, p)| && forall j, k :: 0 <= j < k < |at| ==> at[j] < at[k]
    ensures forall k :: 0 <= k < |at| ==> at[k] < |nodes| && WithParent(nodes, p)[k] == nodes[at[k]]
    ensures forall i: nat :: i < |nodes| ==> (i in at <==> nodes[i].parentId == p)
  {
    if nodes == [] {
      return [];
    }
    var n := |nodes| - 1;
    var front := nodes[..n];
    at := ChildrenInOrder(front, p);
    assert forall i :: 0 <= i < n ==> front[i] == nodes[i];
    if nodes[n].parentId == p {
      var at' := at + [n];
      assert forall i :: i in at' <==> i in at || i == n;
      at := at';
    }
  }

  /** What a minted ref looks like. */
  lemma RefText()
    ensures RefName(0) == "e0" && RefName(217) == "e217"
  {
    assert Numeral(21, Decimal) == "21";
  }

  // ----- The ref table ------------------------------------------------------------------------

  /** Node `k` is the last of the list that was given the ref `r` and has a backend id. */
  ghost predicate LastNamed(list: seq<RawAxNode>, names: seq<string>, r: string, k: int) {
    && |names| == |list| && 0 <= k < |list| && names[k] == r && list[k].backendNodeId.Some?
    && forall l :: k < l < |list| && names[l] == r ==> list[l].backendNodeId == None
  }

  /** The entry has that node's backend id, its role, empty if it has none, and its origin. */
  predicate EntryOf(entry: ResolvedRef, n: RawAxNode) {
    && n.backendNodeId == Some(entry.backendNodeId)
    && entry.role == (match n.role case Some(role) => role case None => "")
    && entry.isOopif == n.oopif
  }

  lemma {:induction false} EnterLast(
    list: seq<RawAxNode>, previous: map<int, string>, next: nat, refs: RefTable, r: string)
    ensures var e := Enter(list, previous, next, refs);
      && |e.names| == |list|
      && (r in e.refs <==> r in refs || exists k :: LastNamed(list, e.names, r, k))
      && (forall k :: LastNamed(list, e.names, r, k) ==> r in e.refs && EntryOf(e.refs[r], list[k]))
      && (r in refs && (forall k :: !LastNamed(list, e.names, r, k)) ==> e.refs[r] == refs[r])
  {
    if list != [] {
      var nodeRef := RefFor(list[0], previous, next);
      var refs' := Record(refs, nodeRef, list[0]);
      var e, e' := Enter(list, previous, next, refs),
                   Enter(list[1..], previous, NextAfter(list[0], previous, next), refs');
      EnterLast(list[1..], previous, NextAfter(list[0], previous, next), refs', r);
      assert e.refs == e'.refs && e.names[0] == nodeRef && e.names[1..] == e'.names;
      LastOfRest(list, e.names, r);
    }
  }

  /** The last one of the list is the last one of the rest, or the first if the rest has none. */
  lemma LastOfRest(list: seq<RawAxNode>, names: seq<string>, r: string)
    requires list != [] && |names| == |list|
    ensures forall k :: k > 0 ==> (LastNamed(list, names, r, k) <==> LastNamed(list[1..], names[1..], r, k - 1))
    ensures LastNamed(list, names, r, 0) <==>
      names[0] == r && list[0].backendNodeId.Some? && forall k :: !LastNamed(list[1..], names[1..], r, k)
    ensures (forall k :: !LastNamed(list, names, r, k)) <==>
      !LastNamed(list, names, r, 0) && forall k :: !LastNamed(list[1..], names[1..], r, k)
  {
    var rest, tail := list[1..], names[1..];
    forall k | k > 0 ensures LastNamed(list, names, r, k) <==> LastNamed(rest, tail, r, k - 1) {
      if LastNamed(rest, tail, r, k - 1) {
        forall l | k < l < |list| && names[l] == r ensures list[l].backendNodeId == None {
          assert tail[l - 1] == r && rest[l - 1] == list[l];
        }
      }
      if LastNamed(list, names, r, k) {
        forall l | k - 1 < l < |rest| && tail[l] == r ensures rest[l].backendNodeId == None {
          assert names[l + 1] == r && rest[l] == list[l + 1];
        }
      }
    }
    if forall k :: !LastNamed(rest, tail, r, k) {
      NoneNamed(rest, tail, r);
      assert forall l :: 0 < l < |list| && names[l] == r ==> tail[l - 1] == r && rest[l - 1] == list[l];
    }
    if LastNamed(list, names, r, 0) {
      forall k | 0 <= k < |rest| ensures !LastNamed(rest, tail, r, k) {
        assert names[k + 1] == tail[k] && list[k + 1] == rest[k];
      }
    }
    forall k | LastNamed(rest, tail, r, k) ensures LastNamed(list, names, r, k + 1) {
      assert LastNamed(rest, tail, r, (k + 1) - 1);
    }
  }

  lemma {:induction false} NoneNamed(list: seq<RawAxNode>, names: seq<string>, r: string)
    requires |names| == |list| && forall k :: !LastNamed(list, names, r, k)
    ensures forall l :: 0 <= l < |list| && names[l] == r ==> list[l].backendNodeId == None
  {
    if l :| 0 <= l < |list| && names[l] == r && list[l].backendNodeId.Some? {
      var k := LastFrom(list, names, r, l);
    }
  }

  lemma {:induction false} LastFrom(list: seq<RawAxNode>, names: seq<string>, r: string, l: nat) returns (k: nat)
    requires |names| == |list| && l < |list| && names[l] == r && list[l].backendNodeId.Some?
    ensures LastNamed(list, names, r, k)
    decreases |list| - l
  {
    if m :| l < m < |list| && names[m] == r && list[m].backendNodeId.Some? {
      k := LastFrom(list, names, r, m);
    } else {
      k := l;
    }
  }

  /**
   * A capture records exactly the refs of the shown nodes that have a backend id, each with the
   * backend id, role and origin of the last of them that it was given to.
   */
  lemma CaptureTable(nodes: seq<RawAxNode>, f: Forest, previous: map<int, string>, next: nat, url: string, r: string)
    requires BelowRoot(nodes, f)
    ensures var capture := Capture(nodes, f, previous, next, url).0;
      var names, list := TreeRefs(capture.snapshot.root.children), Survivors(f);
      && (r in capture.refs <==> exists k :: LastNamed(list, names, r, k))
      && (forall k :: LastNamed(list, names, r, k) ==> r in capture.refs && EntryOf(capture.refs[r], list[k]))
  {
    CaptureIsEnter(nodes, f, previous, next, url);
    EnterLast(Survivors(f), previous, next, map[], r);
  }

  /** Where no other node has its ref, the entry is a node's own, and its role is the one shown. */
  lemma ShownNodeIsRecorded(
    nodes: seq<RawAxNode>, f: Forest, previous: map<int, string>, next: nat, url: string, k: nat)
    requires BelowRoot(nodes, f) && k < |Survivors(f)| && Survivors(f)[k].backendNodeId.Some?
    requires NoRepeat(TreeRefs(Capture(nodes, f, previous, next, url).0.snapshot.root.children))
    ensures var capture := Capture(nodes, f, previous, next, url).0;
      var shown := PostNodes(capture.snapshot.root.children);
      && k < |shown| && shown[k].nodeRef in capture.refs
      && capture.refs[shown[k].nodeRef]
           == ResolvedRef(Survivors(f)[k].backendNodeId.value, shown[k].role, Survivors(f)[k].oopif)
  {
    var capture := Capture(nodes, f, previous, next, url).0;
    var names := TreeRefs(capture.snapshot.root.children);
    CaptureShows(nodes, f, previous, next, url);
    CaptureTable(nodes, f, previous, next, url, names[k]);
    assert LastNamed(Survivors(f), names, names[k], k);
  }
}
