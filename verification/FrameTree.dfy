/**
 * One capture's nodes: the tree of the page's own frame, with the tree of every child
 * frame hung below the iframe node that shows it. The answers of the browser are an
 * oracle that may change from call to call.
 */
module FrameTree {
  import opened Options
  import opened AxTree
  import opened AxTreeFacts
  import WalkEnding

  const MAX_FRAME_DEPTH: nat := 5

  datatype CdpNode = CdpNode(
    nodeId: string, parentId: Option<string>, ignored: bool, role: Option<string>, name: Option<string>,
    value: Option<string>, backendNodeId: Option<int>)

  /** What the browser answers to the `k`-th request; `None` is an error. */
  datatype Cdp = Cdp(
    axTree: (nat, Option<string>, Option<string>) -> Option<seq<CdpNode>>,
    contentFrame: (nat, Option<string>, int) -> Option<Option<string>>,
    attach: (nat, string) -> Option<string>)

  datatype Frame = Frame(session: Option<string>, frame: Option<string>, nodes: seq<CdpNode>, subs: Subs)
  datatype Subs = NoSubs | Sub(iframeId: string, child: Frame, rest: Subs)

  function Prefixed(session: string, frame: string, id: string): string {
    session + ['/'] + frame + [':'] + id
  }

  function Key(session: Option<string>, frame: Option<string>): (string, string) {
    (UnwrapOr(session, ""), UnwrapOr(frame, ""))
  }

  function Import(session: Option<string>, frame: Option<string>, n: CdpNode): RawAxNode {
    var (s, f) := Key(session, frame);
    RawAxNode(
      Prefixed(s, f, n.nodeId),
      match n.parentId { case Some(p) => Some(Prefixed(s, f, p)) case None => None },
      n.ignored, n.role, n.name, n.value, n.backendNodeId, session.Some?)
  }

  function ImportAll(session: Option<string>, frame: Option<string>, nodes: seq<CdpNode>): seq<RawAxNode> {
    if nodes == [] then [] else [Import(session, frame, nodes[0])] + ImportAll(session, frame, nodes[1..])
  }

  /** The nodes that may show another document, with the id to ask about it. */
  function Iframes(raw: seq<RawAxNode>): seq<(string, int)> {
    if raw == [] then [] else
      (if raw[0].role == Some("Iframe") && raw[0].backendNodeId.Some?
       then [(raw[0].nodeId, raw[0].backendNodeId.value)] else [])
      + Iframes(raw[1..])
  }

  /** Hangs the first parentless node below `parent`. */
  function Adopt(raw: seq<RawAxNode>, parent: string): seq<RawAxNode> {
    if raw == [] then []
    else if raw[0].parentId == None then [raw[0].(parentId := Some(parent))] + raw[1..]
    else [raw[0]] + Adopt(raw[1..], parent)
  }

  function Flatten(t: Frame): seq<RawAxNode> {
    ImportAll(t.session, t.frame, t.nodes) + FlattenSubs(t.subs)
  }

  function FlattenSubs(subs: Subs): seq<RawAxNode> {
    match subs
    case NoSubs => []
    case Sub(id, child, rest) => Adopt(Flatten(child), id) + FlattenSubs(rest)
  }

  predicate MayDescend(depth: nat) {
    depth < MAX_FRAME_DEPTH
  }

  datatype Fetched<T> = Fetched(got: T, tick: nat)

  /** The frames one fetch collects, and the number of requests made so far. */
  function Fetch(cdp: Cdp, tick: nat, session: Option<string>, frame: Option<string>, depth: nat)
    : Fetched<Option<Frame>>
    requires depth <= MAX_FRAME_DEPTH
    decreases MAX_FRAME_DEPTH - depth, 1, 0
  {
    match cdp.axTree(tick, session, frame)
    case None => Fetched(None, tick + 1)
    case Some(nodes) =>
      if !MayDescend(depth) then Fetched(Some(Frame(session, frame, nodes, NoSubs)), tick + 1) else
        var subs := FetchSubs(cdp, tick + 1, session, depth, Iframes(ImportAll(session, frame, nodes)));
        Fetched(Some(Frame(session, frame, nodes, subs.got)), subs.tick)
  }

  function FetchSubs(cdp: Cdp, tick: nat, session: Option<string>, depth: nat, iframes: seq<(string, int)>)
    : Fetched<Subs>
    requires MayDescend(depth)
    decreases MAX_FRAME_DEPTH - depth, 0, |iframes|
  {
    if iframes == [] then Fetched(NoSubs, tick) else
      var child := FetchChild(cdp, tick, session, depth, iframes[0].1);
      var others := FetchSubs(cdp, child.tick, session, depth, iframes[1..]);
      if child.got == None then others
      else Fetched(Sub(iframes[0].0, child.got.value, others.got), others.tick)
  }

  /** One iframe: first through the same session, then through one attached to its process. */
  function FetchChild(cdp: Cdp, tick: nat, session: Option<string>, depth: nat, backendNodeId: int)
    : Fetched<Option<Frame>>
    requires MayDescend(depth)
    decreases MAX_FRAME_DEPTH - depth, 0, 0
  {
    match cdp.contentFrame(tick, session, backendNodeId)
    case Some(Some(child)) =>
      var same := Fetch(cdp, tick + 1, session, Some(child), depth + 1);
      if same.got.Some? then same else
        (match cdp.attach(same.tick, child)
         case Some(s) => Fetch(cdp, same.tick + 1, Some(s), None, depth + 1)
         case None => Fetched(None, same.tick + 1))
    case _ => Fetched(None, tick + 1)
  }

  lemma SubsStep(cdp: Cdp, tick: nat, session: Option<string>, depth: nat, iframes: seq<(string, int)>, k: nat)
    requires MayDescend(depth) && k < |iframes|
    ensures var subs := FetchSubs(cdp, tick, session, depth, iframes[k..]);
      var child := FetchChild(cdp, tick, session, depth, iframes[k].1);
      var others := FetchSubs(cdp, child.tick, session, depth, iframes[k + 1..]);
      && subs.tick == others.tick
      && FlattenSubs(subs.got) ==
         (if child.got.Some? then Adopt(Flatten(child.got.value), iframes[k].0) else []) + FlattenSubs(others.got)
  {
    assert iframes[k..][1..] == iframes[k + 1..];
  }

  class Capturer {
    const cdp: Cdp
    var tick: nat

    constructor (cdp: Cdp)
      ensures this.cdp == cdp && tick == 0
    {
      this.cdp, tick := cdp, 0;
    }

    method FetchFrameTree(session: Option<string>, frame: Option<string>, depth: nat)
      returns (r: Option<seq<RawAxNode>>)
      requires depth <= MAX_FRAME_DEPTH
      modifies this
      ensures var fetched := Fetch(cdp, old(tick), session, frame, depth);
        && tick == fetched.tick
        && r == (match fetched.got case Some(t) => Some(Flatten(t)) case None => None)
      decreases MAX_FRAME_DEPTH - depth, 1
    {
      var reply := cdp.axTree(tick, session, frame);
      tick := tick + 1;
      if reply == None {
        return None;
      }
      var raw := ImportAll(session, frame, reply.value);
      if !MayDescend(depth) {
        return Some(raw + []);
      }
      var iframes := Iframes(raw);
      ghost var all := FetchSubs(cdp, tick, session, depth, iframes);
      ghost var whole := raw + FlattenSubs(all.got);
      for k := 0 to |iframes|
        invariant FetchSubs(cdp, tick, session, depth, iframes[k..]).tick == all.tick
        invariant raw + FlattenSubs(FetchSubs(cdp, tick, session, depth, iframes[k..]).got) == whole
      {
        SubsStep(cdp, tick, session, depth, iframes, k);
        var child := FetchIframe(session, depth, iframes[k].1);
        if child.Some? {
          var adopted := AdoptRoot(child.value, iframes[k].0);
          Assoc(raw, adopted, FlattenSubs(FetchSubs(cdp, tick, session, depth, iframes[k + 1..]).got));
          raw := raw + adopted;
        }
      }
      assert raw + FlattenSubs(NoSubs) == raw;
      r := Some(raw);
    }

    method FetchIframe(session: Option<string>, depth: nat, backendNodeId: int) returns (r: Option<seq<RawAxNode>>)
      requires MayDescend(depth)
      modifies this
      ensures var fetched := FetchChild(cdp, old(tick), session, depth, backendNodeId);
        && tick == fetched.tick
        && r == (match fetched.got case Some(t) => Some(Flatten(t)) case None => None)
      decreases MAX_FRAME_DEPTH - depth, 0
    {
      var described := cdp.contentFrame(tick, session, backendNodeId);
      tick := tick + 1;
      if described == None || described.value == None {
        return None;
      }
      var child := described.value.value;
      r := FetchFrameTree(session, Some(child), depth + 1);
      if r == None {
        var attached := cdp.attach(tick, child);
        tick := tick + 1;
        if attached.Some? {
          r := FetchFrameTree(Some(attached.value), None, depth + 1);
        }
      }
    }
  }

  method AdoptRoot(raw: seq<RawAxNode>, parent: string) returns (adopted: seq<RawAxNode>)
    ensures adopted == Adopt(raw, parent)
  {
    adopted := [];
    for k := 0 to |raw|
      invariant adopted == raw[..k] && forall j :: 0 <= j < k ==> raw[j].parentId.Some?
    {
      if raw[k].parentId == None {
        AdoptFirst(raw, parent, k);
        return raw[k := raw[k].(parentId := Some(parent))];
      }
      adopted := adopted + [raw[k]];
    }
    AdoptNone(raw, parent);
  }

  lemma {:induction false} AdoptFirst(raw: seq<RawAxNode>, parent: string, k: nat)
    requires k < |raw| && raw[k].parentId == None && forall j :: 0 <= j < k ==> raw[j].parentId.Some?
    ensures Adopt(raw, parent) == raw[k := raw[k].(parentId := Some(parent))]
  {
    if k > 0 { AdoptFirst(raw[1..], parent, k - 1); }
  }

  lemma {:induction false} AdoptNone(raw: seq<RawAxNode>, parent: string)
    requires forall j :: 0 <= j < |raw| ==> raw[j].parentId.Some?
    ensures Adopt(raw, parent) == raw
  {
    if raw != [] { AdoptNone(raw[1..], parent); }
  }

  // ----- Depth -------------------------------------------------------------------------

  function Levels(t: Frame): nat {
    LevelsSubs(t.subs)
  }

  function LevelsSubs(subs: Subs): nat {
    match subs
    case NoSubs => 0
    case Sub(_, child, rest) =>
      var h := 1 + Levels(child);
      if h < LevelsSubs(rest) then LevelsSubs(rest) else h
  }

  /** However iframes refer to each other, no frame is fetched more than five levels down. */
  lemma {:induction false} FetchDepth(cdp: Cdp, tick: nat, session: Option<string>, frame: Option<string>, depth: nat)
    requires depth <= MAX_FRAME_DEPTH
    ensures var t := Fetch(cdp, tick, session, frame, depth).got;
      t.Some? ==> Levels(t.value) + depth <= 5
    decreases MAX_FRAME_DEPTH - depth, 1, 0
  {
    match cdp.axTree(tick, session, frame)
    case None =>
    case Some(nodes) =>
      if MayDescend(depth) {
        FetchSubsDepth(cdp, tick + 1, session, depth, Iframes(ImportAll(session, frame, nodes)));
      }
  }

  lemma {:induction false} FetchSubsDepth(
    cdp: Cdp, tick: nat, session: Option<string>, depth: nat, iframes: seq<(string, int)>)
    requires MayDescend(depth)
    ensures LevelsSubs(FetchSubs(cdp, tick, session, depth, iframes).got) + depth <= MAX_FRAME_DEPTH
    decreases MAX_FRAME_DEPTH - depth, 0, |iframes|
  {
    if iframes != [] {
      var child := FetchChild(cdp, tick, session, depth, iframes[0].1);
      FetchSubsDepth(cdp, child.tick, session, depth, iframes[1..]);
      match cdp.contentFrame(tick, session, iframes[0].1)
      case Some(Some(frame)) =>
        FetchDepth(cdp, tick + 1, session, Some(frame), depth + 1);
        var same := Fetch(cdp, tick + 1, session, Some(frame), depth + 1);
        match cdp.attach(same.tick, frame) {
          case Some(s) => FetchDepth(cdp, same.tick + 1, Some(s), None, depth + 1);
          case None =>
        }
      case _ =>
    }
  }

  // ----- One root ------------------------------------------------------------------------

  function Roots(raw: seq<RawAxNode>): nat {
    if raw == [] then 0 else (if raw[0].parentId == None then 1 else 0) + Roots(raw[1..])
  }

  lemma {:induction false} RootsAppend(a: seq<RawAxNode>, b: seq<RawAxNode>)
    ensures Roots(a + b) == Roots(a) + Roots(b)
  {
    if a == [] {
      assert a + b == b;
    } else {
      assert (a + b)[1..] == a[1..] + b;
      RootsAppend(a[1..], b);
    }
  }

  lemma {:induction false} AdoptRoots(raw: seq<RawAxNode>, parent: string)
    ensures Roots(Adopt(raw, parent)) == if Roots(raw) == 0 then 0 else Roots(raw) - 1
  {
    if raw != [] {
      AdoptRoots(raw[1..], parent);
      if raw[0].parentId == None {
        assert Adopt(raw, parent)[1..] == raw[1..];
      } else {
        assert Adopt(raw, parent)[1..] == Adopt(raw[1..], parent);
      }
    }
  }

  ghost predicate OneRootEach(t: Frame)
    decreases t
  {
    Roots(ImportAll(t.session, t.frame, t.nodes)) == 1 && OneRootEachSub(t.subs)
  }

  ghost predicate OneRootEachSub(subs: Subs)
    decreases subs
  {
    subs.Sub? ==> OneRootEach(subs.child) && OneRootEachSub(subs.rest)
  }

  /** If every frame has one root, so has the flattened list: the page's own root. */
  lemma {:induction false} FlattenOneRoot(t: Frame)
    requires OneRootEach(t)
    ensures Roots(Flatten(t)) == 1
    ensures FirstRoot(Flatten(t)) == FirstRoot(ImportAll(t.session, t.frame, t.nodes))
    decreases t
  {
    var own := ImportAll(t.session, t.frame, t.nodes);
    FlattenSubsNoRoot(t.subs);
    RootsAppend(own, FlattenSubs(t.subs));
    FirstRootAppend(own, FlattenSubs(t.subs));
  }

  lemma {:induction false} FlattenSubsNoRoot(subs: Subs)
    requires OneRootEachSub(subs)
    ensures Roots(FlattenSubs(subs)) == 0
    decreases subs
  {
    if subs.Sub? {
      FlattenOneRoot(subs.child);
      AdoptRoots(Flatten(subs.child), subs.iframeId);
      FlattenSubsNoRoot(subs.rest);
      RootsAppend(Adopt(Flatten(subs.child), subs.iframeId), FlattenSubs(subs.rest));
    }
  }

  lemma {:induction false} FirstRootAppend(a: seq<RawAxNode>, b: seq<RawAxNode>)
    requires Roots(a) > 0
    ensures FirstRoot(a + b) == FirstRoot(a)
  {
    if a[0].parentId != None {
      assert (a + b)[1..] == a[1..] + b;
      FirstRootAppend(a[1..], b);
    }
  }

  // ----- Unique ids -----------------------------------------------------------------------

  type NodeKey = ((string, string), string)

  /** The frame and the frame's own id of every node, in the order of the flattened list. */
  function NodeKeys(t: Frame): seq<NodeKey> {
    OwnKeys(Key(t.session, t.frame), t.nodes) + NodeKeysSub(t.subs)
  }

  function NodeKeysSub(subs: Subs): seq<NodeKey> {
    match subs
    case NoSubs => []
    case Sub(_, child, rest) => NodeKeys(child) + NodeKeysSub(rest)
  }

  function OwnKeys(key: (string, string), nodes: seq<CdpNode>): seq<NodeKey> {
    if nodes == [] then [] else [(key, nodes[0].nodeId)] + OwnKeys(key, nodes[1..])
  }

  /** Session and frame names that cannot be mistaken for the separators between them. */
  predicate PlainKey(key: (string, string)) {
    '/' !in key.0 && ':' !in key.1
  }

  ghost predicate PlainKeys(t: Frame)
    decreases t
  {
    PlainKey(Key(t.session, t.frame)) && PlainKeysSub(t.subs)
  }

  ghost predicate PlainKeysSub(subs: Subs)
    decreases subs
  {
    subs.Sub? ==> PlainKeys(subs.child) && PlainKeysSub(subs.rest)
  }

  lemma SplitAtFirst(a: string, b: string, sep: char, x: string, y: string)
    requires sep !in a && sep !in b && a + [sep] + x == b + [sep] + y
    ensures a == b && x == y
  {
    var s := a + [sep] + x;
    assert s[|a|] == sep && s[|b|] == (b + [sep] + y)[|b|] == sep;
    assert forall i :: 0 <= i < |a| ==> s[i] == a[i];
    assert forall i :: 0 <= i < |b| ==> s[i] == (b + [sep] + y)[i] == b[i];
    assert |a| == |b|;
    assert a == s[..|a|] && b == (b + [sep] + y)[..|b|];
    assert x == s[|a| + 1..] && y == (b + [sep] + y)[|b| + 1..];
  }

  lemma PrefixedInjective(k: NodeKey, l: NodeKey)
    requires PlainKey(k.0) && PlainKey(l.0)
    requires Prefixed(k.0.0, k.0.1, k.1) == Prefixed(l.0.0, l.0.1, l.1)
    ensures k == l
  {
    var x, y := k.0.1 + [':'] + k.1, l.0.1 + [':'] + l.1;
    assert Prefixed(k.0.0, k.0.1, k.1) == k.0.0 + ['/'] + x;
    assert Prefixed(l.0.0, l.0.1, l.1) == l.0.0 + ['/'] + y;
    SplitAtFirst(k.0.0, l.0.0, '/', x, y);
    SplitAtFirst(k.0.1, l.0.1, ':', k.1, l.1);
  }

  /** `raw` carries, node by node, the prefixed ids of `keys`. */
  ghost predicate Carries(raw: seq<RawAxNode>, keys: seq<NodeKey>) {
    && |raw| == |keys|
    && forall i :: 0 <= i < |raw| ==> raw[i].nodeId == Prefixed(keys[i].0.0, keys[i].0.1, keys[i].1)
  }

  lemma {:induction false} FlattenCarries(t: Frame)
    ensures Carries(Flatten(t), NodeKeys(t))
    decreases t
  {
    ImportCarries(t.session, t.frame, t.nodes);
    FlattenSubsCarries(t.subs);
  }

  lemma {:induction false} FlattenSubsCarries(subs: Subs)
    ensures Carries(FlattenSubs(subs), NodeKeysSub(subs))
    decreases subs
  {
    if subs.Sub? {
      FlattenCarries(subs.child);
      AdoptCarries(Flatten(subs.child), subs.iframeId, NodeKeys(subs.child));
      FlattenSubsCarries(subs.rest);
    }
  }

  lemma {:induction false} ImportCarries(session: Option<string>, frame: Option<string>, nodes: seq<CdpNode>)
    ensures Carries(ImportAll(session, frame, nodes), OwnKeys(Key(session, frame), nodes))
  {
    if nodes != [] { ImportCarries(session, frame, nodes[1..]); }
  }

  lemma {:induction false} AdoptCarries(raw: seq<RawAxNode>, parent: string, keys: seq<NodeKey>)
    requires Carries(raw, keys)
    ensures Carries(Adopt(raw, parent), keys)
  {
    if raw != [] { AdoptCarries(raw[1..], parent, keys[1..]); }
  }

  lemma {:induction false} PlainNodeKeys(t: Frame)
    requires PlainKeys(t)
    ensures forall i :: 0 <= i < |NodeKeys(t)| ==> PlainKey(NodeKeys(t)[i].0)
    decreases t
  {
    OwnKeysOf(Key(t.session, t.frame), t.nodes);
    PlainNodeKeysSub(t.subs);
  }

  lemma {:induction false} PlainNodeKeysSub(subs: Subs)
    requires PlainKeysSub(subs)
    ensures forall i :: 0 <= i < |NodeKeysSub(subs)| ==> PlainKey(NodeKeysSub(subs)[i].0)
    decreases subs
  {
    if subs.Sub? {
      PlainNodeKeys(subs.child);
      PlainNodeKeysSub(subs.rest);
    }
  }

  lemma {:induction false} OwnKeysOf(key: (string, string), nodes: seq<CdpNode>)
    ensures |OwnKeys(key, nodes)| == |nodes|
    ensures forall i :: 0 <= i < |nodes| ==> OwnKeys(key, nodes)[i] == (key, nodes[i].nodeId)
  {
    if nodes != [] { OwnKeysOf(key, nodes[1..]); }
  }

  function Written(k: NodeKey): string {
    Prefixed(k.0.0, k.0.1, k.1)
  }

  /** No two different triples are written as one id. */
  ghost predicate WrittenApart(t: Frame) {
    forall k, l :: k in NodeKeys(t) && l in NodeKeys(t) && Written(k) == Written(l) ==> k == l
  }

  /** Nothing is mistaken where no session id has a `/` and no frame id a `:`. */
  lemma PlainKeysApart(t: Frame)
    requires PlainKeys(t)
    ensures WrittenApart(t)
  {
    PlainNodeKeys(t);
    forall k, l | k in NodeKeys(t) && l in NodeKeys(t) && Written(k) == Written(l) ensures k == l {
      PrefixedInjective(k, l);
    }
  }

  lemma UniqueIdsApart(t: Frame, raw: seq<RawAxNode>)
    requires Carries(raw, NodeKeys(t)) && UniqueIds(raw)
    ensures NoRepeat(NodeKeys(t)) && WrittenApart(t)
  {
    var keys := NodeKeys(t);
    forall i, j | 0 <= i < j < |keys| ensures Written(keys[i]) != Written(keys[j]) {
      assert raw[i].nodeId != raw[j].nodeId;
    }
    forall k, l | k in keys && l in keys && Written(k) == Written(l) ensures k == l {
      var i :| 0 <= i < |keys| && keys[i] == k;
      var j :| 0 <= j < |keys| && keys[j] == l;
      assert i == j;
    }
  }

  lemma ApartUniqueIds(t: Frame, raw: seq<RawAxNode>)
    requires Carries(raw, NodeKeys(t)) && NoRepeat(NodeKeys(t)) && WrittenApart(t)
    ensures UniqueIds(raw)
  {
    var keys := NodeKeys(t);
    forall i, j | 0 <= i < j < |raw| ensures raw[i].nodeId != raw[j].nodeId {
      assert keys[i] in keys && keys[j] in keys && keys[i] != keys[j];
      assert raw[i].nodeId == Written(keys[i]) && raw[j].nodeId == Written(keys[j]);
    }
  }

  /**
   * Node ids are unique across all frames exactly when no frame's node was fetched twice and
   * the separators in ids make no two nodes look alike.
   */
  lemma FlattenUniqueIff(t: Frame)
    ensures UniqueIds(Flatten(t)) <==> NoRepeat(NodeKeys(t)) && WrittenApart(t)
    ensures PlainKeys(t) ==> WrittenApart(t)
  {
    FlattenCarries(t);
    if UniqueIds(Flatten(t)) { UniqueIdsApart(t, Flatten(t)); }
    if NoRepeat(NodeKeys(t)) && WrittenApart(t) { ApartUniqueIds(t, Flatten(t)); }
    if PlainKeys(t) { PlainKeysApart(t); }
  }

  /** With the separators in the ids, different triples can give one node id. */
  lemma SeparatorsCollide()
    ensures Prefixed("a/b", "c", "x") == Prefixed("a", "b/c", "x")
    ensures Prefixed("a", "b:c", "x") == Prefixed("a", "b", "c:x")
  {
    assert Prefixed("a/b", "c", "x") == "a/b/c:x" && Prefixed("a", "b/c", "x") == "a/b/c:x";
    assert Prefixed("a", "b:c", "x") == "a/b:c:x" && Prefixed("a", "b", "c:x") == "a/b:c:x";
  }

  // ----- Distinct frames -----------------------------------------------------------------

  function FrameKeys(t: Frame): seq<(string, string)> {
    [Key(t.session, t.frame)] + FrameKeysSub(t.subs)
  }

  function FrameKeysSub(subs: Subs): seq<(string, string)> {
    match subs
    case NoSubs => []
    case Sub(_, child, rest) => FrameKeys(child) + FrameKeysSub(rest)
  }

  ghost predicate UniqueWithin(t: Frame)
    decreases t
  {
    && (forall i, j :: 0 <= i < j < |t.nodes| ==> t.nodes[i].nodeId != t.nodes[j].nodeId)
    && UniqueWithinSub(t.subs)
  }

  ghost predicate UniqueWithinSub(subs: Subs)
    decreases subs
  {
    subs.Sub? ==> UniqueWithin(subs.child) && UniqueWithinSub(subs.rest)
  }

  lemma {:induction false} KeysFromFrames(t: Frame)
    ensures forall k :: k in NodeKeys(t) ==> k.0 in FrameKeys(t)
    decreases t
  {
    OwnKeysOf(Key(t.session, t.frame), t.nodes);
    KeysFromFramesSub(t.subs);
  }

  lemma {:induction false} KeysFromFramesSub(subs: Subs)
    ensures forall k :: k in NodeKeysSub(subs) ==> k.0 in FrameKeysSub(subs)
    decreases subs
  {
    if subs.Sub? {
      KeysFromFrames(subs.child);
      KeysFromFramesSub(subs.rest);
    }
  }

  lemma NoRepeatAppend<T>(a: seq<T>, b: seq<T>)
    ensures NoRepeat(a + b) <==> NoRepeat(a) && NoRepeat(b) && forall x :: x in a ==> x !in b
  {
    var s := a + b;
    if NoRepeat(s) {
      forall i, j | 0 <= i < j < |a| ensures a[i] != a[j] { assert s[i] != s[j]; }
      forall i, j | 0 <= i < j < |b| ensures b[i] != b[j] { assert s[|a| + i] != s[|a| + j]; }
      forall i, j | 0 <= i < |a| && 0 <= j < |b| ensures a[i] != b[j] { assert s[i] != s[|a| + j]; }
    }
    if NoRepeat(a) && NoRepeat(b) && forall x :: x in a ==> x !in b {
      forall i, j | 0 <= i < j < |s| ensures s[i] != s[j] {
        if i < |a| {
          assert a[i] in a && (j >= |a| ==> b[j - |a|] in b);
        } else {
          assert s[i] == b[i - |a|] && s[j] == b[j - |a|];
        }
      }
    }
  }

  /** Ids unique within each frame, and no frame fetched twice: ids unique overall. */
  lemma {:induction false} DistinctFramesUnique(t: Frame)
    requires UniqueWithin(t) && NoRepeat(FrameKeys(t))
    ensures NoRepeat(NodeKeys(t))
    decreases t
  {
    var own := OwnKeys(Key(t.session, t.frame), t.nodes);
    OwnKeysOf(Key(t.session, t.frame), t.nodes);
    NoRepeatAppend([Key(t.session, t.frame)], FrameKeysSub(t.subs));
    DistinctFramesUniqueSub(t.subs);
    KeysFromFramesSub(t.subs);
    NoRepeatAppend(own, NodeKeysSub(t.subs));
  }

  lemma {:induction false} DistinctFramesUniqueSub(subs: Subs)
    requires UniqueWithinSub(subs) && NoRepeat(FrameKeysSub(subs))
    ensures NoRepeat(NodeKeysSub(subs))
    decreases subs
  {
    if subs.Sub? {
      NoRepeatAppend(FrameKeys(subs.child), FrameKeysSub(subs.rest));
      DistinctFramesUnique(subs.child);
      DistinctFramesUniqueSub(subs.rest);
      KeysFromFrames(subs.child);
      KeysFromFramesSub(subs.rest);
      NoRepeatAppend(NodeKeys(subs.child), NodeKeysSub(subs.rest));
    }
  }

  /**
   * Distinct frames with unique ids and one root each give one root in all, and, if the
   * separators make no two nodes look alike, unique ids and a finite tree for the walk to follow.
   */
  lemma FlattenedFramesWalkable(t: Frame)
    requires UniqueWithin(t) && NoRepeat(FrameKeys(t)) && OneRootEach(t)
    ensures Roots(Flatten(t)) == 1
    ensures UniqueIds(Flatten(t)) <==> WrittenApart(t)
    ensures WrittenApart(t) ==> exists f :: BelowRoot(Flatten(t), f)
    ensures PlainKeys(t) ==> WrittenApart(t)
  {
    DistinctFramesUnique(t);
    FlattenUniqueIff(t);
    FlattenOneRoot(t);
    if UniqueIds(Flatten(t)) { UniqueIdsTerminate(Flatten(t)); }
  }

  // ----- A frame shown twice -------------------------------------------------------------

  function Root(id: string, ignored: bool): CdpNode {
    CdpNode(id, None, ignored, None, None, None, None)
  }

  function Iframe(id: string, ignored: bool, backendNodeId: int): CdpNode {
    CdpNode(id, Some("1"), ignored, Some("Iframe"), None, None, Some(backendNodeId))
  }

  /** A page with two iframes whose content frame is one and the same. */
  function SharedFrameCdp(): Cdp {
    Cdp((k, s, f) => Some(if f == None then SharedFramePage() else [Root("1", false)]),
        (k, s, b) => Some(Some("F")),
        (k, f) => None)
  }

  function SharedFramePage(): seq<CdpNode> {
    [Root("1", false), Iframe("2", false, 7), Iframe("3", false, 8)]
  }

  lemma SharedFrameFetched() returns (child: Frame, i: string, j: string)
    ensures child == Frame(None, Some("F"), [Root("1", false)], NoSubs)
    ensures Fetch(SharedFrameCdp(), 0, None, None, 0).got
      == Some(Frame(None, None, SharedFramePage(), Sub(i, child, Sub(j, child, NoSubs))))
  {
    var cdp, nodes := SharedFrameCdp(), SharedFramePage();
    child := Frame(None, Some("F"), [Root("1", false)], NoSubs);
    forall tick: nat ensures Fetch(cdp, tick, None, Some("F"), 1) == Fetched(Some(child), tick + 1) {
      LeafFetched(cdp, tick, child);
    }
    i, j := Import(None, None, nodes[1]).nodeId, Import(None, None, nodes[2]).nodeId;
    SharedFrameIframes(i, j);
    assert FetchChild(cdp, 1, None, 0, 7) == Fetched(Some(child), 3);
    assert FetchChild(cdp, 3, None, 0, 8) == Fetched(Some(child), 5);
    assert [(i, 7), (j, 8)][1..] == [(j, 8)];
    assert FetchSubs(cdp, 3, None, 0, [(j, 8)]).got == Sub(j, child, NoSubs);
    assert FetchSubs(cdp, 1, None, 0, [(i, 7), (j, 8)]).got == Sub(i, child, Sub(j, child, NoSubs));
  }

  lemma LeafFetched(cdp: Cdp, tick: nat, child: Frame)
    requires child == Frame(None, Some("F"), [Root("1", false)], NoSubs)
    requires cdp.axTree(tick, None, Some("F")) == Some(child.nodes)
    ensures Fetch(cdp, tick, None, Some("F"), 1) == Fetched(Some(child), tick + 1)
  {
    var inner := ImportAll(None, Some("F"), child.nodes);
    assert inner[0] == Import(None, Some("F"), child.nodes[0]) && inner[1..] == [];
    assert Iframes(inner) == [];
  }

  lemma SharedFrameIframes(i: string, j: string)
    requires var nodes := SharedFramePage();
      i == Import(None, None, nodes[1]).nodeId && j == Import(None, None, nodes[2]).nodeId
    ensures Iframes(ImportAll(None, None, SharedFramePage())) == [(i, 7), (j, 8)]
  {
    var nodes := SharedFramePage();
    var own := ImportAll(None, None, nodes);
    assert nodes[1..] == [nodes[1], nodes[2]] && nodes[1..][1..] == [nodes[2]];
    assert own[1..] == ImportAll(None, None, nodes[1..]);
    assert own[1..][1..] == ImportAll(None, None, nodes[1..][1..]);
    assert own[1..][1..][1..] == [];
    assert Iframes(own[1..][1..]) == [(j, 8)];
    assert Iframes(own[1..]) == [(i, 7), (j, 8)];
  }

  /** Two iframes that name the same content frame put its nodes in the list twice. */
  lemma SharedFrameDuplicatesIds()
    ensures var t := Fetch(SharedFrameCdp(), 0, None, None, 0).got;
      t.Some? && UniqueWithin(t.value) && PlainKeys(t.value) && !UniqueIds(Flatten(t.value))
  {
    var child, i, j := SharedFrameFetched();
    var t := Fetch(SharedFrameCdp(), 0, None, None, 0).got.value;
    assert UniqueWithin(child) && UniqueWithinSub(Sub(j, child, NoSubs)) && UniqueWithinSub(t.subs);
    assert PlainKeys(child) && PlainKeysSub(Sub(j, child, NoSubs)) && PlainKeysSub(t.subs);
    var key: NodeKey := (("", "F"), "1");
    OwnKeysOf(("", "F"), child.nodes);
    OwnKeysOf(("", ""), t.nodes);
    assert NodeKeys(child) == [key];
    assert NodeKeysSub(Sub(j, child, NoSubs)) == [key];
    assert NodeKeysSub(t.subs) == [key, key];
    assert NodeKeys(t)[3] == NodeKeys(t)[4];
    FlattenUniqueIff(t);
  }

  // ----- A frame inside itself -----------------------------------------------------------

  /** A frame with one iframe, both ignored. */
  function IgnoredPage(): seq<CdpNode> {
    [Root("1", true), Iframe("2", true, 7)]
  }

  /** A page whose iframe has the page itself as its content frame. */
  function SelfFrameCdp(): Cdp {
    Cdp((k, s, f) => Some(IgnoredPage()), (k, s, b) => Some(Some("M")), (k, f) => None)
  }

  lemma ImportPair(session: Option<string>, frame: Option<string>, nodes: seq<CdpNode>)
    requires |nodes| == 2
    ensures ImportAll(session, frame, nodes) == [Import(session, frame, nodes[0]), Import(session, frame, nodes[1])]
  {
    assert ImportAll(session, frame, nodes[1..]) == [Import(session, frame, nodes[1])] by {
      assert nodes[1..][1..] == [];
    }
  }

  lemma IgnoredPageImported(frame: Option<string>)
    ensures var own, iframe := ImportAll(None, frame, IgnoredPage()), Import(None, frame, IgnoredPage()[1]);
      own == [Import(None, frame, IgnoredPage()[0]), iframe] && Iframes(own) == [(iframe.nodeId, 7)]
  {
    var own := ImportAll(None, frame, IgnoredPage());
    ImportPair(None, frame, IgnoredPage());
    assert own[1..] == [own[1]] && own[1..][1..] == [];
    assert Iframes(own[1..]) == [(own[1].nodeId, 7)];
  }

  predicate IsSelfFrame(t: Frame) {
    t.session == None && t.frame == Some("M") && t.nodes == IgnoredPage()
  }

  /** The page shows itself below its own iframe, down to the deepest level. */
  lemma SelfFrameFetched(depth: nat, tick: nat)
    requires depth <= MAX_FRAME_DEPTH
    ensures var t := Fetch(SelfFrameCdp(), tick, None, Some("M"), depth).got;
      && t.Some? && IsSelfFrame(t.value)
      && (depth < MAX_FRAME_DEPTH ==>
            var id := Import(None, Some("M"), IgnoredPage()[1]).nodeId;
            t.value.subs.Sub? && t.value.subs.iframeId == id && IsSelfFrame(t.value.subs.child))
    decreases MAX_FRAME_DEPTH - depth
  {
    var cdp := SelfFrameCdp();
    if depth < MAX_FRAME_DEPTH {
      IgnoredPageImported(Some("M"));
      SelfFrameFetched(depth + 1, tick + 2);
      var id := Import(None, Some("M"), IgnoredPage()[1]).nodeId;
      var child := FetchChild(cdp, tick + 1, None, depth, 7);
      assert child.got == Fetch(cdp, tick + 2, None, Some("M"), depth + 1).got;
      assert [(id, 7)][1..] == [];
      assert FetchSubs(cdp, child.tick, None, depth, []) == Fetched(NoSubs, child.tick);
      assert FetchSubs(cdp, tick + 1, None, depth, [(id, 7)]).got == Sub(id, child.got.value, NoSubs);
    }
  }

  /** A frame that names itself as the content of its iframe can make the walk go on without end. */
  lemma SelfFrameNeverEnds()
    ensures var t := Fetch(SelfFrameCdp(), 0, None, Some("M"), 0).got;
      t.Some? && !exists f :: BelowRoot(Flatten(t.value), f)
  {
    SelfFrameFetched(0, 0);
    var t := Fetch(SelfFrameCdp(), 0, None, Some("M"), 0).got.value;
    IgnoredPageImported(Some("M"));
    LoopThroughIframe(t);
  }

  /** `t` has an ignored iframe below its root, and a child whose root has the same id as its own. */
  lemma LoopThroughIframe(t: Frame)
    requires |t.nodes| == 2 && t.nodes[0].parentId == None && t.nodes[1].ignored
    requires t.nodes[1].parentId == Some(t.nodes[0].nodeId) && t.subs.Sub? && t.subs.child.nodes != []
    requires var child, iframe := t.subs.child, Import(t.session, t.frame, t.nodes[1]);
      && t.subs.iframeId == iframe.nodeId && child.nodes[0].parentId == None && child.nodes[0].ignored
      && Import(child.session, child.frame, child.nodes[0]).nodeId == Import(t.session, t.frame, t.nodes[0]).nodeId
    ensures !exists f :: BelowRoot(Flatten(t), f)
  {
    var child, own := t.subs.child, ImportAll(t.session, t.frame, t.nodes);
    var back := Import(child.session, child.frame, child.nodes[0]).(parentId := Some(t.subs.iframeId));
    ImportPair(t.session, t.frame, t.nodes);
    assert Adopt(Flatten(child), t.subs.iframeId)[0] == back;
    var raw := Flatten(t);
    assert raw == own + FlattenSubs(t.subs) && FlattenSubs(t.subs)[0] == back;
    assert raw[0] == own[0] && raw[1] == own[1] && raw[2] == back;
    WalkEnding.RootBelowItself(raw, raw[0], raw[1], raw[2]);
  }

  /** Two frames, with a `:` in the frame ids and in a node id. */
  function CollidingFrames(): Frame {
    Frame(None, Some("b:c"), IgnoredPage(),
          Sub(Prefixed("", "b:c", "2"), Frame(None, Some("b"), [Root("c:1", true)], NoSubs), NoSubs))
  }

  /** Distinct frames with unique ids and one root each, on which the walk goes on without end. */
  lemma CollidingFramesNeverEnd()
    ensures var t := CollidingFrames();
      && UniqueWithin(t) && NoRepeat(FrameKeys(t)) && OneRootEach(t) && !WrittenApart(t)
      && !exists f :: BelowRoot(Flatten(t), f)
  {
    var t := CollidingFrames();
    var child := t.subs.child;
    SeparatorsCollide();
    assert Prefixed("", "b:c", "1") == "/b:c:1" && Prefixed("", "b", "c:1") == "/b:c:1";
    LoopThroughIframe(t);
    assert Roots(ImportAll(t.session, t.frame, t.nodes)) == 1 by {
      var own := ImportAll(t.session, t.frame, t.nodes);
      ImportPair(t.session, t.frame, t.nodes);
      assert own[1..] == [own[1]] && own[1..][1..] == [];
      assert Roots(own[1..]) == 0;
    }
    assert ImportAll(None, Some("b"), child.nodes)[1..] == [];
    assert OneRootEach(child) && UniqueWithin(child);
    assert FrameKeysSub(t.subs) == [("", "b")] && FrameKeys(t) == [("", "b:c"), ("", "b")];
    if WrittenApart(t) { FlattenedFramesWalkable(t); }
  }
}
