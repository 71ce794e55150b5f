/**
 * Where each node of a flattened capture comes from: which frame's own node it is, with which
 * content, which origin and which parent, and which answers of the browser brought the frame in.
 */
module FrameOrigins {
  import opened Options
  import opened AxTree
  import opened FrameTree

  /** A node of the browser's, the frame it is of, and the iframe node it hangs from, if it does from one. */
  datatype Source = Source(session: Option<string>, frame: Option<string>, node: CdpNode, hangsFrom: Option<string>)

  function OwnSources(session: Option<string>, frame: Option<string>, nodes: seq<CdpNode>): seq<Source> {
    if nodes == [] then [] else [Source(session, frame, nodes[0], None)] + OwnSources(session, frame, nodes[1..])
  }

  /** The nodes of a frame, then those of the frames it shows, each below the iframe node that shows it. */
  function Sources(t: Frame): seq<Source> {
    OwnSources(t.session, t.frame, t.nodes) + SourcesSub(t.subs)
  }

  function SourcesSub(subs: Subs): seq<Source> {
    match subs
    case NoSubs => []
    case Sub(id, child, rest) => Hung(Sources(child), id) + SourcesSub(rest)
  }

  predicate Hangs(s: Source) {
    s.node.parentId.Some? || s.hangsFrom.Some?
  }

  /** The first node that hangs from nothing yet hangs from `iframe`. */
  function Hung(list: seq<Source>, iframe: string): seq<Source> {
    if list == [] then []
    else if !Hangs(list[0]) then [list[0].(hangsFrom := Some(iframe))] + list[1..]
    else [list[0]] + Hung(list[1..], iframe)
  }

  /** An id as it is written in the capture: session, slash, frame, colon, and the browser's own id. */
  function WrittenId(s: Source, id: string): string {
    (match s.session case Some(session) => session case None => "") + "/"
    + (match s.frame case Some(frame) => frame case None => "") + ":" + id
  }

  /** Content and origin are those of the browser's node; its parent is the frame's own, or the iframe node. */
  predicate ComesFrom(n: RawAxNode, s: Source) {
    && n.nodeId == WrittenId(s, s.node.nodeId)
    && n.parentId == (match s.node.parentId case Some(p) => Some(WrittenId(s, p)) case None => s.hangsFrom)
    && n.ignored == s.node.ignored && n.role == s.node.role && n.name == s.node.name && n.value == s.node.value
    && n.backendNodeId == s.node.backendNodeId && (n.oopif <==> s.session.Some?)
  }

  ghost predicate AllComeFrom(raw: seq<RawAxNode>, list: seq<Source>) {
    |raw| == |list| && forall i :: 0 <= i < |raw| ==> ComesFrom(raw[i], list[i])
  }

  lemma {:induction false} ImportedFrom(session: Option<string>, frame: Option<string>, nodes: seq<CdpNode>)
    ensures AllComeFrom(ImportAll(session, frame, nodes), OwnSources(session, frame, nodes))
  {
    if nodes != [] {
      ImportedFrom(session, frame, nodes[1..]);
      assert ComesFrom(Import(session, frame, nodes[0]), Source(session, frame, nodes[0], None));
    }
  }

  lemma {:induction false} AdoptedFrom(raw: seq<RawAxNode>, list: seq<Source>, iframe: string)
    requires AllComeFrom(raw, list)
    ensures AllComeFrom(Adopt(raw, iframe), Hung(list, iframe))
  {
    if raw != [] {
      assert ComesFrom(raw[0], list[0]) && AllComeFrom(raw[1..], list[1..]);
      AdoptedFrom(raw[1..], list[1..], iframe);
    }
  }

  /**
   * Node by node, the flattened list is the frames' own nodes, those of a frame before those of
   * the frames it shows. A node counts as of another process exactly when its frame has a session.
   */
  lemma {:induction false} FlattenedFrom(t: Frame)
    ensures AllComeFrom(Flatten(t), Sources(t))
    decreases t
  {
    ImportedFrom(t.session, t.frame, t.nodes);
    FlattenedSubsFrom(t.subs);
  }

  lemma {:induction false} FlattenedSubsFrom(subs: Subs)
    ensures AllComeFrom(FlattenSubs(subs), SourcesSub(subs))
    decreases subs
  {
    if subs.Sub? {
      FlattenedFrom(subs.child);
      AdoptedFrom(Flatten(subs.child), Sources(subs.child), subs.iframeId);
      FlattenedSubsFrom(subs.rest);
    }
  }

  /** A frame that has a root of its own hangs by the first one, and all its other nodes stay. */
  lemma OwnRootHangs(t: Frame, k: nat, iframe: string)
    requires k < |t.nodes| && t.nodes[k].parentId == None && forall j :: 0 <= j < k ==> t.nodes[j].parentId.Some?
    ensures var list := Sources(t);
      k < |list| && list[k] == Source(t.session, t.frame, t.nodes[k], None)
      && Hung(list, iframe) == list[k := Source(t.session, t.frame, t.nodes[k], Some(iframe))]
  {
    OwnSourceAt(t.session, t.frame, t.nodes);
    HungAt(Sources(t), iframe, k);
  }

  lemma {:induction false} OwnSourceAt(session: Option<string>, frame: Option<string>, nodes: seq<CdpNode>)
    ensures |OwnSources(session, frame, nodes)| == |nodes|
    ensures forall i :: 0 <= i < |nodes| ==>
      OwnSources(session, frame, nodes)[i] == Source(session, frame, nodes[i], None)
  {
    if nodes != [] { OwnSourceAt(session, frame, nodes[1..]); }
  }

  lemma {:induction false} HungAt(list: seq<Source>, iframe: string, k: nat)
    requires k < |list| && !Hangs(list[k]) && forall j :: 0 <= j < k ==> Hangs(list[j])
    ensures Hung(list, iframe) == list[k := list[k].(hangsFrom := Some(iframe))]
  {
    if k > 0 { HungAt(list[1..], iframe, k - 1); }
  }

  // ----- Which frames are brought in --------------------------------------------------------------

  /** The browser gave this iframe node's frame, and the child is its document, here or in its own process. */
  ghost predicate Shows(cdp: Cdp, t: Frame, iframeId: string, child: Frame, n: CdpNode) {
    && n in t.nodes && n.role == Some("Iframe") && n.backendNodeId.Some?
    && iframeId == WrittenId(Source(t.session, t.frame, n, None), n.nodeId)
    && exists tick, frame ::
         && cdp.contentFrame(tick, t.session, n.backendNodeId.value) == Some(Some(frame))
         && IsDocument(cdp, t, child, frame)
  }

  ghost predicate IsDocument(cdp: Cdp, t: Frame, child: Frame, frame: string) {
    || (child.session == t.session && child.frame == Some(frame))
    || (child.frame == None && child.session.Some? && exists tick :: cdp.attach(tick, frame) == child.session)
  }

  ghost predicate Answered(cdp: Cdp, t: Frame)
    decreases t, 1
  {
    && (exists tick :: cdp.axTree(tick, t.session, t.frame) == Some(t.nodes))
    && AnsweredSub(cdp, t, t.subs)
  }

  ghost predicate AnsweredSub(cdp: Cdp, t: Frame, subs: Subs)
    decreases subs, 0
  {
    match subs
    case NoSubs => true
    case Sub(id, child, rest) =>
      && (exists n :: Shows(cdp, t, id, child, n))
      && Answered(cdp, child) && AnsweredSub(cdp, t, rest)
  }

  ghost predicate IsIframe(t: Frame, iframe: (string, int)) {
    exists n :: IframeNode(t, iframe, n)
  }

  predicate IframeNode(t: Frame, iframe: (string, int), n: CdpNode) {
    && n in t.nodes && n.role == Some("Iframe") && n.backendNodeId == Some(iframe.1)
    && iframe.0 == WrittenId(Source(t.session, t.frame, n, None), n.nodeId)
  }

  lemma {:induction false} IframesOfNodes(t: Frame, nodes: seq<CdpNode>, i: nat)
    requires (forall n :: n in nodes ==> n in t.nodes) && i < |Iframes(ImportAll(t.session, t.frame, nodes))|
    ensures IsIframe(t, Iframes(ImportAll(t.session, t.frame, nodes))[i])
  {
    var raw := ImportAll(t.session, t.frame, nodes);
    var here := raw[0].role == Some("Iframe") && raw[0].backendNodeId.Some?;
    assert raw[1..] == ImportAll(t.session, t.frame, nodes[1..]);
    if here && i == 0 {
      assert IframeNode(t, Iframes(raw)[0], nodes[0]);
    } else {
      IframesOfNodes(t, nodes[1..], if here then i - 1 else i);
    }
  }

  /** Every frame of a fetch is what the browser answered, and every child what it named as an iframe's content. */
  lemma {:induction false} FetchAnswered(
    cdp: Cdp, tick: nat, session: Option<string>, frame: Option<string>, depth: nat)
    requires depth <= MAX_FRAME_DEPTH
    ensures var t := Fetch(cdp, tick, session, frame, depth).got;
      t.Some? ==> t.value.session == session && t.value.frame == frame && Answered(cdp, t.value)
    decreases MAX_FRAME_DEPTH - depth, 1, 0
  {
    match cdp.axTree(tick, session, frame)
    case None =>
    case Some(nodes) =>
      if MayDescend(depth) {
        var own := Frame(session, frame, nodes, NoSubs);
        var iframes := Iframes(ImportAll(session, frame, nodes));
        forall i | 0 <= i < |iframes| ensures IsIframe(own, iframes[i]) { IframesOfNodes(own, nodes, i); }
        FetchSubsAnswered(cdp, tick + 1, own, depth, iframes);
        var t := Fetch(cdp, tick, session, frame, depth).got.value;
        SameFrameSubs(cdp, own, t, t.subs);
      }
  }

  lemma {:induction false} SameFrameSubs(cdp: Cdp, t: Frame, t': Frame, subs: Subs)
    requires AnsweredSub(cdp, t, subs) && t'.session == t.session && t'.frame == t.frame && t'.nodes == t.nodes
    ensures AnsweredSub(cdp, t', subs)
    decreases subs
  {
    if subs.Sub? {
      var n :| Shows(cdp, t, subs.iframeId, subs.child, n);
      var tick, frame :| cdp.contentFrame(tick, t.session, n.backendNodeId.value) == Some(Some(frame))
        && IsDocument(cdp, t, subs.child, frame);
      assert IsDocument(cdp, t', subs.child, frame);
      assert Shows(cdp, t', subs.iframeId, subs.child, n);
      SameFrameSubs(cdp, t, t', subs.rest);
    }
  }

  lemma {:induction false} FetchSubsAnswered(cdp: Cdp, tick: nat, t: Frame, depth: nat, iframes: seq<(string, int)>)
    requires MayDescend(depth)
    requires forall i :: 0 <= i < |iframes| ==> IsIframe(t, iframes[i])
    ensures AnsweredSub(cdp, t, FetchSubs(cdp, tick, t.session, depth, iframes).got)
    decreases MAX_FRAME_DEPTH - depth, 0, |iframes|
  {
    if iframes != [] {
      var child := FetchChild(cdp, tick, t.session, depth, iframes[0].1);
      FetchSubsAnswered(cdp, child.tick, t, depth, iframes[1..]);
      ChildAnswered(cdp, tick, t, depth, iframes[0]);
    }
  }

  lemma {:induction false} ChildAnswered(cdp: Cdp, tick: nat, t: Frame, depth: nat, iframe: (string, int))
    requires MayDescend(depth) && IsIframe(t, iframe)
    ensures var child := FetchChild(cdp, tick, t.session, depth, iframe.1).got;
      child.Some? ==> Answered(cdp, child.value) && exists n :: Shows(cdp, t, iframe.0, child.value, n)
    decreases MAX_FRAME_DEPTH - depth, 0, 0
  {
    var n :| IframeNode(t, iframe, n);
    match cdp.contentFrame(tick, t.session, iframe.1)
    case Some(Some(frame)) =>
      FetchAnswered(cdp, tick + 1, t.session, Some(frame), depth + 1);
      var same := Fetch(cdp, tick + 1, t.session, Some(frame), depth + 1);
      match cdp.attach(same.tick, frame) {
        case Some(s) => FetchAnswered(cdp, same.tick + 1, Some(s), None, depth + 1);
        case None =>
      }
      var child := FetchChild(cdp, tick, t.session, depth, iframe.1).got;
      if child.Some? {
        assert IsDocument(cdp, t, child.value, frame);
        assert Shows(cdp, t, iframe.0, child.value, n);
      }
    case _ =>
  }

  /**
   * An iframe's frame is fetched through the same session if that can see it, and else through
   * one attached to its own process; it is left out if neither can, or nothing is known of it.
   */
  lemma ChildIs(cdp: Cdp, tick: nat, session: Option<string>, depth: nat, id: int)
    requires MayDescend(depth)
    ensures var described := cdp.contentFrame(tick, session, id);
      var child := FetchChild(cdp, tick, session, depth, id).got;
      if described.None? || described.value.None? then child == None
      else
        var frame := described.value.value;
        if cdp.axTree(tick + 1, session, Some(frame)).Some? then
          child.Some? && child.value.session == session && child.value.frame == Some(frame)
        else match cdp.attach(tick + 2, frame)
          case None => child == None
          case Some(s) =>
            && (child.Some? <==> cdp.axTree(tick + 3, Some(s), None).Some?)
            && (child.Some? ==> child.value.session == Some(s) && child.value.frame == None)
  {
  }

  // ----- All of them ---------------------------------------------------------------------------------

  function SubIds(subs: Subs): seq<string> {
    match subs
    case NoSubs => []
    case Sub(id, _, rest) => [id] + SubIds(rest)
  }

  function IframeIds(session: Option<string>, frame: Option<string>, nodes: seq<CdpNode>): seq<string> {
    if nodes == [] then [] else
      (if nodes[0].role == Some("Iframe") && nodes[0].backendNodeId.Some?
       then [WrittenId(Source(session, frame, nodes[0], None), nodes[0].nodeId)] else [])
      + IframeIds(session, frame, nodes[1..])
  }

  ghost predicate AlwaysAnswers(cdp: Cdp) {
    && (forall tick, session, frame :: cdp.axTree(tick, session, frame).Some?)
    && (forall tick, session, id :: cdp.contentFrame(tick, session, id).Some?
          && cdp.contentFrame(tick, session, id).value.Some?)
  }

  lemma {:induction false} IframeIdsAre(session: Option<string>, frame: Option<string>, nodes: seq<CdpNode>)
    ensures var iframes, ids := Iframes(ImportAll(session, frame, nodes)), IframeIds(session, frame, nodes);
      |iframes| == |ids| && forall i :: 0 <= i < |ids| ==> iframes[i].0 == ids[i]
  {
    if nodes != [] {
      IframeIdsAre(session, frame, nodes[1..]);
      assert ImportAll(session, frame, nodes)[1..] == ImportAll(session, frame, nodes[1..]);
    }
  }

  lemma {:induction false} AllSubsFetched(
    cdp: Cdp, tick: nat, session: Option<string>, depth: nat, iframes: seq<(string, int)>)
    requires AlwaysAnswers(cdp) && MayDescend(depth)
    ensures var ids := SubIds(FetchSubs(cdp, tick, session, depth, iframes).got);
      |ids| == |iframes| && forall i :: 0 <= i < |ids| ==> ids[i] == iframes[i].0
    decreases |iframes|
  {
    if iframes != [] {
      var child := FetchChild(cdp, tick, session, depth, iframes[0].1);
      AllSubsFetched(cdp, child.tick, session, depth, iframes[1..]);
      var frame := cdp.contentFrame(tick, session, iframes[0].1).value.value;
      assert cdp.axTree(tick + 1, session, Some(frame)).Some?;
      assert Fetch(cdp, tick + 1, session, Some(frame), depth + 1).got.Some?;
    }
  }

  /** Where the browser answers, every iframe node less than five levels down shows its frame, in order. */
  lemma AllIframesFetched(cdp: Cdp, tick: nat, session: Option<string>, frame: Option<string>, depth: nat)
    requires AlwaysAnswers(cdp) && depth <= 5
    ensures var t := Fetch(cdp, tick, session, frame, depth).got;
      t.Some? && SubIds(t.value.subs) == if depth < 5 then IframeIds(session, frame, t.value.nodes) else []
  {
    var nodes := cdp.axTree(tick, session, frame).value;
    if depth < 5 {
      var iframes := Iframes(ImportAll(session, frame, nodes));
      AllSubsFetched(cdp, tick + 1, session, depth, iframes);
      IframeIdsAre(session, frame, nodes);
      assert SubIds(FetchSubs(cdp, tick + 1, session, depth, iframes).got) == IframeIds(session, frame, nodes);
    }
  }
}
