/**
 * What a ref means on later calls. A session holds its tabs' ref tables and one ref
 * counter; captures, navigations and tab switches change them. The functions give each
 * operation on plain values, the classes carry the operations out in place, and the
 * lemmas of `TabRuns` range over whole runs.
 */
module TabRefs {
  import opened Options
  import opened AxTree

  /** The ref-tracking state of one tab. */
  datatype Tab = Tab(latest: RefTable, known: map<string, nat>, generation: nat, url: string)

  function FreshTab(): Tab {
    Tab(map[], map[], 0, "")
  }

  /** New refs are tagged with the current generation, known ones keep theirs. */
  function Install(t: Tab, c: AxCapture): Tab {
    Tab(c.refs,
        map r | r in t.known.Keys + c.refs.Keys :: if r in t.known then t.known[r] else t.generation,
        t.generation,
        c.snapshot.url)
  }

  datatype Resolution = Found(backendNodeId: int, role: string) | CrossOrigin | Stale | NotInSnapshot

  function Resolve(t: Tab, r: string): Resolution {
    if r in t.latest then
      if t.latest[r].isOopif then CrossOrigin else Found(t.latest[r].backendNodeId, t.latest[r].role)
    else if r in t.known && t.known[r] < t.generation then Stale
    else NotInSnapshot
  }

  /** One use of the node list of a page: its forest, and the reverse index it started from. */
  datatype Build = Build(nodes: seq<RawAxNode>, f: Forest, previous: map<int, string>, url: string)

  /** A capture that failed before, was cancelled after, or finished once its tree was built. */
  datatype Attempt = NoTree | Dropped(b: Build) | Done(b: Build)

  datatype Captured = Captured(got: Option<AxCapture>, next: nat)

  function CaptureOnce(a: Attempt, next: nat): Captured {
    match a
    case NoTree => Captured(None, next)
    case Dropped(b) => Captured(None, Capture(b.nodes, b.f, b.previous, next, b.url).1)
    case Done(b) =>
      var (capture, next') := Capture(b.nodes, b.f, b.previous, next, b.url);
      Captured(Some(capture), next')
  }

  /** A first capture without any child is retried once. */
  function WaitAndCapture(first: Attempt, second: Attempt, next: nat): Captured {
    var c := CaptureOnce(first, next);
    if c.got.Some? && c.got.value.snapshot.root.children == [] then CaptureOnce(second, c.next) else c
  }

  datatype Session = Session(tabs: seq<Tab>, active: nat, next: nat)

  /** How the navigation itself ended: on a page, on a blocked one, or not at all. */
  datatype Goto = Reached | Stuck | GotoFailed

  datatype Op =
    | Navigate(goto: Goto, blocked: bool, first: Attempt, second: Attempt)
    | Act(first: Attempt, second: Attempt)
    | Resnap(first: Attempt)
    | NewTab(ready: bool, first: Attempt, second: Attempt)
    | SelectTab(index: nat, first: Attempt, second: Attempt)
    | CloseTab(which: Option<nat>)

  datatype Answer = Refused | Snapped(tab: nat, capture: AxCapture) | Closed(active: nat)

  datatype Outcome = Outcome(s: Session, answer: Answer)

  /** Installs a finished capture in tab `i`; an unfinished one only moves the counter. */
  function Conclude(s: Session, i: nat, c: Captured): Outcome
    requires i < |s.tabs|
  {
    match c.got
    case None => Outcome(s.(next := c.next), Refused)
    case Some(capture) =>
      Outcome(s.(tabs := s.tabs[i := Install(s.tabs[i], capture)], next := c.next), Snapped(i, capture))
  }

  function Step(s: Session, op: Op): (o: Outcome)
    requires s.active < |s.tabs|
    ensures o.s.active < |o.s.tabs|
  {
    match op
    case Navigate(goto, blocked, first, second) =>
      if goto == GotoFailed then Outcome(s, Refused) else
        var t := s.tabs[s.active];
        var bumped := s.(tabs := s.tabs[s.active := t.(generation := t.generation + 1)]);
        if goto == Stuck || blocked then Outcome(bumped, Refused)
        else Conclude(bumped, s.active, WaitAndCapture(first, second, s.next))
    case Act(first, second) => Conclude(s, s.active, WaitAndCapture(first, second, s.next))
    case Resnap(first) => Conclude(s, s.active, CaptureOnce(first, s.next))
    case NewTab(ready, first, second) =>
      if !ready then Outcome(s, Refused) else
        var more := Session(s.tabs + [FreshTab()], |s.tabs|, s.next);
        Conclude(more, |s.tabs|, WaitAndCapture(first, second, s.next))
    case SelectTab(index, first, second) =>
      if index >= |s.tabs| then Outcome(s, Refused)
      else Conclude(s.(active := index), index, WaitAndCapture(first, second, s.next))
    case CloseTab(index) =>
      var target := UnwrapOr(index, s.active);
      if target >= |s.tabs| || |s.tabs| == 1 then Outcome(s, Refused) else
        var tabs := s.tabs[..target] + s.tabs[target + 1..];
        var active :=
          if target < s.active then s.active - 1
          else if target > s.active then s.active
          else if target < |tabs| - 1 then target else |tabs| - 1;
        Outcome(Session(tabs, active, s.next), Closed(active))
  }

  // ----- Which builds an operation can make -------------------------------------------

  ghost predicate ValidBuild(b: Build, refs: RefTable) {
    BelowRoot(b.nodes, b.f) && IsReverseIndex(refs, b.previous)
  }

  ghost predicate ValidAttempt(a: Attempt, refs: RefTable) {
    a.NoTree? || ValidBuild(a.b, refs)
  }

  /** A real navigation and a new tab start from no refs, every other capture from the tab's own. */
  function StartingRefs(s: Session, op: Op): RefTable
    requires s.active < |s.tabs|
  {
    match op
    case Act(_, _) => s.tabs[s.active].latest
    case Resnap(_) => s.tabs[s.active].latest
    case SelectTab(index, _, _) => if index < |s.tabs| then s.tabs[index].latest else map[]
    case _ => map[]
  }

  ghost predicate ValidOp(s: Session, op: Op)
    requires s.active < |s.tabs|
  {
    var refs := StartingRefs(s, op);
    match op
    case CloseTab(_) => true
    case Resnap(first) => ValidAttempt(first, refs)
    case _ => ValidAttempt(op.first, refs) && ValidAttempt(op.second, refs)
  }

  // ----- The operations in place --------------------------------------------------------

  /** What the page gives a capture: nothing, or a tree, and whether the capture then finishes. */
  datatype Reply = NoReply | Reply(nodes: seq<RawAxNode>, url: string, finished: bool)

  ghost predicate Walkable(reply: Reply, f: Forest) {
    reply.Reply? ==> BelowRoot(reply.nodes, f)
  }

  /** `a` is an attempt at `reply`. */
  ghost predicate Attempted(a: Attempt, reply: Reply, f: Forest) {
    match reply
    case NoReply => a == NoTree
    case Reply(nodes, url, finished) =>
      (if finished then a.Done? else a.Dropped?) && a.b.nodes == nodes && a.b.url == url && a.b.f == f
  }

  class TabState {
    var latestRefs: RefTable
    var knownRefs: map<string, nat>
    var navGeneration: nat
    var latestUrl: string

    function Value(): Tab
      reads this
    {
      Tab(latestRefs, knownRefs, navGeneration, latestUrl)
    }

    constructor ()
      ensures Value() == FreshTab()
    {
      latestRefs, knownRefs, navGeneration, latestUrl := map[], map[], 0, "";
    }

    method InstallSnapshot(capture: AxCapture)
      modifies this
      ensures Value() == Install(old(Value()), capture)
    {
      TagRefs(capture.refs.Keys);
      latestUrl := capture.snapshot.url;
      latestRefs := capture.refs;
    }

    method TagRefs(refs: set<string>)
      modifies `knownRefs
      ensures knownRefs.Keys == old(knownRefs).Keys + refs
      ensures forall r :: r in knownRefs ==>
        knownRefs[r] == if r in old(knownRefs) then old(knownRefs)[r] else navGeneration
    {
      var left := refs;
      while left != {}
        invariant left <= refs && forall r :: r in refs ==> r in left || r in knownRefs
        invariant forall r :: r in old(knownRefs) ==> r in knownRefs
        invariant forall r :: r in knownRefs ==> r in old(knownRefs) || r in refs
        invariant forall r :: r in knownRefs ==>
          knownRefs[r] == if r in old(knownRefs) then old(knownRefs)[r] else navGeneration
        decreases |left|
      {
        var r :| r in left;
        if r !in knownRefs {
          knownRefs := knownRefs[r := navGeneration];
        }
        left := left - {r};
      }
    }
  }

  class BrowserSession {
    var tabs: seq<TabState>
    var activeTab: nat
    var nextRefId: nat

    ghost predicate Valid()
      reads this
    {
      && activeTab < |tabs|
      && forall i, j :: 0 <= i < j < |tabs| ==> tabs[i] != tabs[j]
    }

    ghost function Value(): Session
      reads this, tabs
    {
      Session(seq(|tabs|, i requires 0 <= i < |tabs| reads this, tabs => tabs[i].Value()), activeTab, nextRefId)
    }

    constructor ()
      ensures Valid() && fresh(tabs) && Value() == Session([FreshTab()], 0, 0)
    {
      var first := new TabState();
      tabs, activeTab, nextRefId := [first], 0, 0;
    }

    method TryCapture(previousRefs: RefTable, reply: Reply, ghost f: Forest)
      returns (capture: Option<AxCapture>, ghost a: Attempt)
      requires Walkable(reply, f)
      modifies `nextRefId
      ensures Attempted(a, reply, f) && ValidAttempt(a, previousRefs)
      ensures Captured(capture, nextRefId) == CaptureOnce(a, old(nextRefId))
    {
      match reply
      case NoReply => capture, a := None, NoTree;
      case Reply(nodes, url, finished) =>
        ghost var next := nextRefId;
        var built;
        built, nextRefId := BuildTree(nodes, nextRefId, url, previousRefs, f);
        ghost var previous :| IsReverseIndex(previousRefs, previous)
          && (built, nextRefId) == Capture(nodes, f, previous, next, url);
        capture := if finished then Some(built) else None;
        a := if finished then Done(Build(nodes, f, previous, url)) else Dropped(Build(nodes, f, previous, url));
    }

    method TryWaitAndCapture(previousRefs: RefTable, r1: Reply, ghost f1: Forest, r2: Reply, ghost f2: Forest)
      returns (capture: Option<AxCapture>, ghost a1: Attempt, ghost a2: Attempt)
      requires Walkable(r1, f1) && Walkable(r2, f2)
      modifies `nextRefId
      ensures Attempted(a1, r1, f1) && ValidAttempt(a1, previousRefs) && ValidAttempt(a2, previousRefs)
      ensures a2.NoTree? || Attempted(a2, r2, f2)
      ensures Captured(capture, nextRefId) == WaitAndCapture(a1, a2, old(nextRefId))
    {
      capture, a1 := TryCapture(previousRefs, r1, f1);
      a2 := NoTree;
      if capture.Some? && capture.value.snapshot.root.children == [] {
        capture, a2 := TryCapture(previousRefs, r2, f2);
      }
    }

    /** Installs in tab `i` what a capture gave, if it gave anything. */
    method Finish(i: nat, capture: Option<AxCapture>) returns (answer: Answer)
      requires Valid() && i < |tabs|
      modifies tabs[i]
      ensures Valid() && Outcome(Value(), answer) == Conclude(old(Value()), i, Captured(capture, nextRefId))
    {
      answer := Refused;
      if capture.Some? {
        tabs[i].InstallSnapshot(capture.value);
        answer := Snapped(i, capture.value);
      }
    }

    /** The page of the active tab is another one: its generation goes up. */
    method BumpGeneration()
      requires Valid()
      modifies tabs[activeTab]
      ensures Valid()
      ensures var s := old(Value());
        var t := s.tabs[s.active];
        Value() == s.(tabs := s.tabs[s.active := t.(generation := t.generation + 1)])
    {
      var tab := tabs[activeTab];
      tab.navGeneration := tab.navGeneration + 1;
    }

    method DoNavigate(goto: Goto, blocked: bool, r1: Reply, ghost f1: Forest, r2: Reply, ghost f2: Forest)
      returns (answer: Answer, ghost op: Op)
      requires Valid() && Walkable(r1, f1) && Walkable(r2, f2)
      modifies `nextRefId, tabs[activeTab]
      ensures Valid() && tabs == old(tabs) && op.Navigate? && op.goto == goto && op.blocked == blocked
      ensures ValidOp(old(Value()), op) && Outcome(Value(), answer) == Step(old(Value()), op)
    {
      op := Navigate(goto, blocked, NoTree, NoTree);
      if goto == GotoFailed {
        return Refused, op;
      }
      BumpGeneration();
      if goto == Stuck || blocked {
        return Refused, op;
      }
      var capture;
      ghost var a1, a2;
      capture, a1, a2 := TryWaitAndCapture(map[], r1, f1, r2, f2);
      op := Navigate(goto, blocked, a1, a2);
      answer := Finish(activeTab, capture);
    }

    /** Clicks, typing, waiting and history moves: a capture that keeps the tab's refs. */
    method DoAct(r1: Reply, ghost f1: Forest, r2: Reply, ghost f2: Forest) returns (answer: Answer, ghost op: Op)
      requires Valid() && Walkable(r1, f1) && Walkable(r2, f2)
      modifies `nextRefId, tabs[activeTab]
      ensures Valid() && tabs == old(tabs) && op.Act? && Attempted(op.first, r1, f1)
      ensures ValidOp(old(Value()), op) && Outcome(Value(), answer) == Step(old(Value()), op)
    {
      var capture;
      ghost var a1, a2;
      capture, a1, a2 := TryWaitAndCapture(tabs[activeTab].latestRefs, r1, f1, r2, f2);
      op := Act(a1, a2);
      answer := Finish(activeTab, capture);
    }

    method DoSnapshot(r1: Reply, ghost f1: Forest) returns (answer: Answer, ghost op: Op)
      requires Valid() && Walkable(r1, f1)
      modifies `nextRefId, tabs[activeTab]
      ensures Valid() && tabs == old(tabs) && op.Resnap? && Attempted(op.first, r1, f1)
      ensures ValidOp(old(Value()), op) && Outcome(Value(), answer) == Step(old(Value()), op)
    {
      var capture;
      ghost var a1;
      capture, a1 := TryCapture(tabs[activeTab].latestRefs, r1, f1);
      op := Resnap(a1);
      answer := Finish(activeTab, capture);
    }

    /** A tab with a state of its own, made active. */
    method AddTab()
      requires Valid()
      modifies `tabs, `activeTab
      ensures Valid() && |tabs| > 0 && fresh(tabs[|tabs| - 1]) && tabs[..|tabs| - 1] == old(tabs)
      ensures Value() == Session(old(Value()).tabs + [FreshTab()], |old(tabs)|, nextRefId)
    {
      ghost var before := Value();
      var tab := new TabState();
      tabs := tabs + [tab];
      activeTab := |tabs| - 1;
      assert Value().tabs == before.tabs + [FreshTab()];
    }

    method DoNewTab(ready: bool, r1: Reply, ghost f1: Forest, r2: Reply, ghost f2: Forest)
      returns (answer: Answer, ghost op: Op)
      requires Valid() && Walkable(r1, f1) && Walkable(r2, f2)
      modifies this
      ensures Valid() && fresh(set t | t in tabs && t !in old(tabs)) && op.NewTab? && op.ready == ready
      ensures ValidOp(old(Value()), op) && Outcome(Value(), answer) == Step(old(Value()), op)
    {
      op := NewTab(ready, NoTree, NoTree);
      if !ready {
        return Refused, op;
      }
      AddTab();
      var capture;
      ghost var a1, a2;
      capture, a1, a2 := TryWaitAndCapture(map[], r1, f1, r2, f2);
      op := NewTab(ready, a1, a2);
      answer := Finish(activeTab, capture);
    }

    method DoSelectTab(index: nat, r1: Reply, ghost f1: Forest, r2: Reply, ghost f2: Forest)
      returns (answer: Answer, ghost op: Op)
      requires Valid() && Walkable(r1, f1) && Walkable(r2, f2)
      modifies `nextRefId, `activeTab, tabs
      ensures Valid() && tabs == old(tabs) && op.SelectTab? && op.index == index
      ensures ValidOp(old(Value()), op) && Outcome(Value(), answer) == Step(old(Value()), op)
    {
      op := SelectTab(index, NoTree, NoTree);
      if index >= |tabs| {
        return Refused, op;
      }
      activeTab := index;
      var capture;
      ghost var a1, a2;
      capture, a1, a2 := TryWaitAndCapture(tabs[index].latestRefs, r1, f1, r2, f2);
      op := SelectTab(index, a1, a2);
      answer := Finish(index, capture);
    }

    method DoCloseTab(which: Option<nat>) returns (answer: Answer)
      requires Valid()
      modifies `tabs, `activeTab
      ensures Valid() && Outcome(Value(), answer) == Step(old(Value()), CloseTab(which))
    {
      var target := UnwrapOr(which, activeTab);
      if target >= |tabs| || |tabs| == 1 {
        return Refused;
      }
      ghost var before := Value();
      tabs := tabs[..target] + tabs[target + 1..];
      if target < activeTab {
        activeTab := activeTab - 1;
      } else if target == activeTab {
        activeTab := if target < |tabs| - 1 then target else |tabs| - 1;
      }
      assert Value().tabs == before.tabs[..target] + before.tabs[target + 1..];
      answer := Closed(activeTab);
    }
  }
}
