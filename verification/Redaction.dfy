/**
 * The two redaction passes over a snapshot: the structural one, which asks the page
 * about every form control, and the one that masks the single node a secret was typed
 * into. A tree is compared with the redacted one as a preorder list of cells.
 */
module Redaction {
  import opened Options
  import opened AxTree
  import opened Numerals
  import opened SnapshotRefs

  const REDACTED_PLACEHOLDER := "[REDACTED]"

  /** `Ok(false)`, `Ok(true)` and `Err(())` of one probe. */
  datatype Probe = Safe | Sensitive | Failed

  /** The roles whose values a page may hold secret. */
  const FORM_CONTROLS: set<string> := {"textbox", "searchbox", "combobox"}

  /**
   * What one pass works with: the roles to check, the mask, the refs of the capture, and
   * `answers(k, id)`, the page's answer to the `k`-th probe.
   */
  datatype Oracle = Oracle(controls: set<string>, placeholder: string, refs: RefTable, answers: (nat, int) -> Probe)

  datatype Cell = Cell(depth: nat, nodeRef: string, role: string, name: string, value: Option<string>)

  function CellOf(n: AxNode, depth: nat): Cell {
    Cell(depth, n.nodeRef, n.role, n.name, n.value)
  }

  function Cells(nodes: seq<AxNode>, depth: nat): seq<Cell>
    decreases nodes
  {
    if nodes == [] then [] else
      [CellOf(nodes[0], depth)] + Cells(nodes[0].children, depth + 1) + Cells(nodes[1..], depth)
  }

  // ----- The structural pass -----------------------------------------------------------

  /** A form control the pass can look up; nothing else is touched. */
  predicate Checked(nodeRef: string, role: string, o: Oracle) {
    role in o.controls && nodeRef in o.refs
  }

  /** The backend ids probed for one node: none for a node of another process. */
  function Probes(nodeRef: string, role: string, o: Oracle): seq<int> {
    if Checked(nodeRef, role, o) && !o.refs[nodeRef].isOopif then [o.refs[nodeRef].backendNodeId] else []
  }

  predicate Masked(nodeRef: string, role: string, o: Oracle, k: nat) {
    Checked(nodeRef, role, o) && (o.refs[nodeRef].isOopif || o.answers(k, o.refs[nodeRef].backendNodeId) != Safe)
  }

  datatype Redacted = Redacted(nodes: seq<AxNode>, probed: seq<int>)

  function RedactAll(nodes: seq<AxNode>, o: Oracle, k: nat): Redacted
    decreases nodes
  {
    if nodes == [] then Redacted([], []) else
      var first := RedactOne(nodes[0], o, k);
      var beside := RedactAll(nodes[1..], o, k + |first.probed|);
      Redacted(first.nodes + beside.nodes, first.probed + beside.probed)
  }

  function RedactOne(n: AxNode, o: Oracle, k: nat): Redacted
    decreases n
  {
    var own := Probes(n.nodeRef, n.role, o);
    var value := if Masked(n.nodeRef, n.role, o, k) then Some(o.placeholder) else n.value;
    var below := RedactAll(n.children, o, k + |own|);
    Redacted([n.(value := value, children := below.nodes)], own + below.probed)
  }

  class Redactor {
    const o: Oracle
    var probed: seq<int>

    constructor (refs: RefTable, answers: (nat, int) -> Probe)
      ensures o == Oracle(FORM_CONTROLS, REDACTED_PLACEHOLDER, refs, answers) && probed == []
    {
      o, probed := Oracle(FORM_CONTROLS, REDACTED_PLACEHOLDER, refs, answers), [];
    }

    method RedactedValue(node: AxNode) returns (value: Option<string>)
      modifies this
      ensures probed == old(probed) + Probes(node.nodeRef, node.role, o)
      ensures value == if Masked(node.nodeRef, node.role, o, |old(probed)|)
        then Some(o.placeholder) else node.value
    {
      value := node.value;
      if node.role in o.controls && node.nodeRef in o.refs {
        var resolved := o.refs[node.nodeRef];
        var redact := resolved.isOopif;
        if !redact {
          var answer := o.answers(|probed|, resolved.backendNodeId);
          probed := probed + [resolved.backendNodeId];
          redact := answer != Safe;
        }
        if redact {
          value := Some(o.placeholder);
        }
      }
    }

    method RedactFormControlValues(node: AxNode) returns (node': AxNode)
      modifies this
      ensures var r := RedactOne(node, o, |old(probed)|);
        r.nodes == [node'] && probed == old(probed) + r.probed
      decreases node
    {
      var value := RedactedValue(node);
      ghost var start, below := probed, RedactAll(node.children, o, |probed|);
      var children := [];
      for i := 0 to |node.children|
        invariant var rest := RedactAll(node.children[i..], o, |probed|);
          children + rest.nodes == below.nodes && probed + rest.probed == start + below.probed
      {
        assert node.children[i..][1..] == node.children[i + 1..];
        ghost var done, sofar := children, probed;
        ghost var first := RedactOne(node.children[i], o, |probed|);
        var child := RedactFormControlValues(node.children[i]);
        children := children + [child];
        ghost var rest := RedactAll(node.children[i + 1..], o, |probed|);
        Assoc(done, first.nodes, rest.nodes);
        Assoc(sofar, first.probed, rest.probed);
      }
      assert RedactAll([], o, |probed|) == Redacted([], []);
      assert children + [] == children && probed + [] == probed;
      node' := node.(value := value, children := children);
    }
  }

  /** The probes made for a list of cells, in order. */
  function ProbesOf(cells: seq<Cell>, o: Oracle): seq<int> {
    if cells == [] then [] else Probes(cells[0].nodeRef, cells[0].role, o) + ProbesOf(cells[1..], o)
  }

  lemma {:induction false} ProbesAppend(a: seq<Cell>, b: seq<Cell>, o: Oracle)
    ensures ProbesOf(a + b, o) == ProbesOf(a, o) + ProbesOf(b, o)
  {
    if a == [] {
      assert a + b == b;
    } else {
      assert (a + b)[1..] == a[1..] + b;
      ProbesAppend(a[1..], b, o);
    }
  }

  function MaskCell(c: Cell, o: Oracle, k: nat): Cell {
    if Masked(c.nodeRef, c.role, o, k) then c.(value := Some(o.placeholder)) else c
  }

  function MaskCells(cells: seq<Cell>, o: Oracle, k: nat): seq<Cell> {
    if cells == [] then [] else
      [MaskCell(cells[0], o, k)]
      + MaskCells(cells[1..], o, k + |Probes(cells[0].nodeRef, cells[0].role, o)|)
  }

  lemma {:induction false} MaskAppend(a: seq<Cell>, b: seq<Cell>, o: Oracle, k: nat)
    ensures MaskCells(a + b, o, k)
      == MaskCells(a, o, k) + MaskCells(b, o, k + |ProbesOf(a, o)|)
  {
    if a == [] {
      assert a + b == b;
    } else {
      assert (a + b)[1..] == a[1..] + b;
      MaskAppend(a[1..], b, o, k + |Probes(a[0].nodeRef, a[0].role, o)|);
    }
  }

  lemma {:induction false} MaskedCell(cells: seq<Cell>, o: Oracle, k: nat, i: nat)
    requires i < |cells|
    ensures MaskedAt(MaskCells(cells, o, k), cells, o, k, i)
  {
    var k' := k + |Probes(cells[0].nodeRef, cells[0].role, o)|;
    MaskLength(cells, o, k);
    MaskLength(cells[1..], o, k');
    if i > 0 {
      MaskedCell(cells[1..], o, k', i - 1);
      assert cells[..i][0] == cells[0] && cells[..i][1..] == cells[1..][..i - 1];
    }
  }

  lemma {:induction false} MaskLength(cells: seq<Cell>, o: Oracle, k: nat)
    ensures |MaskCells(cells, o, k)| == |cells|
  {
    if cells != [] { MaskLength(cells[1..], o, k + |Probes(cells[0].nodeRef, cells[0].role, o)|); }
  }

  lemma {:induction false} RedactedOneCells(n: AxNode, o: Oracle, k: nat, depth: nat)
    ensures var r := RedactOne(n, o, k);
      var cells := [CellOf(n, depth)] + Cells(n.children, depth + 1);
      && |r.nodes| == 1
      && [CellOf(r.nodes[0], depth)] + Cells(r.nodes[0].children, depth + 1) == MaskCells(cells, o, k)
      && r.probed == ProbesOf(cells, o)
    decreases n
  {
    var own, head := Probes(n.nodeRef, n.role, o), CellOf(n, depth);
    var kids := Cells(n.children, depth + 1);
    RedactedAllCells(n.children, o, k + |own|, depth + 1);
    MaskHead(head, kids, o, k);
    var r, below := RedactOne(n, o, k), RedactAll(n.children, o, k + |own|);
    assert r == Redacted([r.nodes[0]], own + below.probed) && r.nodes[0].children == below.nodes;
    assert CellOf(r.nodes[0], depth) == MaskCell(head, o, k);
  }

  lemma MaskHead(c: Cell, rest: seq<Cell>, o: Oracle, k: nat)
    ensures var own := Probes(c.nodeRef, c.role, o);
      && MaskCells([c] + rest, o, k)
           == [MaskCell(c, o, k)] + MaskCells(rest, o, k + |own|)
      && ProbesOf([c] + rest, o) == own + ProbesOf(rest, o)
  {
    assert ([c] + rest)[1..] == rest;
  }

  lemma {:induction false} RedactedAllCells(
    nodes: seq<AxNode>, o: Oracle, k: nat, depth: nat)
    ensures var r := RedactAll(nodes, o, k);
      && Cells(r.nodes, depth) == MaskCells(Cells(nodes, depth), o, k)
      && r.probed == ProbesOf(Cells(nodes, depth), o)
    decreases nodes
  {
    if nodes != [] {
      var first := RedactOne(nodes[0], o, k);
      RedactedOneCells(nodes[0], o, k, depth);
      RedactedAllCells(nodes[1..], o, k + |first.probed|, depth);
      var a, b := [CellOf(nodes[0], depth)] + Cells(nodes[0].children, depth + 1), Cells(nodes[1..], depth);
      var rest := RedactAll(nodes[1..], o, k + |first.probed|);
      ConsCells(first.nodes[0], rest.nodes, depth);
      MaskAppend(a, b, o, k);
      ProbesAppend(a, b, o);
    }
  }

  lemma ConsCells(n: AxNode, rest: seq<AxNode>, depth: nat)
    ensures Cells([n] + rest, depth) == [CellOf(n, depth)] + Cells(n.children, depth + 1) + Cells(rest, depth)
  {
    assert ([n] + rest)[1..] == rest;
  }

  /**
   * The pass changes values only: a cell is masked exactly when it is a form control
   * with a known ref whose node is in another process or did not answer "safe"; and the
   * probes made are those of the main-process form controls, in preorder.
   */
  lemma RedactionMasksExactly(nodes: seq<AxNode>, o: Oracle, k: nat)
    ensures var r := RedactAll(nodes, o, k);
      && r.probed == ProbesOf(Cells(nodes, 0), o)
      && MaskedExactly(Cells(r.nodes, 0), Cells(nodes, 0), o, k)
  {
    RedactedAllCells(nodes, o, k, 0);
    MaskCellsExact(Cells(nodes, 0), o, k);
  }

  lemma MaskCellsExact(cells: seq<Cell>, o: Oracle, k: nat)
    ensures MaskedExactly(MaskCells(cells, o, k), cells, o, k)
  {
    MaskLength(cells, o, k);
    forall i: nat | i < |cells| ensures MaskedAt(MaskCells(cells, o, k), cells, o, k, i) {
      MaskedCell(cells, o, k, i);
    }
  }

  /** Cell `i` is masked or not, as the answer to its own probe says: the probes before it are counted. */
  ghost predicate MaskedAt(masked: seq<Cell>, cells: seq<Cell>, o: Oracle, k: nat, i: nat) {
    i < |cells| == |masked| && masked[i] == MaskCell(cells[i], o, k + |ProbesOf(cells[..i], o)|)
  }

  ghost predicate MaskedExactly(masked: seq<Cell>, cells: seq<Cell>, o: Oracle, k: nat) {
    |masked| == |cells| && forall i: nat :: i < |cells| ==> MaskedAt(masked, cells, o, k, i)
  }

  /** Whatever is probed is the main-process node of some form control. */
  lemma {:induction false} ProbesAreLocal(cells: seq<Cell>, o: Oracle, id: int)
    ensures id in ProbesOf(cells, o) <==>
      exists i :: 0 <= i < |cells| && Checked(cells[i].nodeRef, cells[i].role, o)
        && !o.refs[cells[i].nodeRef].isOopif && o.refs[cells[i].nodeRef].backendNodeId == id
  {
    if cells != [] {
      ProbesAreLocal(cells[1..], o, id);
      assert forall i :: 0 < i < |cells| ==> cells[i] == cells[1..][i - 1];
    }
  }

  // ----- The node a secret was typed into -------------------------------------------------

  datatype Search = Search(nodes: seq<AxNode>, found: bool)

  function SearchAll(nodes: seq<AxNode>, nodeRef: string): Search
    decreases nodes
  {
    if nodes == [] then Search([], false) else
      var first := SearchOne(nodes[0], nodeRef);
      if first.found then Search(first.nodes + nodes[1..], true) else
        var beside := SearchAll(nodes[1..], nodeRef);
        Search(first.nodes + beside.nodes, beside.found)
  }

  function SearchOne(n: AxNode, nodeRef: string): Search
    decreases n
  {
    if n.nodeRef == nodeRef then Search([n.(value := Some(REDACTED_PLACEHOLDER))], true) else
      var below := SearchAll(n.children, nodeRef);
      Search([n.(children := below.nodes)], below.found)
  }

  method RedactNodeByRef(node: AxNode, nodeRef: string) returns (node': AxNode, found: bool)
    ensures SearchOne(node, nodeRef) == Search([node'], found)
    decreases node
  {
    if node.nodeRef == nodeRef {
      return node.(value := Some(REDACTED_PLACEHOLDER)), true;
    }
    var children := [];
    ghost var below := SearchAll(node.children, nodeRef);
    for i := 0 to |node.children|
      invariant var rest := SearchAll(node.children[i..], nodeRef);
        children + rest.nodes == below.nodes && rest.found == below.found
    {
      assert node.children[i..][1..] == node.children[i + 1..];
      ghost var done := children;
      var child, here := RedactNodeByRef(node.children[i], nodeRef);
      children := children + [child];
      if here {
        assert done + ([child] + node.children[i + 1..]) == children + node.children[i + 1..];
        return node.(children := children + node.children[i + 1..]), true;
      }
      ghost var rest := SearchAll(node.children[i + 1..], nodeRef);
      assert done + ([child] + rest.nodes) == children + rest.nodes;
    }
    assert SearchAll([], nodeRef) == Search([], false) && children + [] == children;
    node', found := node.(children := children), false;
  }

  /** Masks the first cell with that ref, if there is one. */
  function MaskFirst(cells: seq<Cell>, nodeRef: string): seq<Cell> {
    if cells == [] then []
    else if cells[0].nodeRef == nodeRef then [cells[0].(value := Some(REDACTED_PLACEHOLDER))] + cells[1..]
    else [cells[0]] + MaskFirst(cells[1..], nodeRef)
  }

  ghost predicate Holds(cells: seq<Cell>, nodeRef: string) {
    exists c :: c in cells && c.nodeRef == nodeRef
  }

  /** The first cell with the ref is at `k`. */
  ghost predicate FirstHolder(cells: seq<Cell>, nodeRef: string, k: nat) {
    k < |cells| && cells[k].nodeRef == nodeRef && forall i :: 0 <= i < k ==> cells[i].nodeRef != nodeRef
  }

  lemma {:induction false} FindHolder(cells: seq<Cell>, nodeRef: string) returns (k: nat)
    requires Holds(cells, nodeRef)
    ensures FirstHolder(cells, nodeRef, k)
  {
    if cells[0].nodeRef == nodeRef {
      k := 0;
    } else {
      assert cells == [cells[0]] + cells[1..];
      k := FindHolder(cells[1..], nodeRef);
      k := k + 1;
    }
  }

  lemma {:induction false} MaskFirstAt(cells: seq<Cell>, nodeRef: string, k: nat)
    requires FirstHolder(cells, nodeRef, k)
    ensures MaskFirst(cells, nodeRef) == cells[k := cells[k].(value := Some(REDACTED_PLACEHOLDER))]
  {
    if k > 0 { MaskFirstAt(cells[1..], nodeRef, k - 1); }
  }

  lemma MaskFirstAppend(a: seq<Cell>, b: seq<Cell>, nodeRef: string)
    ensures MaskFirst(a + b, nodeRef) ==
      if Holds(a, nodeRef) then MaskFirst(a, nodeRef) + b else a + MaskFirst(b, nodeRef)
    ensures Holds(a + b, nodeRef) <==> Holds(a, nodeRef) || Holds(b, nodeRef)
  {
    HoldsAppend(a, b, nodeRef);
    if Holds(a, nodeRef) {
      var k := FindHolder(a, nodeRef);
      MaskFirstAt(a, nodeRef, k);
      MaskFirstAt(a + b, nodeRef, k);
    } else if Holds(b, nodeRef) {
      var k := FindHolder(b, nodeRef);
      MaskFirstAt(b, nodeRef, k);
      assert forall i :: 0 <= i < |a| ==> a[i] in a;
      MaskFirstAt(a + b, nodeRef, |a| + k);
    } else {
      NotHeld(a + b, nodeRef);
      NotHeld(b, nodeRef);
    }
  }

  lemma HoldsAppend(a: seq<Cell>, b: seq<Cell>, nodeRef: string)
    ensures Holds(a + b, nodeRef) <==> Holds(a, nodeRef) || Holds(b, nodeRef)
  {
    assert forall c :: c in a + b <==> c in a || c in b;
  }

  lemma {:induction false} NotHeld(cells: seq<Cell>, nodeRef: string)
    requires !Holds(cells, nodeRef)
    ensures MaskFirst(cells, nodeRef) == cells
  {
    if cells != [] {
      assert cells[0] in cells && forall c :: c in cells[1..] ==> c in cells;
      NotHeld(cells[1..], nodeRef);
    }
  }

  lemma {:induction false} SearchOneCells(n: AxNode, nodeRef: string, depth: nat)
    ensures var r := SearchOne(n, nodeRef);
      var cells := [CellOf(n, depth)] + Cells(n.children, depth + 1);
      && |r.nodes| == 1 && r.found == Holds(cells, nodeRef)
      && [CellOf(r.nodes[0], depth)] + Cells(r.nodes[0].children, depth + 1) == MaskFirst(cells, nodeRef)
    decreases n
  {
    var cells := [CellOf(n, depth)] + Cells(n.children, depth + 1);
    SearchAllCells(n.children, nodeRef, depth + 1);
    assert cells[0] in cells && cells[1..] == Cells(n.children, depth + 1);
  }

  /** Masks the first node of that ref in preorder, and says whether there was one. */
  lemma {:induction false} SearchAllCells(nodes: seq<AxNode>, nodeRef: string, depth: nat)
    ensures var r, cells := SearchAll(nodes, nodeRef), Cells(nodes, depth);
      r.found == Holds(cells, nodeRef) && Cells(r.nodes, depth) == MaskFirst(cells, nodeRef)
    decreases nodes
  {
    if nodes != [] {
      SearchOneCells(nodes[0], nodeRef, depth);
      SearchAllCells(nodes[1..], nodeRef, depth);
      var a, b := [CellOf(nodes[0], depth)] + Cells(nodes[0].children, depth + 1), Cells(nodes[1..], depth);
      MaskFirstAppend(a, b, nodeRef);
      var first, rest := SearchOne(nodes[0], nodeRef), SearchAll(nodes[1..], nodeRef);
      if first.found {
        ConsCells(first.nodes[0], nodes[1..], depth);
      } else {
        NotHeld(a, nodeRef);
        ConsCells(first.nodes[0], rest.nodes, depth);
      }
    }
  }

  lemma {:induction false} MaskFirstCell(cells: seq<Cell>, nodeRef: string, i: nat)
    requires i < |cells|
    requires forall j, k :: 0 <= j < k < |cells| ==> cells[j].nodeRef != cells[k].nodeRef
    ensures |MaskFirst(cells, nodeRef)| == |cells|
    ensures MaskFirst(cells, nodeRef)[i] ==
      if cells[i].nodeRef == nodeRef then cells[i].(value := Some(REDACTED_PLACEHOLDER)) else cells[i]
  {
    if |cells| > 1 {
      MaskFirstCell(cells[1..], nodeRef, if i > 0 then i - 1 else 0);
    }
  }

  /** If several nodes have the ref, only the first of them in preorder is masked. */
  lemma RedactRefMasksFirst(n: AxNode, nodeRef: string, k: nat)
    requires FirstHolder(Cells([n], 0), nodeRef, k)
    ensures var r, cells := SearchOne(n, nodeRef), Cells([n], 0);
      r.found && Cells(r.nodes, 0) == cells[k := cells[k].(value := Some(REDACTED_PLACEHOLDER))]
  {
    var cells := Cells([n], 0);
    SearchAllCells([n], nodeRef, 0);
    assert [n][1..] == [] && SearchAll([n], nodeRef) == SearchOne(n, nodeRef);
    assert cells[k] in cells;
    MaskFirstAt(cells, nodeRef, k);
  }

  /** On the snapshot of `RefsCanRepeat` the second of the two nodes keeps its value. */
  lemma TwinKeepsValue()
    ensures var root := AxNode("root", "", "", None, Twins());
      var masked := [Twins()[0].(value := Some(REDACTED_PLACEHOLDER)), Twins()[1]];
      SearchOne(root, RefName(0)) == Search([root.(children := masked)], true)
    ensures Twins()[1].nodeRef == RefName(0) && Twins()[1].value == Some("typed")
  {
    var root := AxNode("root", "", "", None, Twins());
    NumeralDigits(0, Decimal);
    assert |RefName(0)| == 2 && |root.nodeRef| == 4;
    var first, found := Twins()[0].(value := Some(REDACTED_PLACEHOLDER)), SearchAll(Twins(), RefName(0));
    assert SearchOne(Twins()[0], RefName(0)) == Search([first], true);
    assert found.found && found.nodes == [first, Twins()[1]];
  }

  /** With distinct refs exactly the named node is masked, and the answer says if it exists. */
  lemma RedactRefExact(n: AxNode, nodeRef: string)
    requires forall i, j :: 0 <= i < j < |Cells([n], 0)| ==> Cells([n], 0)[i].nodeRef != Cells([n], 0)[j].nodeRef
    ensures var r, cells := SearchOne(n, nodeRef), Cells([n], 0);
      var cells' := Cells(r.nodes, 0);
      && |cells'| == |cells|
      && (r.found <==> exists c :: c in cells && c.nodeRef == nodeRef)
      && forall i :: 0 <= i < |cells| ==>
           cells'[i] == if cells[i].nodeRef == nodeRef then cells[i].(value := Some(REDACTED_PLACEHOLDER)) else cells[i]
  {
    var cells := Cells([n], 0);
    SearchAllCells([n], nodeRef, 0);
    assert [n][1..] == [] && SearchAll([n], nodeRef) == SearchOne(n, nodeRef);
    forall i | 0 <= i < |cells|
      ensures |MaskFirst(cells, nodeRef)| == |cells|
      ensures MaskFirst(cells, nodeRef)[i] ==
        if cells[i].nodeRef == nodeRef then cells[i].(value := Some(REDACTED_PLACEHOLDER)) else cells[i]
    {
      MaskFirstCell(cells, nodeRef, i);
    }
  }
}
