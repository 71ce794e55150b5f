/**
 * The redaction of a snapshot, spelled out: which nodes are masked, with what, and which ids the
 * page is asked about, in terms of the roles, the ref table and the page's answers alone.
 */
module RedactionFacts {
  import opened Options
  import opened AxTree
  import opened Redaction

  /** The pass as it is run on a capture. */
  function PageOracle(refs: RefTable, answers: (nat, int) -> Probe): Oracle {
    Oracle(FORM_CONTROLS, REDACTED_PLACEHOLDER, refs, answers)
  }

  /** A text box, search box or combo box with a recorded ref. */
  predicate IsControl(c: Cell, refs: RefTable) {
    (c.role == "textbox" || c.role == "searchbox" || c.role == "combobox") && c.nodeRef in refs
  }

  /** The backend ids the page is asked about: those of the main process, in the order of the tree. */
  function AskedAbout(cells: seq<Cell>, refs: RefTable): seq<int> {
    if cells == [] then [] else
      (if IsControl(cells[0], refs) && !refs[cells[0].nodeRef].isOopif
       then [refs[cells[0].nodeRef].backendNodeId] else [])
      + AskedAbout(cells[1..], refs)
  }

  /** It is in another process, or the page answers its probe, the `n`-th, that it is sensitive or not at all. */
  predicate IsSecret(c: Cell, refs: RefTable, answers: (nat, int) -> Probe, n: nat) {
    && IsControl(c, refs)
    && (|| refs[c.nodeRef].isOopif
        || answers(n, refs[c.nodeRef].backendNodeId) == Sensitive
        || answers(n, refs[c.nodeRef].backendNodeId) == Failed)
  }

  lemma ControlIsChecked(c: Cell, refs: RefTable, answers: (nat, int) -> Probe)
    ensures Checked(c.nodeRef, c.role, PageOracle(refs, answers)) <==> IsControl(c, refs)
  {
  }

  lemma {:induction false} AskedIsProbed(cells: seq<Cell>, refs: RefTable, answers: (nat, int) -> Probe)
    ensures ProbesOf(cells, PageOracle(refs, answers)) == AskedAbout(cells, refs)
  {
    if cells != [] {
      ControlIsChecked(cells[0], refs, answers);
      AskedIsProbed(cells[1..], refs, answers);
    }
  }

  lemma MaskedIsSecret(c: Cell, refs: RefTable, answers: (nat, int) -> Probe, n: nat)
    ensures MaskCell(c, PageOracle(refs, answers), n)
      == if IsSecret(c, refs, answers, n) then Cell(c.depth, c.nodeRef, c.role, c.name, Some("[REDACTED]")) else c
  {
    ControlIsChecked(c, refs, answers);
  }

  /**
   * The pass replaces the value of a secret control by the placeholder, and changes nothing else:
   * no depth, ref, role or name, and no other value. It asks the page once about each control of
   * the main process, in order, and takes the answers in that order.
   */
  lemma SecretsAreMasked(nodes: seq<AxNode>, refs: RefTable, answers: (nat, int) -> Probe)
    ensures var r, cells := RedactAll(nodes, PageOracle(refs, answers), 0), Cells(nodes, 0);
      var cells' := Cells(r.nodes, 0);
      && r.probed == AskedAbout(cells, refs)
      && |cells'| == |cells|
      && forall i :: 0 <= i < |cells| ==>
           cells'[i] == if IsSecret(cells[i], refs, answers, |AskedAbout(cells[..i], refs)|)
             then Cell(cells[i].depth, cells[i].nodeRef, cells[i].role, cells[i].name, Some("[REDACTED]"))
             else cells[i]
  {
    var o, cells := PageOracle(refs, answers), Cells(nodes, 0);
    var r := RedactAll(nodes, o, 0);
    RedactionMasksExactly(nodes, o, 0);
    AskedIsProbed(cells, refs, answers);
    forall i | 0 <= i < |cells|
      ensures Cells(r.nodes, 0)[i] == if IsSecret(cells[i], refs, answers, |AskedAbout(cells[..i], refs)|)
        then Cell(cells[i].depth, cells[i].nodeRef, cells[i].role, cells[i].name, Some("[REDACTED]")) else cells[i]
    {
      AskedIsProbed(cells[..i], refs, answers);
      MaskedIsSecret(cells[i], refs, answers, |AskedAbout(cells[..i], refs)|);
      assert MaskedAt(Cells(r.nodes, 0), cells, o, 0, i);
    }
  }

  ghost predicate OnlyFirstMasked(cells: seq<Cell>, cells': seq<Cell>, nodeRef: string, k: nat) {
    && FirstHolder(cells, nodeRef, k)
    && cells' == cells[k := Cell(cells[k].depth, nodeRef, cells[k].role, cells[k].name, Some("[REDACTED]"))]
  }

  /** Masking by a ref replaces the value of the first node that has it by the placeholder, and nothing else. */
  lemma FirstHolderIsMasked(n: AxNode, nodeRef: string)
    ensures var r, cells := SearchOne(n, nodeRef), Cells([n], 0);
      && (r.found <==> exists c :: c in cells && c.nodeRef == nodeRef)
      && (!r.found ==> Cells(r.nodes, 0) == cells)
      && (r.found ==> exists k :: OnlyFirstMasked(cells, Cells(r.nodes, 0), nodeRef, k))
  {
    var cells := Cells([n], 0);
    SearchAllCells([n], nodeRef, 0);
    assert [n][1..] == [] && SearchAll([n], nodeRef) == SearchOne(n, nodeRef);
    if Holds(cells, nodeRef) {
      var k := FindHolder(cells, nodeRef);
      RedactRefMasksFirst(n, nodeRef, k);
      assert OnlyFirstMasked(cells, Cells(SearchOne(n, nodeRef).nodes, 0), nodeRef, k);
    } else {
      NotHeld(cells, nodeRef);
    }
  }

  // ----- The pass in place ------------------------------------------------------------------------

  /** The in-place pass over a snapshot's root, with what it masks and what it asks. */
  method RedactSnapshot(root: AxNode, refs: RefTable, answers: (nat, int) -> Probe)
    returns (root': AxNode, probed: seq<int>)
    ensures [root'] == RedactAll([root], PageOracle(refs, answers), 0).nodes
    ensures probed == AskedAbout(Cells([root], 0), refs)
  {
    var redactor := new Redactor(refs, answers);
    root' := redactor.RedactFormControlValues(root);
    probed := redactor.probed;
    assert [root][1..] == [];
    assert RedactAll([], PageOracle(refs, answers), |probed|) == Redacted([], []);
    SecretsAreMasked([root], refs, answers);
  }
}
