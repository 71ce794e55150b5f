/**
 * The scan measures what the parts of a page say: there is a division into plain bytes,
 * tags, scripts and styles, and any such division gives the scan's count.
 */
module VisibleTextFacts {
  import opened Options
  import opened Utf8
  import opened VisibleText

  lemma FindIs(s: Text, pat: Text, at: nat)
    requires OccursAt(s, pat, at) && forall k: nat :: k < at ==> !OccursAt(s, pat, k)
    ensures Find(s, pat) == Some(at)
  {
  }

  lemma LowerAppend(a: Text, b: Text)
    ensures Lower(a + b) == Lower(a) + Lower(b)
  {
  }

  lemma LowerTake(s: Text, n: nat)
    requires n <= |s|
    ensures Lower(s)[..n] == Lower(s[..n])
  {
  }

  /** Whether `pat` occurs at `k` only depends on the bytes up to its end. */
  lemma OccursWithin(a: Text, b: Text, pat: Text, k: nat)
    requires k + |pat| <= |a|
    ensures OccursAt(a + b, pat, k) <==> OccursAt(a, pat, k)
  {
    assert forall i :: 0 <= i < |a| ==> (a + b)[i] == a[i];
  }

  lemma FindEnclosed(a: Text, b: Text, close: Text, at: nat)
    requires at + |close| == |a| && OccursAt(a, close, at) && forall k: nat :: k < at ==> !OccursAt(a, close, k)
    ensures Find(a + b, close) == Some(at)
  {
    SameOccurrences(a, b, close);
    FindIs(a + b, close, at);
  }

  lemma EnclosedEnd(text: Text, rest: Text, open: Text, close: Text)
    requires Encloses(text, open, close) && |open| <= |text|
    ensures Find(Lower(text + rest), close) == Some(|text| - |close|)
    ensures StartsWith(Lower(text + rest), open)
  {
    var a, b, at := Lower(text), Lower(rest), |text| - |close|;
    LowerAppend(text, rest);
    OccursWithin(a, b, open, 0);
    FindEnclosed(a, b, close, at);
  }

  lemma FindByte(s: Text, b: Byte, at: nat)
    requires at < |s| && s[at] == b && forall i :: 0 <= i < at ==> s[i] != b
    ensures Find(s, [b]) == Some(at)
  {
    assert forall k: nat :: OccursAt(s, [b], k) ==> s[k] == [b][0];
    FindIs(s, [b], at);
  }

  lemma FindNoByte(s: Text, b: Byte)
    requires b !in s
    ensures Find(s, [b]) == None
  {
    assert forall k: nat :: OccursAt(s, [b], k) ==> s[k] == [b][0];
  }

  lemma LowerKeepsGt(s: Text)
    ensures forall i :: 0 <= i < |s| ==> (Lower(s)[i] == GT <==> s[i] == GT)
  {
  }

  lemma ElementAdvances(t: Tags, text: Text, rest: Text)
    requires TagsOk(t) && PartOk(t, Element(text), text + rest)
    ensures Advance(t, Lower(text + rest)) == Some(|text|)
  {
    var page := text + rest;
    var starts := StartsWith(Lower(page), t.script);
    var open, close := if starts then t.script else t.style, if starts then t.scriptEnd else t.styleEnd;
    if Encloses(text, open, close) {
      EnclosedEnd(text, rest, open, close);
    } else {
      assert Find(Lower(page), close) == None;
    }
  }

  lemma TagAdvances(t: Tags, text: Text, rest: Text)
    requires TagsOk(t) && PartOk(t, Tag(text), text + rest)
    ensures Advance(t, Lower(text + rest)) == Some(|text|)
  {
    var page, n := text + rest, |text| - 1;
    FirstGt(text, rest);
    LowerKeepsGt(page);
    FindByte(Lower(page), GT, n);
  }

  lemma FirstGt(text: Text, rest: Text)
    requires text != [] && text[|text| - 1] == GT && GT !in text[..|text| - 1]
    ensures (text + rest)[|text| - 1] == GT && forall i :: 0 <= i < |text| - 1 ==> (text + rest)[i] != GT
  {
    assert forall i :: 0 <= i < |text| - 1 ==> (text + rest)[i] == text[..|text| - 1][i];
  }

  lemma UnclosedStops(t: Tags, text: Text)
    requires TagsOk(t) && PartOk(t, Unclosed(text), text)
    ensures Advance(t, Lower(text)) == None
  {
    LowerKeepsGt(text);
    FindNoByte(Lower(text), GT);
  }

  /** Every division of a page into allowed parts gives the scan's count. */
  lemma {:induction false} PartsDecide(t: Tags, parts: seq<Part>)
    requires TagsOk(t) && PartsOk(t, parts)
    ensures VisibleLength(t, AllBytes(parts)) == VisibleIn(parts)
  {
    if parts != [] {
      var part, rest := parts[0], AllBytes(parts[1..]);
      var page := Bytes(part) + rest;
      PartsDecide(t, parts[1..]);
      assert page[|Bytes(part)|..] == rest;
      match part
      case Plain(_) =>
      case Element(text) => ElementAdvances(t, text, rest);
      case Tag(text) => TagAdvances(t, text, rest);
      case Unclosed(text) =>
        UnclosedStops(t, text);
        NothingLeft(t, parts[1..]);
    }
  }

  lemma {:induction false} NothingLeft(t: Tags, parts: seq<Part>)
    requires PartsOk(t, parts) && AllBytes(parts) == []
    ensures parts == []
  {
  }

  /** The part at the front of a page. */
  function FirstPart(t: Tags, page: Text): (p: Part)
    requires TagsOk(t) && page != []
    ensures Bytes(p) <= page && Bytes(p) != []
  {
    if page[0] != LT then Plain(page[0])
    else
      match Advance(t, Lower(page))
      case None => Unclosed(page)
      case Some(n) =>
        if StartsWith(Lower(page), t.script) || StartsWith(Lower(page), t.style) then Element(page[..n])
        else Tag(page[..n])
  }

  lemma OccursInFront(s: Text, pat: Text, n: nat, k: nat)
    requires k + |pat| <= n <= |s|
    ensures OccursAt(s[..n], pat, k) <==> OccursAt(s, pat, k)
  {
    assert forall i :: 0 <= i < n ==> s[..n][i] == s[i];
  }

  lemma FrontEncloses(s: Text, open: Text, close: Text, p: nat)
    requires |open| <= |close| && StartsWith(s, open) && OccursAt(s, close, p)
    requires forall k: nat :: k < p ==> !OccursAt(s, close, k)
    ensures var front := s[..p + |close|];
      StartsWith(front, open) && OccursAt(front, close, p) && forall k: nat :: k < p ==> !OccursAt(front, close, k)
  {
    var n := p + |close|;
    OccursInFront(s, open, n, 0);
    OccursInFront(s, close, n, p);
    forall k: nat | k < p ensures !OccursAt(s[..n], close, k) { OccursInFront(s, close, n, k); }
  }

  lemma IsEnclosed(text: Text, lower: Text, open: Text, close: Text, p: nat)
    requires lower == Lower(text) && |text| == p + |close| && StartsWith(lower, open) && OccursAt(lower, close, p)
    requires forall k: nat :: k < p ==> !OccursAt(lower, close, k)
    ensures Encloses(text, open, close)
  {
  }

  /** A closing tag at `p`, and none before: the text up to its end is enclosed. */
  lemma EnclosedTo(page: Text, lower: Text, open: Text, close: Text, p: nat)
    requires lower == Lower(page) && |open| <= |close| && StartsWith(lower, open) && OccursAt(lower, close, p)
    requires forall k: nat :: k < p ==> !OccursAt(lower, close, k)
    ensures p + |close| <= |page| && Encloses(page[..p + |close|], open, close)
  {
    FrontEncloses(lower, open, close, p);
    LowerTake(page, p + |close|);
    IsEnclosed(page[..p + |close|], lower[..p + |close|], open, close, p);
  }

  lemma ElementTo(page: Text, open: Text, close: Text, n: nat)
    requires 0 < |open| <= |close| && StartsWith(Lower(page), open) && n <= |page|
    requires match Find(Lower(page), close) case None => n == |page| case Some(p) => n == p + |close|
    ensures Encloses(page[..n], open, close) || (page[..n] == page && NeverEnds(page[..n], open, close))
  {
    match Find(Lower(page), close)
    case None => assert page[..n] == page;
    case Some(p) => EnclosedTo(page, Lower(page), open, close, p);
  }

  lemma FirstElementOk(page: Text, open: Text, close: Text)
    requires 0 < |open| <= |close| && StartsWith(Lower(page), open)
    ensures var text := page[..PastEnd(Lower(page), close)];
      Encloses(text, open, close) || (text == page && NeverEnds(text, open, close))
  {
    ElementTo(page, open, close, PastEnd(Lower(page), close));
  }

  lemma SameOccurrences(a: Text, b: Text, pat: Text)
    ensures forall k: nat :: k + |pat| <= |a| ==> (OccursAt(a + b, pat, k) <==> OccursAt(a, pat, k))
  {
    forall k: nat | k + |pat| <= |a| ensures OccursAt(a + b, pat, k) <==> OccursAt(a, pat, k) {
      OccursWithin(a, b, pat, k);
    }
  }

  lemma TagText(page: Text, p: nat)
    requires p < |page| && page[p] == GT && forall i :: 0 <= i < p ==> page[i] != GT
    ensures var text := page[..p + 1]; text[|text| - 1] == GT && GT !in text[..|text| - 1]
  {
  }

  lemma FindGt(s: Text)
    ensures var r := Find(s, [GT]);
      if r.None? then GT !in s else r.value < |s| && s[r.value] == GT && forall i :: 0 <= i < r.value ==> s[i] != GT
  {
    forall i: nat | i < |s| && s[i] == GT ensures OccursAt(s, [GT], i) {
    }
    match Find(s, [GT])
    case None =>
    case Some(p) => assert s[p + 0] == [GT][0];
  }

  lemma GtNowhere(page: Text)
    requires GT !in Lower(page)
    ensures GT !in page
  {
    LowerKeepsGt(page);
    forall i | 0 <= i < |page| ensures page[i] != GT { assert Lower(page)[i] in Lower(page); }
  }

  /** A page that begins with no script and no style begins with a tag, or is one that never closes. */
  function TagOrRest(page: Text): Part {
    match Find(Lower(page), [GT])
    case None => Unclosed(page)
    case Some(p) => if p < |page| then Tag(page[..p + 1]) else Tag(page)
  }

  lemma FirstPartIsTag(t: Tags, page: Text)
    requires TagsOk(t) && page != [] && page[0] == LT
    requires !StartsWith(Lower(page), t.script) && !StartsWith(Lower(page), t.style)
    ensures FirstPart(t, page) == TagOrRest(page)
  {
    FindGt(Lower(page));
  }

  lemma TagOk(t: Tags, page: Text, p: nat)
    requires p < |page| && page[0] == LT && Lower(page)[p] == GT && forall i :: 0 <= i < p ==> Lower(page)[i] != GT
    requires !StartsWith(Lower(page), t.script) && !StartsWith(Lower(page), t.style)
    ensures PartOk(t, Tag(page[..p + 1]), page)
  {
    LowerKeepsGt(page);
    TagText(page, p);
  }

  lemma UnclosedOk(t: Tags, page: Text)
    requires page != [] && page[0] == LT && GT !in Lower(page)
    requires !StartsWith(Lower(page), t.script) && !StartsWith(Lower(page), t.style)
    ensures PartOk(t, Unclosed(page), page)
  {
    GtNowhere(page);
  }

  lemma FirstTagOk(t: Tags, page: Text)
    requires TagsOk(t) && page != [] && page[0] == LT
    requires !StartsWith(Lower(page), t.script) && !StartsWith(Lower(page), t.style)
    ensures PartOk(t, TagOrRest(page), page)
  {
    FindGt(Lower(page));
    match Find(Lower(page), [GT])
    case None => UnclosedOk(t, page);
    case Some(p) => TagOk(t, page, p);
  }

  lemma FirstPartOk(t: Tags, page: Text)
    requires TagsOk(t) && page != []
    ensures PartOk(t, FirstPart(t, page), page)
  {
    if page[0] == LT {
      if StartsWith(Lower(page), t.script) {
        FirstElementOk(page, t.script, t.scriptEnd);
      } else if StartsWith(Lower(page), t.style) {
        FirstElementOk(page, t.style, t.styleEnd);
      } else {
        FirstPartIsTag(t, page);
        FirstTagOk(t, page);
      }
    }
  }

  /** Every page can be divided so. */
  lemma {:induction false} PartsExist(t: Tags, page: Text) returns (parts: seq<Part>)
    requires TagsOk(t)
    ensures PartsOk(t, parts) && AllBytes(parts) == page
    decreases |page|
  {
    if page == [] {
      parts := [];
    } else {
      var first := FirstPart(t, page);
      FirstPartOk(t, page);
      var rest := PartsExist(t, page[|Bytes(first)|..]);
      parts := [first] + rest;
      assert page == Bytes(first) + AllBytes(rest);
      PartsOfCons(t, first, rest, page);
    }
  }

  lemma PartsOfCons(t: Tags, first: Part, rest: seq<Part>, page: Text)
    requires PartOk(t, first, page) && PartsOk(t, rest)
    requires page == Bytes(first) + AllBytes(rest)
    ensures PartsOk(t, [first] + rest) && AllBytes([first] + rest) == page
  {
    var parts := [first] + rest;
    assert parts[1..] == rest;
  }

  /** The count is that of the parts of the page, and never more than its bytes. */
  lemma VisibleLengthIsParts(t: Tags, page: Text)
    requires TagsOk(t)
    ensures exists parts :: PartsOk(t, parts) && AllBytes(parts) == page && VisibleLength(t, page) == VisibleIn(parts)
    ensures forall parts :: PartsOk(t, parts) && AllBytes(parts) == page ==> VisibleLength(t, page) == VisibleIn(parts)
  {
    var parts := PartsExist(t, page);
    PartsDecide(t, parts);
    forall other | PartsOk(t, other) && AllBytes(other) == page ensures VisibleLength(t, page) == VisibleIn(other) {
      PartsDecide(t, other);
    }
  }

  // ----- What the count does not depend on -----------------------------------------------------------

  lemma LowerTwice(s: Text)
    ensures Lower(Lower(s)) == Lower(s)
  {
  }

  /** Letter case does not matter. */
  lemma {:induction false} CaseDoesNotMatter(t: Tags, page: Text)
    requires TagsOk(t)
    ensures VisibleLength(t, Lower(page)) == VisibleLength(t, page)
    decreases |page|
  {
    if page != [] {
      LowerTwice(page);
      var n := if page[0] != LT then 1 else UnwrapOr(Advance(t, Lower(page)), 0);
      if n > 0 {
        LowerSlice(page, n);
        CaseDoesNotMatter(t, page[n..]);
      }
    }
  }

  // ----- The texts themselves ---------------------------------------------------------------------

  /** The bytes of an ASCII text. */
  predicate IsText(t: Text, s: string) {
    |t| == |s| && forall i :: 0 <= i < |t| ==> t[i] == s[i] as int
  }

  lemma HtmlTagsAre()
    ensures IsText(HtmlTags().script, "<script") && IsText(HtmlTags().scriptEnd, "</script>")
    ensures IsText(HtmlTags().style, "<style") && IsText(HtmlTags().styleEnd, "</style>")
    ensures IsText([LT], "<") && IsText([GT], ">")
  {
  }

  /** Letters are lowered, and nothing else. */
  lemma LowerIs(s: Text, i: nat)
    requires i < |s|
    ensures Lower(s)[i] == if 'A' as int <= s[i] <= 'Z' as int then s[i] - 'A' as int + 'a' as int else s[i]
  {
  }

  function NonSpace(s: Text): nat {
    if s == [] then 0 else (if IsAsciiSpace(s[0]) then 0 else 1) + NonSpace(s[1..])
  }

  /** Text without a `<` counts in full, whatever follows it. */
  lemma {:induction false} PlainTextCounts(t: Tags, text: Text, page: Text)
    requires TagsOk(t) && LT !in text
    ensures VisibleLength(t, text + page) == NonSpace(text) + VisibleLength(t, page)
  {
    if text == [] {
      assert text + page == page;
    } else {
      assert (text + page)[1..] == text[1..] + page && (text + page)[0] == text[0];
      PlainTextCounts(t, text[1..], page);
    }
  }
}
