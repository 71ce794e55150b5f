/**
 * Measuring the visible text of a page: one pass over the bytes that skips tags and the
 * bodies of scripts and styles, for telling a thin login page from a page of content.
 */
module VisibleText {
  import opened Options
  import opened Utf8

  // ----- Searching text ---------------------------------------------------------------------

  function LowerByte(b: Byte): Byte {
    if 0x41 <= b <= 0x5A then b + 0x20 else b
  }

  function Lower(s: Text): (r: Text)
    ensures |r| == |s| && forall i :: 0 <= i < |s| ==> r[i] == LowerByte(s[i])
  {
    seq(|s|, i requires 0 <= i < |s| => LowerByte(s[i]))
  }

  predicate OccursAt(s: Text, pat: Text, k: nat) {
    k + |pat| <= |s| && forall i :: 0 <= i < |pat| ==> s[k + i] == pat[i]
  }

  predicate StartsWith(s: Text, pat: Text) {
    OccursAt(s, pat, 0)
  }

  /** Where `pat` first occurs. */
  function Find(s: Text, pat: Text): (r: Option<nat>)
    ensures r.Some? ==> OccursAt(s, pat, r.value)
    ensures forall k: nat :: (r.Some? ==> k < r.value) ==> !OccursAt(s, pat, k)
  {
    if StartsWith(s, pat) then Some(0)
    else if s == [] then None
    else
      var rest := Find(s[1..], pat);
      assert forall k: nat :: k >= 1 ==> (OccursAt(s, pat, k) <==> OccursAt(s[1..], pat, k - 1));
      if rest.Some? then Some(rest.value + 1) else None
  }

  const LT: Byte := 0x3C
  const GT: Byte := 0x3E

  predicate IsAsciiSpace(b: Byte) {
    b == 0x20 || b == 0x09 || b == 0x0A || b == 0x0C || b == 0x0D
  }

  /** The opening and closing tags of the two elements whose bodies are no text, in lower case. */
  datatype Tags = Tags(script: Text, scriptEnd: Text, style: Text, styleEnd: Text)

  /** `<script`, `</script>`, `<style`, `</style>`. */
  function HtmlTags(): Tags {
    Tags([0x3C, 0x73, 0x63, 0x72, 0x69, 0x70, 0x74],
         [0x3C, 0x2F, 0x73, 0x63, 0x72, 0x69, 0x70, 0x74, 0x3E],
         [0x3C, 0x73, 0x74, 0x79, 0x6C, 0x65],
         [0x3C, 0x2F, 0x73, 0x74, 0x79, 0x6C, 0x65, 0x3E])
  }

  /** What the scan relies on: every closing tag is at least as long as its opening one. */
  predicate TagsOk(t: Tags) {
    0 < |t.script| <= |t.scriptEnd| && 0 < |t.style| <= |t.styleEnd|
  }

  // ----- One step of the scan ------------------------------------------------------------------

  function PastEnd(rest: Text, close: Text): (n: nat)
    ensures n <= |rest| && (rest != [] && close != [] ==> n > 0)
  {
    match Find(rest, close)
    case Some(p) => p + |close|
    case None => |rest|
  }

  /** How far to go from a `<`; nothing if no `>` follows. `lower` is in lower case. */
  function Advance(t: Tags, lower: Text): (n: Option<nat>)
    requires TagsOk(t)
    ensures lower != [] && n.Some? ==> 0 < n.value <= |lower|
  {
    if StartsWith(lower, t.script) then Some(PastEnd(lower, t.scriptEnd))
    else if StartsWith(lower, t.style) then Some(PastEnd(lower, t.styleEnd))
    else
      match Find(lower, [GT])
      case Some(p) => Some(p + 1)
      case None => None
  }

  // ----- What is visible, by the parts of a page ------------------------------------------------

  datatype Part =
    | Plain(byte: Byte)
    | Element(text: Text)
    | Tag(text: Text)
    | Unclosed(text: Text)

  function Bytes(p: Part): Text {
    match p
    case Plain(b) => [b]
    case Element(text) => text
    case Tag(text) => text
    case Unclosed(text) => text
  }

  function AllBytes(parts: seq<Part>): Text {
    if parts == [] then [] else Bytes(parts[0]) + AllBytes(parts[1..])
  }

  /** `text` runs from an opening tag to the end of the first closing one. */
  ghost predicate Encloses(text: Text, open: Text, close: Text) {
    && StartsWith(Lower(text), open) && |close| <= |text|
    && OccursAt(Lower(text), close, |text| - |close|)
    && forall k: nat :: k < |text| - |close| ==> !OccursAt(Lower(text), close, k)
  }

  /** An element that never ends takes the rest of the page. */
  ghost predicate NeverEnds(text: Text, open: Text, close: Text) {
    StartsWith(Lower(text), open) && forall k: nat :: !OccursAt(Lower(text), close, k)
  }

  /** `part`, at the front of `page`, is what the grammar of the scan allows there. */
  ghost predicate PartOk(t: Tags, part: Part, page: Text) {
    match part
    case Plain(b) => b != LT
    case Element(text) =>
      var starts := StartsWith(Lower(page), t.script);
      var open, close := if starts then t.script else t.style, if starts then t.scriptEnd else t.styleEnd;
      && text != [] && text[0] == LT
      && (Encloses(text, open, close) || (text == page && NeverEnds(text, open, close)))
    case Tag(text) =>
      && text != [] && text[0] == LT && text[|text| - 1] == GT && GT !in text[..|text| - 1]
      && !StartsWith(Lower(page), t.script) && !StartsWith(Lower(page), t.style)
    case Unclosed(text) =>
      && text == page && text != [] && text[0] == LT && GT !in text
      && !StartsWith(Lower(page), t.script) && !StartsWith(Lower(page), t.style)
  }

  ghost predicate PartsOk(t: Tags, parts: seq<Part>) {
    parts == [] || (PartOk(t, parts[0], AllBytes(parts)) && PartsOk(t, parts[1..]))
  }

  /** Every plain byte but space, tab, line feed, form feed and carriage return. */
  function VisibleIn(parts: seq<Part>): nat {
    if parts == [] then 0 else
      (if parts[0].Plain? && parts[0].byte !in {0x20, 0x09, 0x0A, 0x0C, 0x0D} then 1 else 0) + VisibleIn(parts[1..])
  }

  // ----- The scan ---------------------------------------------------------------------------------

  function VisibleLength(t: Tags, page: Text): nat
    requires TagsOk(t)
    decreases |page|
  {
    if page == [] then 0
    else if page[0] != LT then (if IsAsciiSpace(page[0]) then 0 else 1) + VisibleLength(t, page[1..])
    else
      match Advance(t, Lower(page))
      case Some(n) => VisibleLength(t, page[n..])
      case None => 0
  }

  lemma {:induction false} LowerSlice(s: Text, i: nat)
    requires i <= |s|
    ensures Lower(s)[i..] == Lower(s[i..])
  {
  }

  /** Slicing text: the original panics unless `i` is a character boundary. */
  function From(s: Text, i: nat): Text
    requires i <= |s| && IsCharBoundary(s, i)
  {
    s[i..]
  }

  lemma PlainStep(t: Tags, html: Text, i: nat)
    requires TagsOk(t) && i < |html| && html[i] != LT
    ensures VisibleLength(t, html[i..]) == (if IsAsciiSpace(html[i]) then 0 else 1) + VisibleLength(t, html[i + 1..])
  {
    assert html[i..][1..] == html[i + 1..];
  }

  lemma MarkStep(t: Tags, html: Text, i: nat)
    requires TagsOk(t) && i < |html| && html[i] == LT
    ensures var n := Advance(t, Lower(html)[i..]);
      if n.None? then VisibleLength(t, html[i..]) == 0
      else 0 < n.value <= |html| - i && VisibleLength(t, html[i..]) == VisibleLength(t, html[i + n.value..])
  {
    LowerSlice(html, i);
    var n := Advance(t, Lower(html)[i..]);
    if n.Some? { assert html[i..][n.value..] == html[i + n.value..]; }
  }

  /** The same, counted from a place in the page. */
  function VisibleFrom(t: Tags, html: Text, lower: Text, i: nat): nat
    requires TagsOk(t) && |lower| == |html| && i <= |html|
    decreases |html| - i
  {
    if i == |html| then 0
    else if html[i] != LT then (if IsAsciiSpace(html[i]) then 0 else 1) + VisibleFrom(t, html, lower, i + 1)
    else
      match Advance(t, lower[i..])
      case Some(n) => VisibleFrom(t, html, lower, i + n)
      case None => 0
  }

  lemma {:induction false} FromIsLength(t: Tags, html: Text, i: nat)
    requires TagsOk(t) && i <= |html|
    ensures VisibleFrom(t, html, Lower(html), i) == VisibleLength(t, html[i..])
    decreases |html| - i
  {
    if i < |html| {
      if html[i] != LT {
        PlainStep(t, html, i);
        FromIsLength(t, html, i + 1);
      } else {
        MarkStep(t, html, i);
        var n := Advance(t, Lower(html)[i..]);
        if n.Some? { FromIsLength(t, html, i + n.value); }
      }
    }
  }

  lemma LowerMark(html: Text, i: nat)
    requires i < |html| && html[i] == LT
    ensures IsCharBoundary(Lower(html), i)
  {
    assert Lower(html)[i] == LT;
  }

  method Scan(t: Tags, html: Text) returns (out: nat)
    requires TagsOk(t)
    ensures out == VisibleLength(t, html)
  {
    var lower := Lower(html);
    out := 0;
    var i: nat := 0;
    while i < |html|
      invariant i <= |html|
      invariant VisibleFrom(t, html, lower, 0) == out + VisibleFrom(t, html, lower, i)
      decreases |html| - i
    {
      if html[i] == LT {
        LowerMark(html, i);
        var rest := From(lower, i);
        match Advance(t, rest) {
          case Some(n) =>
            i := i + n;
          case None =>
            break;
        }
      } else {
        if !IsAsciiSpace(html[i]) {
          out := out + 1;
        }
        i := i + 1;
      }
    }
    FromIsLength(t, html, 0);
    assert html[0..] == html;
  }

  method VisibleTextLen(html: Text) returns (out: nat)
    ensures out == VisibleLength(HtmlTags(), html)
  {
    out := Scan(HtmlTags(), html);
  }
}
