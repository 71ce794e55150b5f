/**
 * Telling a login wall from a page of content, by markers in the page, its visible length
 * and the hosts of the two URLs. The texts looked for are parameters; `HtmlMarkers` has the
 * ones that decide where the title is cut.
 */
module LoginWall {
  import opened Options
  import opened Utf8
  import opened VisibleText
  import opened VisibleTextFacts

  const THIN_PAGE_CHARS: nat := 500
  const TITLE_BYTES: nat := 300

  datatype Markers = Markers(
    tags: Tags, password: seq<Text>, titleOpen: Text, titleClose: Text, form: Text,
    loginWords: seq<Text>, ssoHosts: seq<Text>)

  predicate Contains(s: Text, pat: Text) {
    Find(s, pat).Some?
  }

  predicate ContainsAny(s: Text, pats: seq<Text>) {
    exists i :: 0 <= i < |pats| && Contains(s, pats[i])
  }

  /** The title of a page; `MidCharacter` is where the original panics: it cuts inside a character. */
  datatype Title = NoTitle | Title(text: Text) | MidCharacter

  function TitleOf(m: Markers, lower: Text): Title {
    match Find(lower, m.titleOpen)
    case None => NoTitle
    case Some(start) =>
      var rest := lower[start..];
      var end := match Find(rest, m.titleClose)
        case Some(p) => p
        case None => if |rest| < TITLE_BYTES then |rest| else TITLE_BYTES;
      if IsCharBoundary(rest, end) then Title(rest[..end]) else MidCharacter
  }

  /** Both hosts are known, and differ. */
  predicate HostChanged(requested: Option<Text>, final: Option<Text>) {
    requested.Some? && final.Some? && requested != final
  }

  /** Whether the page is a wall; nothing if the original panics. */
  function DetectAuthWall(m: Markers, requested: Option<Text>, final: Option<Text>, page: Text): Option<bool>
    requires TagsOk(m.tags)
  {
    var lower := Lower(page);
    var changed := HostChanged(requested, final);
    var password := ContainsAny(lower, m.password);
    var title := TitleOf(m, lower);
    if !password && title == MidCharacter then None else
      var marker := password || (title.Title? && ContainsAny(title.text, m.loginWords) && Contains(lower, m.form));
      var thin := VisibleLength(m.tags, page) < THIN_PAGE_CHARS;
      var sso := changed && ContainsAny(final.value, m.ssoHosts);
      Some((marker && (changed || thin)) || sso)
  }

  /** The closing tag of a title begins with a byte that no character continues with. */
  predicate MarkersOk(m: Markers) {
    TagsOk(m.tags) && m.titleClose != [] && !Continuation(m.titleClose[0])
  }

  ghost predicate FirstAt(s: Text, pat: Text, k: nat) {
    OccursAt(s, pat, k) && forall j: nat :: j < k ==> !OccursAt(s, pat, j)
  }

  /** A title starts at `start` and never closes, and its byte 300 continues a character. */
  ghost predicate CutInCharacter(m: Markers, lower: Text, start: nat) {
    && FirstAt(lower, m.titleOpen, start)
    && (forall k: nat :: k >= start ==> !OccursAt(lower, m.titleClose, k))
    && start + TITLE_BYTES < |lower| && Continuation(lower[start + TITLE_BYTES])
  }

  lemma FindIsFirst(s: Text, pat: Text, k: nat)
    ensures Find(s, pat) == Some(k) <==> FirstAt(s, pat, k)
  {
  }

  lemma FindFrom(s: Text, pat: Text, start: nat)
    requires start <= |s|
    ensures Find(s[start..], pat).None? <==> forall k: nat :: k >= start ==> !OccursAt(s, pat, k)
  {
    var rest := s[start..];
    forall k: nat | k >= start ensures OccursAt(s, pat, k) <==> OccursAt(rest, pat, k - start) {
    }
    match Find(rest, pat)
    case None =>
    case Some(p) => assert OccursAt(s, pat, start + p);
  }

  lemma TitleCut(m: Markers, lower: Text, start: nat)
    requires MarkersOk(m) && FirstAt(lower, m.titleOpen, start)
    ensures TitleOf(m, lower) == MidCharacter <==> CutInCharacter(m, lower, start)
  {
    FindIsFirst(lower, m.titleOpen, start);
    FindFrom(lower, m.titleClose, start);
    var rest := lower[start..];
    match Find(rest, m.titleClose)
    case Some(p) => assert rest[p + 0] == m.titleClose[0];
    case None => assert |rest| > TITLE_BYTES ==> rest[TITLE_BYTES] == lower[start + TITLE_BYTES];
  }

  /**
   * Detection panics exactly for a page without a password field whose title never closes
   * and whose byte 300, counted from the title's start, continues a character.
   */
  lemma DetectPanicsIff(m: Markers, requested: Option<Text>, final: Option<Text>, page: Text)
    requires MarkersOk(m)
    ensures DetectAuthWall(m, requested, final, page) == None <==>
      !ContainsAny(Lower(page), m.password) && exists start: nat :: CutInCharacter(m, Lower(page), start)
  {
    var lower := Lower(page);
    match Find(lower, m.titleOpen)
    case None =>
      forall start: nat ensures !CutInCharacter(m, lower, start) { FindIsFirst(lower, m.titleOpen, start); }
    case Some(at) =>
      FindIsFirst(lower, m.titleOpen, at);
      TitleCut(m, lower, at);
      forall start: nat | CutInCharacter(m, lower, start) ensures start == at {
        FindIsFirst(lower, m.titleOpen, start);
      }
  }

  /**
   * On one host, a page whose parts have 500 visible bytes between them is no wall, whatever
   * markers it has; how it is divided into parts makes no difference.
   */
  lemma LongPageIsNoWall(m: Markers, host: Option<Text>, parts: seq<Part>)
    requires TagsOk(m.tags) && PartsOk(m.tags, parts) && VisibleIn(parts) >= THIN_PAGE_CHARS
    ensures DetectAuthWall(m, host, host, AllBytes(parts)) != Some(true)
  {
    PartsDecide(m.tags, parts);
  }

  /** A shorter page on one host is a wall as soon as it has a password field. */
  lemma ThinPasswordPageIsWall(m: Markers, host: Option<Text>, parts: seq<Part>)
    requires TagsOk(m.tags) && PartsOk(m.tags, parts) && ContainsAny(Lower(AllBytes(parts)), m.password)
    ensures DetectAuthWall(m, host, host, AllBytes(parts)) == Some(VisibleIn(parts) < THIN_PAGE_CHARS)
  {
    PartsDecide(m.tags, parts);
  }

  // ----- What makes a wall -------------------------------------------------------------------------

  ghost predicate InPage(s: Text, pat: Text) {
    exists k: nat :: OccursAt(s, pat, k)
  }

  ghost predicate AnyIn(s: Text, pats: seq<Text>) {
    exists i :: 0 <= i < |pats| && InPage(s, pats[i])
  }

  lemma ContainsIff(s: Text, pat: Text)
    ensures Contains(s, pat) <==> InPage(s, pat)
  {
    if Find(s, pat).Some? { assert OccursAt(s, pat, Find(s, pat).value); }
  }

  lemma ContainsAnyIff(s: Text, pats: seq<Text>)
    ensures ContainsAny(s, pats) <==> AnyIn(s, pats)
  {
    forall i | 0 <= i < |pats| ensures Contains(s, pats[i]) <==> InPage(s, pats[i]) { ContainsIff(s, pats[i]); }
  }

  /** The first closing tag from `start` on is at `end`. */
  ghost predicate ClosesAt(s: Text, close: Text, start: nat, end: nat) {
    OccursAt(s, close, end) && forall k: nat :: start <= k < end ==> !OccursAt(s, close, k)
  }

  /** There is none, and `end` is 300 bytes on, or at the end of the page. */
  ghost predicate EndsOpen(s: Text, close: Text, start: nat, end: nat) {
    && (forall k: nat :: k >= start ==> !OccursAt(s, close, k))
    && end == if start + 300 <= |s| then start + 300 else |s|
  }

  /** The title runs from its first opening tag to the first closing one after that, or for 300 bytes at most. */
  ghost predicate TitleIs(m: Markers, lower: Text, start: nat, end: nat) {
    && FirstAt(lower, m.titleOpen, start) && start <= end <= |lower|
    && (ClosesAt(lower, m.titleClose, start, end) || EndsOpen(lower, m.titleClose, start, end))
  }

  ghost predicate TitleSaysLogin(m: Markers, lower: Text) {
    exists start: nat, end: nat :: TitleIs(m, lower, start, end) && AnyIn(lower[start..end], m.loginWords)
  }

  lemma FindLater(s: Text, pat: Text, start: nat, p: nat)
    requires start <= |s|
    ensures Find(s[start..], pat) == Some(p) ==> ClosesAt(s, pat, start, start + p)
  {
    var rest := s[start..];
    forall k: nat | k >= start ensures OccursAt(s, pat, k) <==> OccursAt(rest, pat, k - start) {
    }
  }

  /** The title that is looked at, if the page has one that can be cut. */
  lemma TitleFound(m: Markers, lower: Text) returns (start: nat, end: nat)
    requires TitleOf(m, lower).Title?
    ensures TitleIs(m, lower, start, end) && TitleOf(m, lower).text == lower[start..end]
  {
    start := Find(lower, m.titleOpen).value;
    FindIsFirst(lower, m.titleOpen, start);
    match Find(lower[start..], m.titleClose)
    case Some(p) =>
      FindLater(lower, m.titleClose, start, p);
      end := start + p;
      assert lower[start..][..p] == lower[start..end];
    case None =>
      FindFrom(lower, m.titleClose, start);
      end := if start + 300 <= |lower| then start + 300 else |lower|;
      assert lower[start..][..end - start] == lower[start..end];
  }

  lemma TitleUnique(m: Markers, lower: Text, a: nat, b: nat, c: nat, d: nat)
    requires TitleIs(m, lower, a, b) && TitleIs(m, lower, c, d)
    ensures a == c && b == d
  {
    assert a == c;
  }

  lemma SaysLoginIff(m: Markers, lower: Text)
    requires TitleOf(m, lower) != MidCharacter
    ensures var title := TitleOf(m, lower);
      title.Title? && ContainsAny(title.text, m.loginWords) <==> TitleSaysLogin(m, lower)
  {
    if TitleOf(m, lower).Title? {
      var start, end := TitleFound(m, lower);
      ContainsAnyIff(lower[start..end], m.loginWords);
      forall a: nat, b: nat | TitleIs(m, lower, a, b) ensures a == start && b == end {
        TitleUnique(m, lower, a, b, start, end);
      }
    } else {
      forall a: nat, b: nat ensures !TitleIs(m, lower, a, b) { FindIsFirst(lower, m.titleOpen, a); }
    }
  }

  /**
   * A page is a wall exactly when it has a password field, or a title that says so with a form,
   * and is on another host than asked for or has fewer than 500 visible bytes; or when it is on
   * another host that looks like a sign-on host.
   */
  lemma WallIff(m: Markers, requested: Option<Text>, final: Option<Text>, parts: seq<Part>)
    requires TagsOk(m.tags) && PartsOk(m.tags, parts)
    requires DetectAuthWall(m, requested, final, AllBytes(parts)).Some?
    ensures var lower := Lower(AllBytes(parts));
      var away := requested.Some? && final.Some? && requested.value != final.value;
      var marked := AnyIn(lower, m.password) || (TitleSaysLogin(m, lower) && InPage(lower, m.form));
      DetectAuthWall(m, requested, final, AllBytes(parts)) == Some(true) <==>
        (marked && (away || VisibleIn(parts) < 500)) || (away && AnyIn(final.value, m.ssoHosts))
  {
    var lower := Lower(AllBytes(parts));
    PartsDecide(m.tags, parts);
    ContainsAnyIff(lower, m.password);
    ContainsIff(lower, m.form);
    if final.Some? { ContainsAnyIff(final.value, m.ssoHosts); }
    if TitleOf(m, lower) != MidCharacter { SaysLoginIff(m, lower); }
  }

  // ----- A page that panics ----------------------------------------------------------------------

  /** The password markers, `<title`, `</title>` and `<form` of the original. */
  function HtmlMarkers(loginWords: seq<Text>, ssoHosts: seq<Text>): Markers {
    var password: Text := [0x70, 0x61, 0x73, 0x73, 0x77, 0x6F, 0x72, 0x64];
    var typeIs: Text := [0x74, 0x79, 0x70, 0x65, 0x3D];
    Markers(HtmlTags(),
            [typeIs + [0x22] + password + [0x22], typeIs + [0x27] + password + [0x27], typeIs + password],
            [0x3C, 0x74, 0x69, 0x74, 0x6C, 0x65],
            [0x3C, 0x2F, 0x74, 0x69, 0x74, 0x6C, 0x65, 0x3E],
            [0x3C, 0x66, 0x6F, 0x72, 0x6D], loginWords, ssoHosts)
  }

  function Repeat(b: Byte, n: nat): (r: Text)
    ensures |r| == n && forall i :: 0 <= i < n ==> r[i] == b
  {
    seq(n, _ => b)
  }

  const SLASH: Byte := 0x2F
  const LOWER_Y: Byte := 0x79

  /** What the page below needs of the markers: bytes it does not have. */
  predicate HtmlLike(m: Markers) {
    && MarkersOk(m) && |m.titleOpen| == 6 && Quiet(m.titleOpen)
    && |m.titleClose| > 1 && m.titleClose[1] == SLASH
    && forall i :: 0 <= i < |m.password| ==> |m.password[i]| > 1 && m.password[i][1] == LOWER_Y
  }

  /** ASCII without capitals, slashes or `y`. */
  predicate Quiet(s: Text) {
    forall i :: 0 <= i < |s| ==> s[i] < 0x80 && LowerByte(s[i]) == s[i] && s[i] != SLASH && s[i] != LOWER_Y
  }

  lemma HtmlMarkersAre(loginWords: seq<Text>, ssoHosts: seq<Text>)
    ensures var m := HtmlMarkers(loginWords, ssoHosts);
      && IsText(m.titleOpen, "<title") && IsText(m.titleClose, "</title>") && IsText(m.form, "<form")
      && |m.password| == 3 && IsText(m.password[0], "type=\"password\"")
      && IsText(m.password[1], "type='password'") && IsText(m.password[2], "type=password")
  {
  }

  lemma HtmlMarkersAreHtmlLike(loginWords: seq<Text>, ssoHosts: seq<Text>)
    ensures HtmlLike(HtmlMarkers(loginWords, ssoHosts))
  {
  }

  /** The opening of a title, 293 times `a`, and an `é`: 301 bytes. */
  function OpenTitlePage(m: Markers): Text {
    m.titleOpen + Repeat(0x61, 293) + [0xC3, 0xA9]
  }

  lemma {:induction false} AsciiPrefix(a: Text, b: Text)
    requires WellFormed(b) && forall i :: 0 <= i < |a| ==> a[i] < 0x80
    ensures WellFormed(a + b)
  {
    if a == [] {
      assert a + b == b;
    } else {
      AsciiPrefix(a[1..], b);
      assert (a + b)[0] == a[0] && (a + b)[1..] == a[1..] + b;
    }
  }

  lemma NoOccurrence(s: Text, pat: Text, i: nat)
    requires i < |pat| && pat[i] !in s
    ensures forall k: nat :: !OccursAt(s, pat, k)
  {
    forall k: nat ensures !OccursAt(s, pat, k) {
      if k + |pat| <= |s| { assert s[k + i] in s; }
    }
  }

  lemma NotFound(s: Text, pats: seq<Text>, b: Byte)
    requires b !in s && forall i :: 0 <= i < |pats| ==> 1 < |pats[i]| && pats[i][1] == b
    ensures !ContainsAny(s, pats)
  {
    forall i | 0 <= i < |pats| ensures !Contains(s, pats[i]) { NoOccurrence(s, pats[i], 1); }
  }

  lemma OpenTitlePageBytes(m: Markers)
    requires HtmlLike(m)
    ensures var page := OpenTitlePage(m);
      && |page| == 301 && WellFormed(page) && Lower(page) == page
      && page[300] == 0xA9 && SLASH !in page && LOWER_Y !in page && FirstAt(page, m.titleOpen, 0)
  {
    var front: Text := m.titleOpen + Repeat(0x61, 293);
    assert Quiet(front);
    AsciiPrefix(front, [0xC3, 0xA9]);
    var page := OpenTitlePage(m);
    assert forall i :: 0 <= i < 299 ==> page[i] == front[i];
    assert forall i :: 0 <= i < |page| ==> LowerByte(page[i]) == page[i];
    assert Lower(page) == page;
  }

  lemma OpenTitlePagePanics(m: Markers, requested: Option<Text>, final: Option<Text>)
    requires HtmlLike(m)
    ensures WellFormed(OpenTitlePage(m)) && DetectAuthWall(m, requested, final, OpenTitlePage(m)) == None
  {
    var page := OpenTitlePage(m);
    OpenTitlePageBytes(m);
    NoOccurrence(page, m.titleClose, 1);
    NotFound(page, m.password, LOWER_Y);
    assert CutInCharacter(m, Lower(page), 0);
    DetectPanicsIff(m, requested, final, page);
  }

  /** A well-formed page, with an unclosed title, on which detection panics. */
  lemma OpenTitlePanics(
    loginWords: seq<Text>, ssoHosts: seq<Text>, requested: Option<Text>, final: Option<Text>)
    ensures var m := HtmlMarkers(loginWords, ssoHosts);
      WellFormed(OpenTitlePage(m)) && DetectAuthWall(m, requested, final, OpenTitlePage(m)) == None
  {
    HtmlMarkersAreHtmlLike(loginWords, ssoHosts);
    OpenTitlePagePanics(HtmlMarkers(loginWords, ssoHosts), requested, final);
  }
}
