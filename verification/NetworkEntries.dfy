/**
 * What the entries of the capture log say, and which of them a query returns, in terms of the
 * events and of plain text.
 */
module NetworkEntries {
  import opened Options
  import opened Utf8
  import opened NetworkCapture
  import opened NetworkFacts

  // ----- Requests in flight ----------------------------------------------------------------

  /** The event ends whatever is in flight under the id. */
  predicate EndsId(e: Event, id: string) {
    e.Reset? || ((e.Request? || e.Complete? || e.Failed?) && e.id == id)
  }

  lemma {:induction false} LiveIff(h: seq<Event>, id: string, i: nat)
    ensures Live(h, id) == Some(i) <==>
      i < |h| && h[i].Request? && h[i].id == id && forall k :: i < k < |h| ==> !EndsId(h[k], id)
  {
    if h != [] {
      var init, last := h[..|h| - 1], h[|h| - 1];
      LiveIff(init, id, i);
      assert forall k :: 0 <= k < |init| ==> init[k] == h[k];
    }
  }

  /** A request is in flight until the next request, end or failure of its id, or a reset; a clear does not end it. */
  lemma InFlightIff(h: seq<Event>, i: nat)
    requires i < |h|
    ensures InFlight(h, i) <==> h[i].Request? && forall k :: i < k < |h| ==> !EndsId(h[k], h[i].id)
  {
    if h[i].Request? { LiveIff(h, h[i].id, i); }
  }

  // ----- What is known of a request --------------------------------------------------------------

  predicate IsResponseTo(h: seq<Event>, i: nat, k: int) {
    i < k < |h| && h[i].Request? && h[k].Response? && h[k].id == h[i].id
  }

  /** The last response to the request at `i`. */
  ghost predicate LastResponse(h: seq<Event>, i: nat, k: int) {
    IsResponseTo(h, i, k) && forall l :: k < l < |h| ==> !IsResponseTo(h, i, l)
  }

  /** The last one that names a content type. */
  ghost predicate LastTyped(h: seq<Event>, i: nat, k: int) {
    IsResponseTo(h, i, k) && h[k].kind != "" && forall l :: k < l < |h| && IsResponseTo(h, i, l) ==> h[l].kind == ""
  }

  ghost predicate StatusKnown(h: seq<Event>, i: nat, status: Option<nat>) {
    && (forall k :: LastResponse(h, i, k) ==> status == h[k].code)
    && (status.Some? ==> exists k :: IsResponseTo(h, i, k))
  }

  ghost predicate TypeKnown(h: seq<Event>, i: nat, contentType: Option<string>) {
    && (forall k :: LastTyped(h, i, k) ==> contentType == Some(h[k].kind))
    && (contentType.Some? ==> exists k :: LastTyped(h, i, k))
  }

  lemma ResponsesOfInit(h: seq<Event>, i: nat)
    requires i < |h| - 1
    ensures var init := h[..|h| - 1];
      && init[i] == h[i]
      && forall k :: k < |h| - 1 ==> (IsResponseTo(h, i, k) <==> IsResponseTo(init, i, k))
  {
  }

  lemma StatusStep(h: seq<Event>, i: nat, status: Option<nat>)
    requires i < |h| - 1 && h[i].Request? && StatusKnown(h[..|h| - 1], i, status)
    ensures StatusKnown(h, i, if IsResponseTo(h, i, |h| - 1) then h[|h| - 1].code else status)
  {
    var init, n := h[..|h| - 1], |h| - 1;
    ResponsesOfInit(h, i);
    if !IsResponseTo(h, i, n) {
      forall k | LastResponse(h, i, k) ensures LastResponse(init, i, k) && h[k] == init[k] { }
      if k :| IsResponseTo(init, i, k) { assert IsResponseTo(h, i, k); }
    } else {
      forall k | LastResponse(h, i, k) ensures k == n { }
    }
  }

  lemma TypeStep(h: seq<Event>, i: nat, contentType: Option<string>)
    requires i < |h| - 1 && h[i].Request? && TypeKnown(h[..|h| - 1], i, contentType)
    ensures var last := h[|h| - 1];
      TypeKnown(h, i, if IsResponseTo(h, i, |h| - 1) && last.kind != "" then Some(last.kind) else contentType)
  {
    var init, n := h[..|h| - 1], |h| - 1;
    ResponsesOfInit(h, i);
    if IsResponseTo(h, i, n) && h[n].kind != "" {
      assert LastTyped(h, i, n);
      forall k | LastTyped(h, i, k) ensures k == n { }
    } else {
      forall k | LastTyped(h, i, k) ensures LastTyped(init, i, k) && h[k] == init[k] { }
      if k :| LastTyped(init, i, k) { assert LastTyped(h, i, k); }
    }
  }

  lemma SeenStep(h: seq<Event>, i: nat)
    requires i < |h| - 1 && h[i].Request?
    ensures var init := h[..|h| - 1];
      (exists k :: IsResponseTo(h, i, k)) <==> IsResponseTo(h, i, |h| - 1) || exists k :: IsResponseTo(init, i, k)
  {
    var init := h[..|h| - 1];
    ResponsesOfInit(h, i);
    if k :| IsResponseTo(init, i, k) { assert IsResponseTo(h, i, k); }
    if k :| IsResponseTo(h, i, k) { assert k == |h| - 1 || IsResponseTo(init, i, k); }
  }

  /** The status is the last response's, the content type the last one named, and the rest the request's own. */
  lemma {:induction false} ProgressIs(h: seq<Event>, i: nat)
    requires i < |h| && h[i].Request?
    ensures var p := Progress(h, i);
      && StatusKnown(h, i, p.status) && TypeKnown(h, i, p.contentType)
      && (p.responseSeen <==> exists k :: IsResponseTo(h, i, k))
      && p.url == h[i].url && p.verb == h[i].verb && p.startedAt == h[i].at && p.started == h[i].time
  {
    if i < |h| - 1 {
      var p := Progress(h[..|h| - 1], i);
      ProgressIs(h[..|h| - 1], i);
      StatusStep(h, i, p.status);
      TypeStep(h, i, p.contentType);
      SeenStep(h, i);
    }
  }

  // ----- What an entry says ------------------------------------------------------------------------

  /** `part` is as much of `all` as fits into `cap` bytes without splitting a character. */
  ghost predicate CutTo(part: Text, all: Text, cap: nat) {
    && part <= all && |part| <= cap && IsCharBoundary(all, |part|)
    && forall k: nat :: |part| < k <= cap && k <= |all| ==> !IsCharBoundary(all, k)
  }

  lemma TruncatedIsCut(all: Text, cap: nat)
    ensures CutTo(Truncated(all, cap).0, all, cap) && (Truncated(all, cap).1 <==> |all| > cap)
  {
  }

  /** The nearest number of milliseconds, for times in seconds. */
  predicate IsTiming(timing: Option<nat>, started: real, end: real) {
    if end < started then timing == None
    else timing.Some? && timing.value as real - 0.5 <= (end - started) * 1000.0 < timing.value as real + 0.5
  }

  /** The entry of the request at `i`, ended by `e`. */
  ghost predicate Tells(entry: NetworkEntry, h: seq<Event>, i: nat, e: Event)
    requires i < |h| && h[i].Request? && Ends(e)
  {
    && entry.url == h[i].url && entry.verb == h[i].verb && entry.startedAt == h[i].at
    && TypeKnown(h, i, entry.contentType)
    && (if e.Request? then entry.status == e.redirect else StatusKnown(h, i, entry.status))
    && IsTiming(entry.timing, h[i].time, e.time)
    && (if e.Complete? && e.body.Some?
           && (entry.contentType.Some? ==> !IsBinaryContentType(entry.contentType.value)) then
          entry.body.Some? && CutTo(entry.body.value, e.body.value, 16_384)
            && (entry.bodyTruncated <==> |e.body.value| > 16_384)
        else entry.body == None && !entry.bodyTruncated)
  }

  lemma EntryTells(h: seq<Event>, i: nat, e: Event)
    requires i < |h| && h[i].Request? && Ends(e)
    ensures Tells(EntryFor(h, i, e), h, i, e)
  {
    ProgressIs(h, i);
    if e.Complete? && e.body.Some? { TruncatedIsCut(e.body.value, 16_384); }
    TimingIs(h[i].time, e.time);
  }

  lemma TimingIs(started: real, end: real)
    ensures IsTiming(Timing(started, end), started, end)
  {
  }

  /** Each entry is that of a request and of the event that ended it. */
  ghost predicate Recorded(h: seq<Event>, entry: NetworkEntry, i: nat, k: nat) {
    && i < k < |h| && InFlight(h[..k], i) && Ends(h[k]) && h[k].id == h[i].id
    && Tells(entry, h[..k], i, h[k])
  }

  /** Event `k` of the history ends a request in flight. */
  ghost predicate EndsOne(h: seq<Event>, k: int) {
    0 <= k < |h| && Ends(h[k]) && exists i: nat :: i < k && InFlight(h[..k], i) && h[i].id == h[k].id
  }

  /** Nothing has emptied the list since. */
  ghost predicate Remains(h: seq<Event>, k: nat) {
    forall l :: k < l < |h| ==> !h[l].Reset? && !h[l].Cleared?
  }

  ghost predicate EndedAt(h: seq<Event>, entry: NetworkEntry, k: nat) {
    exists i: nat :: Recorded(h, entry, i, k)
  }

  /** Entry `n` is that of a request and of the event at `at[n]`, which ended it. */
  ghost predicate EntriesAt(h: seq<Event>, all: seq<NetworkEntry>, at: seq<nat>) {
    && |at| == |all| && (forall m, n :: 0 <= m < n < |at| ==> at[m] < at[n])
    && (forall n :: 0 <= n < |at| ==> EndedAt(h, all[n], at[n]))
  }

  /** Those are the events that ended a request, and that nothing has cleared since. */
  ghost predicate AllListed(h: seq<Event>, at: seq<nat>) {
    forall k: nat :: k in at <==> EndsOne(h, k) && Remains(h, k)
  }

  lemma EndsOneOfInit(h: seq<Event>, k: nat)
    requires h != [] && k < |h| - 1
    ensures var init, last := h[..|h| - 1], h[|h| - 1];
      && (EndsOne(h, k) <==> EndsOne(init, k))
      && (Remains(h, k) <==> Remains(init, k) && !last.Reset? && !last.Cleared?)
  {
    var init := h[..|h| - 1];
    assert init[..k] == h[..k] && init[k] == h[k];
    assert forall l :: 0 <= l < |init| ==> init[l] == h[l];
  }

  lemma LastEndsOne(h: seq<Event>)
    requires h != []
    ensures var init, last := h[..|h| - 1], h[|h| - 1];
      EndsOne(h, |h| - 1) <==> Ends(last) && Live(init, last.id).Some?
  {
    var init, last := h[..|h| - 1], h[|h| - 1];
    if EndsOne(h, |h| - 1) {
      var i: nat :| i < |h| - 1 && InFlight(init, i) && h[i].id == last.id;
      assert init[i] == h[i];
    }
    if Ends(last) && Live(init, last.id).Some? {
      var i := Live(init, last.id).value;
      assert InFlight(init, i) && init[i] == h[i];
    }
  }

  lemma EntryOfInit(h: seq<Event>, entry: NetworkEntry, k: nat)
    requires h != [] && EndedAt(h[..|h| - 1], entry, k)
    ensures EndedAt(h, entry, k) && k < |h| - 1
  {
    var init := h[..|h| - 1];
    var i: nat :| Recorded(init, entry, i, k);
    assert h[..k] == init[..k] && h[i] == init[i] && h[k] == init[k];
    assert Recorded(h, entry, i, k);
  }

  lemma EntriesKept(h: seq<Event>, all: seq<NetworkEntry>, at: seq<nat>)
    requires h != [] && EntriesAt(h[..|h| - 1], all, at)
    ensures EntriesAt(h, all, at) && forall n :: 0 <= n < |at| ==> at[n] < |h| - 1
  {
    forall n | 0 <= n < |at| ensures EndedAt(h, all[n], at[n]) && at[n] < |h| - 1 { EntryOfInit(h, all[n], at[n]); }
  }

  lemma LastEntry(h: seq<Event>)
    requires h != [] && !h[|h| - 1].Reset? && !h[|h| - 1].Cleared?
    ensures var before, k := Pushed(h[..|h| - 1]), |h| - 1;
      if EndsOne(h, k) then
        |Pushed(h)| == |before| + 1 && Pushed(h)[..|before|] == before && EndedAt(h, Pushed(h)[|before|], k)
      else Pushed(h) == before
  {
    var init, last, k := h[..|h| - 1], h[|h| - 1], |h| - 1;
    LastEndsOne(h);
    if EndsOne(h, k) {
      var i := Live(init, last.id).value;
      EntryTells(init, i, last);
      assert Pushed(h) == Pushed(init) + [EntryFor(init, i, last)];
      assert Recorded(h, EntryFor(init, i, last), i, k);
    }
  }

  lemma EntriesMore(h: seq<Event>, at: seq<nat>)
    requires h != [] && !h[|h| - 1].Reset? && !h[|h| - 1].Cleared?
    requires EntriesAt(h[..|h| - 1], Pushed(h[..|h| - 1]), at)
    ensures EntriesAt(h, Pushed(h), if EndsOne(h, |h| - 1) then at + [|h| - 1] else at)
  {
    EntriesKept(h, Pushed(h[..|h| - 1]), at);
    LastEntry(h);
    if EndsOne(h, |h| - 1) { EntriesAppend(h, Pushed(h), at, |h| - 1); }
  }

  lemma EntriesAppend(h: seq<Event>, all: seq<NetworkEntry>, at: seq<nat>, k: nat)
    requires |all| == |at| + 1 && EntriesAt(h, all[..|at|], at) && EndedAt(h, all[|at|], k)
    requires forall n :: 0 <= n < |at| ==> at[n] < k
    ensures EntriesAt(h, all, at + [k])
  {
    var at' := at + [k];
    forall n | 0 <= n < |at'| ensures EndedAt(h, all[n], at'[n]) {
      if n < |at| { assert all[n] == all[..|at|][n]; }
    }
  }

  lemma ListedMore(h: seq<Event>, at: seq<nat>)
    requires h != [] && !h[|h| - 1].Reset? && !h[|h| - 1].Cleared? && AllListed(h[..|h| - 1], at)
    ensures AllListed(h, if EndsOne(h, |h| - 1) then at + [|h| - 1] else at)
  {
    var init, k := h[..|h| - 1], |h| - 1;
    var at' := if EndsOne(h, k) then at + [k] else at;
    forall l: nat ensures l in at' <==> EndsOne(h, l) && Remains(h, l) {
      assert l in at <==> EndsOne(init, l) && Remains(init, l);
      if l < k {
        EndsOneOfInit(h, l);
      } else {
        assert !EndsOne(init, l);
      }
    }
  }

  /**
   * The entries are, in order, those of the events that ended a request in flight since the last
   * clear or reset.
   */
  lemma {:induction false} EntriesTell(h: seq<Event>) returns (at: seq<nat>)
    ensures EntriesAt(h, Pushed(h), at) && AllListed(h, at)
  {
    if h == [] {
      return [];
    }
    var last := h[|h| - 1];
    at := EntriesTell(h[..|h| - 1]);
    if last.Reset? || last.Cleared? {
      at := [];
      assert forall k: nat :: k < |h| - 1 ==> !Remains(h, k);
    } else {
      EntriesMore(h, at);
      ListedMore(h, at);
      at := if EndsOne(h, |h| - 1) then at + [|h| - 1] else at;
    }
  }

  // ----- Content types --------------------------------------------------------------------------------

  lemma {:induction false} NothingToTrim(ct: string)
    requires ct != "" ==> !IsSpace(ct[0]) && !IsSpace(ct[|ct| - 1])
    ensures TrimEnd(TrimStart(ct)) == ct
  {
  }

  lemma TrimmedBinary(ct: string)
    requires TrimEnd(TrimStart(ct)) == ct && Lowercase(ct) == ct
    ensures IsBinaryContentType(ct) <==> exists i :: 0 <= i < |BinaryPrefixes()| && BinaryPrefixes()[i] <= ct
  {
  }

  lemma AnyBinaryPrefix(ct: string)
    ensures (exists i :: 0 <= i < |BinaryPrefixes()| && BinaryPrefixes()[i] <= ct) <==>
      "image/" <= ct || "font/" <= ct || "audio/" <= ct || "video/" <= ct || "application/octet-stream" <= ct
  {
    var prefixes := BinaryPrefixes();
    assert prefixes[0] == "image/" && prefixes[1] == "font/" && prefixes[2] == "audio/" && prefixes[3] == "video/";
    assert prefixes[4] == "application/octet-stream";
  }

  lemma LowerTrimmed(ct: string)
    requires TrimEnd(TrimStart(ct)) == ct
    ensures TrimEnd(TrimStart(Lowercase(ct))) == Lowercase(ct) && Lowercase(Lowercase(ct)) == Lowercase(ct)
  {
    TrimStartLower(ct);
    TrimEndLower(TrimStart(ct));
    LowercaseTwice(ct);
  }

  lemma BinaryInLowerCase(pad: string, ct: string, tail: string)
    requires (forall c :: c in pad ==> IsSpace(c)) && (forall c :: c in tail ==> IsSpace(c))
    requires ct != "" ==> !IsSpace(ct[0]) && !IsSpace(ct[|ct| - 1])
    ensures var kind, prefixes := Lowercase(ct), BinaryPrefixes();
      IsBinaryContentType(pad + ct + tail) <==> exists i :: 0 <= i < |prefixes| && prefixes[i] <= kind
  {
    NothingToTrim(ct);
    LowerTrimmed(ct);
    BinaryIgnoresPadding(pad, ct, tail);
    BinaryIgnoresCase(ct);
    TrimmedBinary(Lowercase(ct));
  }

  /**
   * The bodies not kept are those of images, fonts, audio, video and byte streams, in whatever
   * case the type is written, and whatever white space is around it.
   */
  lemma BinaryIff(pad: string, ct: string, tail: string)
    requires (forall c :: c in pad ==> IsSpace(c)) && (forall c :: c in tail ==> IsSpace(c))
    requires ct != "" ==> !IsSpace(ct[0]) && !IsSpace(ct[|ct| - 1])
    ensures var kind := Lowercase(ct);
      IsBinaryContentType(pad + ct + tail) <==>
        || "image/" <= kind || "font/" <= kind || "audio/" <= kind || "video/" <= kind
        || "application/octet-stream" <= kind
  {
    BinaryInLowerCase(pad, ct, tail);
    AnyBinaryPrefix(Lowercase(ct));
  }

  // ----- Queries ---------------------------------------------------------------------------------------

  predicate OccursIn(part: string, s: string, i: int) {
    0 <= i && i + |part| <= |s| && s[i..i + |part|] == part
  }

  /** Without a filter every entry, else those that have it somewhere in their URL. */
  ghost predicate Chosen(e: NetworkEntry, filter: Option<string>) {
    match filter
    case None => true
    case Some(part) => exists i :: OccursIn(part, e.url, i)
  }

  lemma MatchesChosen(e: NetworkEntry, filter: Option<string>)
    ensures Matches(e, filter) <==> Chosen(e, filter)
  {
    if filter.Some? {
      var part := filter.value;
      if Chosen(e, filter) {
        var i :| OccursIn(part, e.url, i);
        assert part <= e.url[i..];
      }
      if i :| 0 <= i <= |e.url| && part <= e.url[i..] {
        assert e.url[i..][..|part|] == e.url[i..i + |part|];
        assert OccursIn(part, e.url, i);
      }
    }
  }

  /** The entry as it is returned: the same but for its body, which is cut to the cap. */
  ghost predicate Returned(r: NetworkEntry, e: NetworkEntry, cap: nat) {
    && r.url == e.url && r.verb == e.verb && r.status == e.status && r.contentType == e.contentType
    && r.timing == e.timing && r.startedAt == e.startedAt
    && (match e.body
        case None => r.body == None && r.bodyTruncated == e.bodyTruncated
        case Some(body) =>
          && r.body.Some? && CutTo(r.body.value, body, cap)
          && (r.bodyTruncated <==> e.bodyTruncated || |body| > cap))
  }

  lemma ShownIsReturned(e: NetworkEntry, cap: nat)
    ensures Returned(Shown(e, cap), e, cap)
  {
    if e.body.Some? { TruncatedIsCut(e.body.value, cap); }
  }

  /** `found` are the chosen ones among the first entries, at the places `at`, in order. */
  ghost predicate Picks(
    found: seq<NetworkEntry>, at: seq<nat>, entries: seq<NetworkEntry>, filter: Option<string>, cap: nat)
  {
    && |found| == |at| && (forall j, k :: 0 <= j < k < |at| ==> at[j] < at[k])
    && (forall k :: 0 <= k < |at| ==>
          at[k] < |entries| && Chosen(entries[at[k]], filter) && Returned(found[k], entries[at[k]], cap))
    && (forall i :: 0 <= i < |entries| && Chosen(entries[i], filter) ==> i in at)
  }

  /** A query returns exactly the entries that have the filter in their URL, in order, with bodies cut. */
  lemma {:induction false} QueryPicks(entries: seq<NetworkEntry>, filter: Option<string>, cap: nat)
    returns (at: seq<nat>)
    ensures Picks(Answer(entries, filter, cap), at, entries, filter, cap)
  {
    if entries == [] {
      return [];
    }
    var init, last := entries[..|entries| - 1], entries[|entries| - 1];
    at := QueryPicks(init, filter, cap);
    MatchesChosen(last, filter);
    ShownIsReturned(last, cap);
    PicksMore(init, last, filter, cap, Answer(init, filter, cap), at);
    assert entries == init + [last];
    if Chosen(last, filter) { at := at + [|init|]; }
  }

  lemma PicksMore(
    init: seq<NetworkEntry>, last: NetworkEntry, filter: Option<string>, cap: nat,
    found: seq<NetworkEntry>, at: seq<nat>)
    requires Picks(found, at, init, filter, cap) && Returned(Shown(last, cap), last, cap)
    ensures if Chosen(last, filter) then
        Picks(found + [Shown(last, cap)], at + [|init|], init + [last], filter, cap)
      else Picks(found, at, init + [last], filter, cap)
  {
    var entries := init + [last];
    assert entries[|init|] == last && forall i :: 0 <= i < |init| ==> entries[i] == init[i];
    if Chosen(last, filter) {
      var at' := at + [|init|];
      assert at'[|at|] == |init| && forall i :: i in at ==> i in at';
    }
  }

  /** How much is kept, and how much of it shown: 1000 entries, 16 384 bytes of a body, or fewer if asked. */
  lemma Limits(all: seq<NetworkEntry>, max: nat)
    ensures FirstEntries(all) == if |all| <= 1000 then all else all[..1000]
    ensures QueryCap(None) == 16_384 && QueryCap(Some(max)) == if max < 16_384 then max else 16_384
  {
  }
}
