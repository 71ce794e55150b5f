/**
 * What the capture log's bookkeeping guarantees over every sequence of events: no request
 * is lost or recorded twice, requests do not interfere, and a body is cut once.
 */
module NetworkFacts {
  import opened Options
  import opened Utf8
  import opened NetworkCapture

  // ----- Each request once -----------------------------------------------------------------

  /** The requests since the last reset, by their place in the history. */
  ghost predicate Asked(h: seq<Event>, i: nat) {
    i < |h| && h[i].Request? && forall k :: i < k < |h| ==> !h[k].Reset?
  }

  ghost predicate InFlight(h: seq<Event>, i: nat)
    requires i < |h|
  {
    h[i].Request? && Live(h, h[i].id) == Some(i)
  }

  /** The requests finished since the last reset, in the order they finished. */
  ghost function Ended(h: seq<Event>): seq<nat> {
    if h == [] then [] else
      var init, last := h[..|h| - 1], h[|h| - 1];
      if last.Reset? then []
      else if Ends(last) && Live(init, last.id).Some? then Ended(init) + [Live(init, last.id).value]
      else Ended(init)
  }

  ghost predicate OnceEach(h: seq<Event>) {
    && (forall i, j :: 0 <= i < j < |Ended(h)| ==> Ended(h)[i] != Ended(h)[j])
    && (forall i :: i in Ended(h) ==> Asked(h, i))
    && (forall i: nat :: Asked(h, i) ==> (InFlight(h, i) <==> i !in Ended(h)))
    && (forall id :: Live(h, id).Some? ==> Asked(h, Live(h, id).value))
  }

  lemma LiveStep(h: seq<Event>, e: Event, id: string)
    ensures Live(h + [e], id) ==
      if e.Reset? then None
      else if e.Request? && e.id == id then Some(|h|)
      else if (e.Complete? || e.Failed?) && e.id == id then None
      else Live(h, id)
  {
    assert (h + [e])[..|h|] == h;
  }

  lemma EndedStep(h: seq<Event>, e: Event)
    ensures Ended(h + [e]) ==
      if e.Reset? then []
      else if Ends(e) && Live(h, e.id).Some? then Ended(h) + [Live(h, e.id).value]
      else Ended(h)
  {
    assert (h + [e])[..|h|] == h;
  }

  lemma AskedStep(h: seq<Event>, e: Event, i: nat)
    ensures Asked(h + [e], i) <==> (!e.Reset? && Asked(h, i)) || (i == |h| && e.Request?)
  {
    var h' := h + [e];
    if i < |h| {
      assert h'[i] == h[i] && h'[|h|] == e;
      assert forall k :: i < k < |h| ==> h'[k] == h[k];
    }
  }

  lemma OnceEachStep(h: seq<Event>, e: Event)
    requires OnceEach(h)
    ensures OnceEach(h + [e])
  {
    var h' := h + [e];
    EndedStep(h, e);
    forall i: nat ensures Asked(h', i) <==> (!e.Reset? && Asked(h, i)) || (i == |h| && e.Request?) {
      AskedStep(h, e, i);
    }
    forall id ensures Live(h', id).Some? ==> Asked(h', Live(h', id).value) {
      LiveStep(h, e, id);
    }
    forall i: nat | Asked(h', i) ensures InFlight(h', i) <==> i !in Ended(h') {
      LiveStep(h, e, h'[i].id);
      if i < |h| { assert h'[i] == h[i]; }
    }
  }

  /**
   * Every request since the last reset is either in flight or finished, never both, and
   * finished only once; and nothing else is in flight or finished.
   */
  lemma {:induction false} EachRequestOnce(h: seq<Event>)
    ensures OnceEach(h)
  {
    if h != [] {
      EachRequestOnce(h[..|h| - 1]);
      OnceEachStep(h[..|h| - 1], h[|h| - 1]);
      assert h == h[..|h| - 1] + [h[|h| - 1]];
    }
  }

  // ----- Entries ---------------------------------------------------------------------------

  ghost predicate NoneCleared(h: seq<Event>) {
    forall i :: 0 <= i < |h| ==> !h[i].Reset? && !h[i].Cleared?
  }

  /** Without a clear, each finished request has exactly one entry, at its own place. */
  lemma {:induction false} OneEntryEach(h: seq<Event>, tail: seq<Event>)
    requires h == [] || h[|h| - 1].Reset?
    requires NoneCleared(tail)
    ensures |Pushed(h + tail)| == |Ended(h + tail)|
    ensures forall k :: 0 <= k < |Pushed(h + tail)| ==>
      var i := Ended(h + tail)[k];
      i < |h + tail| && (h + tail)[i].Request? && Pushed(h + tail)[k].url == (h + tail)[i].url
        && Pushed(h + tail)[k].verb == (h + tail)[i].verb && Pushed(h + tail)[k].startedAt == (h + tail)[i].at
    decreases |tail|
  {
    if tail == [] {
      assert h + tail == h;
    } else {
      var n := |tail| - 1;
      var init, e := h + tail[..n], tail[n];
      OneEntryEach(h, tail[..n]);
      assert h + tail == init + [e];
      assert (init + [e])[..|init|] == init;
      EndedStep(init, e);
      if Ends(e) && Live(init, e.id).Some? {
        ProgressKeepsRequest(init, Live(init, e.id).value);
      }
    }
  }

  lemma {:induction false} ProgressKeepsRequest(h: seq<Event>, i: nat)
    requires i < |h| && h[i].Request?
    ensures var p := Progress(h, i);
      p.url == h[i].url && p.verb == h[i].verb && p.startedAt == h[i].at && p.started == h[i].time
  {
    if i < |h| - 1 {
      ProgressKeepsRequest(h[..|h| - 1], i);
    }
  }

  lemma PushedGrows(h: seq<Event>, e: Event)
    requires !e.Reset? && !e.Cleared?
    ensures Pushed(h) <= Pushed(h + [e])
  {
    assert (h + [e])[..|h|] == h;
  }

  /** A full log keeps its first entries, whatever comes, until it is cleared or reset. */
  lemma {:induction false} FullLogIsFrozen(h: seq<Event>, tail: seq<Event>)
    requires NoneCleared(tail) && |Pushed(h)| >= MAX_NETWORK_ENTRIES
    ensures Pushed(h) <= Pushed(h + tail)
    ensures FirstEntries(Pushed(h + tail)) == FirstEntries(Pushed(h))
    decreases |tail|
  {
    if tail == [] {
      assert h + tail == h;
    } else {
      var n := |tail| - 1;
      FullLogIsFrozen(h, tail[..n]);
      PushedGrows(h + tail[..n], tail[n]);
      assert h + tail == h + tail[..n] + [tail[n]];
    }
    SameFirstEntries(Pushed(h), Pushed(h + tail));
  }

  lemma SameFirstEntries(all: seq<NetworkEntry>, more: seq<NetworkEntry>)
    requires all <= more && |all| >= MAX_NETWORK_ENTRIES
    ensures FirstEntries(more) == FirstEntries(all)
  {
    assert more[..MAX_NETWORK_ENTRIES] == all[..MAX_NETWORK_ENTRIES];
  }

  // ----- Requests do not interfere -----------------------------------------------------------

  predicate Concerns(e: Event, id: string) {
    e.Reset? || (!e.Cleared? && e.id == id)
  }

  ghost function Only(h: seq<Event>, id: string): seq<Event> {
    if h == [] then [] else
      var init, last := h[..|h| - 1], h[|h| - 1];
      Only(init, id) + if Concerns(last, id) then [last] else []
  }

  /** What the log holds for one id is what it would hold had no other request been made. */
  lemma {:induction false} OthersDoNotInterfere(h: seq<Event>, id: string)
    ensures Live(h, id).Some? <==> Live(Only(h, id), id).Some?
    ensures Live(h, id).Some? ==>
      Progress(h, Live(h, id).value) == Progress(Only(h, id), Live(Only(h, id), id).value)
  {
    if h != [] {
      var init, last := h[..|h| - 1], h[|h| - 1];
      OthersDoNotInterfere(init, id);
      if Concerns(last, id) {
        assert (Only(init, id) + [last])[..|Only(init, id)|] == Only(init, id);
      } else {
        assert Only(h, id) == Only(init, id);
      }
    }
  }

  // ----- Bodies ---------------------------------------------------------------------------------

  /**
   * A stored body, as a query shows it, is the original cut once at the smaller of the two
   * caps, and is flagged exactly when the original was longer than that.
   */
  lemma StoredThenShown(p: Partial, end: real, status: Option<nat>, body: Text, max: Option<nat>)
    requires !IsBinary(p)
    ensures var e := Shown(Finish(p, end, status, Some(body)), QueryCap(max));
      e.body == Some(Truncated(body, QueryCap(max)).0) && (e.bodyTruncated <==> |body| > QueryCap(max))
  {
    TruncateTwice(body, MAX_BODY_BYTES, QueryCap(max));
  }

  /** What asking for the body of `id` answers. */
  ghost predicate Wanted(h: seq<Event>, id: string) {
    && |Pushed(h)| < MAX_NETWORK_ENTRIES && Live(h, id).Some?
    && Progress(h, Live(h, id).value).contentType.Some? && !IsBinary(Progress(h, Live(h, id).value))
  }

  /** Finishing `id` now, with that body, adds an entry that holds the body, cut at the cap. */
  ghost predicate Stored(h: seq<Event>, id: string, time: real, body: Text) {
    var before, after := FirstEntries(Pushed(h)), FirstEntries(Pushed(h + [Complete(id, time, Some(body))]));
    |after| == |before| + 1 && before <= after && after[|before|].body == Some(Truncated(body, MAX_BODY_BYTES).0)
  }

  /** There is room, and the content type of the request in flight is not known. */
  ghost predicate TypeUnknown(h: seq<Event>, id: string) {
    |Pushed(h)| < MAX_NETWORK_ENTRIES && Live(h, id).Some? && Progress(h, Live(h, id).value).contentType.None?
  }

  /**
   * A body that is asked for would be stored, and one that would be stored is asked for, but
   * for a request of unknown type while there is room: its body would be stored, and is not
   * asked for.
   */
  lemma BodyWantedIff(h: seq<Event>, id: string, time: real, body: Text)
    ensures Stored(h, id, time, body) <==> Wanted(h, id) || TypeUnknown(h, id)
    ensures (Wanted(h, id) <==> Stored(h, id, time, body)) <==> !TypeUnknown(h, id)
  {
    assert (h + [Complete(id, time, Some(body))])[..|h|] == h;
  }

  /** A request that has had no response is one. */
  lemma UnaskedBodyIsStored(url: string, time: real, body: Text)
    ensures var h := [Request("1", url, "GET", 0, time, None)];
      !Wanted(h, "1") && Stored(h, "1", time, body)
  {
    var h := [Request("1", url, "GET", 0, time, None)];
    assert Live(h, "1") == Some(0) && Pushed(h) == [] by {
      assert h[..0] == [];
    }
    BodyWantedIff(h, "1", time, body);
  }

  /** White space around a content type does not change whether it is binary. */
  lemma BinaryIgnoresPadding(pad: string, ct: string, tail: string)
    requires forall c :: c in pad ==> IsSpace(c)
    requires forall c :: c in tail ==> IsSpace(c)
    ensures IsBinaryContentType(pad + ct + tail) == IsBinaryContentType(ct)
  {
    assert pad + ct + tail == pad + (ct + tail);
    TrimStartPadding(pad, ct + tail);
    TrimTail(ct, tail);
  }

  lemma {:induction false} TrimStartPadding(pad: string, s: string)
    requires forall c :: c in pad ==> IsSpace(c)
    ensures TrimStart(pad + s) == TrimStart(s)
  {
    if pad == "" {
      assert pad + s == s;
    } else {
      assert (pad + s)[0] == pad[0] && (pad + s)[1..] == pad[1..] + s;
      assert pad[0] in pad;
      TrimStartPadding(pad[1..], s);
    }
  }

  lemma {:induction false} TrimEndPadding(s: string, tail: string)
    requires forall c :: c in tail ==> IsSpace(c)
    ensures TrimEnd(s + tail) == TrimEnd(s)
    decreases |tail|
  {
    if tail == "" {
      assert s + tail == s;
    } else {
      var n := |tail| - 1;
      assert tail[n] in tail;
      assert (s + tail)[|s| + n] == tail[n] && (s + tail)[..|s| + n] == s + tail[..n];
      TrimEndPadding(s, tail[..n]);
    }
  }

  lemma {:induction false} AllSpaceTrims(s: string)
    requires forall c :: c in s ==> IsSpace(c)
    ensures TrimStart(s) == ""
  {
    if s != "" {
      assert s[0] in s;
      AllSpaceTrims(s[1..]);
    }
  }

  lemma {:induction false} TrimTail(ct: string, tail: string)
    requires forall c :: c in tail ==> IsSpace(c)
    ensures TrimEnd(TrimStart(ct + tail)) == TrimEnd(TrimStart(ct))
  {
    if ct == "" {
      assert ct + tail == tail;
      AllSpaceTrims(tail);
    } else if IsSpace(ct[0]) {
      assert (ct + tail)[0] == ct[0] && (ct + tail)[1..] == ct[1..] + tail;
      TrimTail(ct[1..], tail);
    } else {
      assert (ct + tail)[0] == ct[0];
      TrimEndPadding(ct, tail);
    }
  }

  lemma LowercaseTwice(s: string)
    ensures Lowercase(Lowercase(s)) == Lowercase(s)
  {
  }

  lemma {:induction false} LowercaseInit(s: string)
    requires s != ""
    ensures Lowercase(s)[..|s| - 1] == Lowercase(s[..|s| - 1])
  {
    if |s| > 1 {
      LowercaseInit(s[1..]);
      assert s[..|s| - 1][1..] == s[1..][..|s| - 2];
    }
  }

  lemma {:induction false} TrimStartLower(s: string)
    ensures TrimStart(Lowercase(s)) == Lowercase(TrimStart(s))
  {
    if s != "" && IsSpace(s[0]) {
      assert Lowercase(s)[1..] == Lowercase(s[1..]);
      TrimStartLower(s[1..]);
    }
  }

  lemma {:induction false} TrimEndLower(s: string)
    ensures TrimEnd(Lowercase(s)) == Lowercase(TrimEnd(s))
    decreases |s|
  {
    if s != "" && IsSpace(s[|s| - 1]) {
      LowercaseInit(s);
      TrimEndLower(s[..|s| - 1]);
    }
  }

  /** Nor does letter case. */
  lemma BinaryIgnoresCase(ct: string)
    ensures IsBinaryContentType(Lowercase(ct)) == IsBinaryContentType(ct)
  {
    TrimStartLower(ct);
    TrimEndLower(TrimStart(ct));
    LowercaseTwice(TrimEnd(TrimStart(ct)));
  }
}
