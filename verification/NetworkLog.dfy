/**
 * The per-session network capture log: requests in flight keyed by id, a capped list of
 * finished entries, redirects, clear and reset, and the filtered copy a query returns.
 *
 * `NetworkLog.history` records the calls made so far; `Reflects` says what the three real
 * fields must be after them, in terms of the calls alone.
 */
module NetworkCapture {
  import opened Options
  import opened Utf8

  const MAX_NETWORK_ENTRIES: nat := 1000
  const MAX_BODY_BYTES: nat := 16_384

  datatype Partial = Partial(
    url: string, verb: string, startedAt: nat, started: real,
    status: Option<nat>, contentType: Option<string>, responseSeen: bool)

  datatype NetworkEntry = NetworkEntry(
    url: string, verb: string, status: Option<nat>, contentType: Option<string>,
    body: Option<Text>, bodyTruncated: bool, timing: Option<nat>, startedAt: nat)

  datatype Event =
    | Request(id: string, url: string, verb: string, at: nat, time: real, redirect: Option<nat>)
    | Response(id: string, code: Option<nat>, kind: string)
    | Complete(id: string, time: real, body: Option<Text>)
    | Failed(id: string, time: real)
    | Reset
    | Cleared

  // ----- Content types ---------------------------------------------------------------------

  /** The characters that trimming removes. */
  predicate IsSpace(c: char) {
    var n := c as int;
    || 9 <= n <= 13 || n == 0x20 || n == 0x85 || n == 0xA0 || n == 0x1680 || 0x2000 <= n <= 0x200A
    || n == 0x2028 || n == 0x2029 || n == 0x202F || n == 0x205F || n == 0x3000
  }

  function TrimStart(s: string): string {
    if s != "" && IsSpace(s[0]) then TrimStart(s[1..]) else s
  }

  function TrimEnd(s: string): string {
    if s != "" && IsSpace(s[|s| - 1]) then TrimEnd(s[..|s| - 1]) else s
  }

  function LowerChar(c: char): char {
    if 'A' <= c <= 'Z' then (c as int + 32) as char else c
  }

  function Lowercase(s: string): (r: string)
    ensures |r| == |s| && forall i :: 0 <= i < |s| ==> r[i] == LowerChar(s[i])
  {
    if s == "" then "" else [LowerChar(s[0])] + Lowercase(s[1..])
  }

  function BinaryPrefixes(): seq<string> {
    ["image/", "font/", "audio/", "video/", "application/octet-stream"]
  }

  predicate IsBinaryContentType(contentType: string) {
    var ct := Lowercase(TrimEnd(TrimStart(contentType)));
    exists i :: 0 <= i < |BinaryPrefixes()| && BinaryPrefixes()[i] <= ct
  }

  // ----- Finishing an entry -------------------------------------------------------------------

  predicate IsBinary(p: Partial) {
    p.contentType.Some? && IsBinaryContentType(p.contentType.value)
  }

  /** Milliseconds between two readings of a clock in seconds, rounded half up. */
  function Timing(started: real, end: real): Option<nat> {
    if end >= started then Some(((end - started) * 1000.0 + 0.5).Floor) else None
  }

  function Finish(p: Partial, end: real, status: Option<nat>, body: Option<Text>): NetworkEntry {
    var kept := if body.Some? && !IsBinary(p) then Some(Truncated(body.value, MAX_BODY_BYTES)) else None;
    NetworkEntry(p.url, p.verb, status, p.contentType,
                 if kept.Some? then Some(kept.value.0) else None, kept.Some? && kept.value.1,
                 Timing(p.started, end), p.startedAt)
  }

  // ----- What a history amounts to ---------------------------------------------------------------

  /** The request of `id` still in flight, as its place in the history. */
  ghost function Live(h: seq<Event>, id: string): (i: Option<nat>)
    ensures i.Some? ==> i.value < |h| && h[i.value].Request? && h[i.value].id == id
  {
    if h == [] then None else
      var init, last := h[..|h| - 1], h[|h| - 1];
      match last
      case Request(other, _, _, _, _, _) => if other == id then Some(|init|) else Live(init, id)
      case Complete(other, _, _) => if other == id then None else Live(init, id)
      case Failed(other, _) => if other == id then None else Live(init, id)
      case Reset => None
      case _ => Live(init, id)
  }

  function Fresh(e: Event): Partial
    requires e.Request?
  {
    Partial(e.url, e.verb, e.at, e.time, None, None, false)
  }

  function Responded(p: Partial, e: Event): Partial
    requires e.Response?
  {
    p.(status := e.code, responseSeen := true, contentType := if e.kind != "" then Some(e.kind) else p.contentType)
  }

  /** The request at `i` with every response to its id since. */
  ghost function Progress(h: seq<Event>, i: nat): Partial
    requires i < |h| && h[i].Request?
  {
    if i == |h| - 1 then Fresh(h[i]) else
      var init, last := h[..|h| - 1], h[|h| - 1];
      if last.Response? && last.id == h[i].id then Responded(Progress(init, i), last) else Progress(init, i)
  }

  predicate Ends(e: Event) {
    e.Request? || e.Complete? || e.Failed?
  }

  /** The entry made when `e` ends the request at `i`: a redirect brings its own status. */
  ghost function EntryFor(h: seq<Event>, i: nat, e: Event): NetworkEntry
    requires i < |h| && h[i].Request? && Ends(e)
  {
    EndedBy(Progress(h, i), e)
  }

  /** Every entry finished since the last clear or reset, in order and without a cap. */
  ghost function Pushed(h: seq<Event>): seq<NetworkEntry> {
    if h == [] then [] else
      var init, last := h[..|h| - 1], h[|h| - 1];
      if last.Reset? || last.Cleared? then []
      else if Ends(last) && Live(init, last.id).Some?
      then Pushed(init) + [EntryFor(init, Live(init, last.id).value, last)]
      else Pushed(init)
  }

  function FirstEntries(all: seq<NetworkEntry>): seq<NetworkEntry> {
    if |all| <= MAX_NETWORK_ENTRIES then all else all[..MAX_NETWORK_ENTRIES]
  }

  ghost predicate PartialsReflect(h: seq<Event>, partials: map<string, Partial>) {
    forall id :: (id in partials <==> Live(h, id).Some?) &&
      (id in partials ==> partials[id] == Progress(h, Live(h, id).value))
  }

  ghost predicate Reflects(h: seq<Event>, partials: map<string, Partial>, entries: seq<NetworkEntry>, truncated: bool) {
    && PartialsReflect(h, partials)
    && entries == FirstEntries(Pushed(h))
    && (truncated <==> |Pushed(h)| > MAX_NETWORK_ENTRIES)
  }

  /** What one event does to the requests in flight. */
  function PartialsAfter(partials: map<string, Partial>, e: Event): map<string, Partial> {
    match e
    case Request(id, _, _, _, _, _) => partials[id := Fresh(e)]
    case Response(id, _, _) => if id in partials then partials[id := Responded(partials[id], e)] else partials
    case Complete(id, _, _) => partials - {id}
    case Failed(id, _) => partials - {id}
    case Reset => map[]
    case Cleared => partials
  }

  /** What one event does to the finished entries, were there no cap. */
  function PushedAfter(all: seq<NetworkEntry>, partials: map<string, Partial>, e: Event): seq<NetworkEntry> {
    if e.Reset? || e.Cleared? then []
    else if Ends(e) && e.id in partials then all + [EndedBy(partials[e.id], e)]
    else all
  }

  function EndedBy(p: Partial, e: Event): NetworkEntry
    requires Ends(e)
  {
    Finish(p, e.time, if e.Request? then e.redirect else p.status, if e.Complete? then e.body else None)
  }

  lemma Extends(h: seq<Event>, partials: map<string, Partial>, e: Event)
    requires PartialsReflect(h, partials)
    ensures PartialsReflect(h + [e], PartialsAfter(partials, e))
    ensures Pushed(h + [e]) == PushedAfter(Pushed(h), partials, e)
  {
    assert (h + [e])[..|h|] == h;
  }

  // ----- Queries ---------------------------------------------------------------------------------

  predicate Contains(s: string, part: string) {
    exists i :: 0 <= i <= |s| && part <= s[i..]
  }

  predicate Matches(e: NetworkEntry, filter: Option<string>) {
    filter.Some? ==> Contains(e.url, filter.value)
  }

  function QueryCap(max: Option<nat>): nat {
    if max.Some? && max.value < MAX_BODY_BYTES then max.value else MAX_BODY_BYTES
  }

  function Shown(e: NetworkEntry, cap: nat): NetworkEntry {
    if e.body.None? then e else
      var (b, cut) := Truncated(e.body.value, cap);
      e.(body := Some(b), bodyTruncated := e.bodyTruncated || cut)
  }

  function Answer(entries: seq<NetworkEntry>, filter: Option<string>, cap: nat): seq<NetworkEntry> {
    if entries == [] then [] else
      var init, last := entries[..|entries| - 1], entries[|entries| - 1];
      Answer(init, filter, cap) + if Matches(last, filter) then [Shown(last, cap)] else []
  }

  // ----- The log ------------------------------------------------------------------------------------

  class NetworkLog {
    var partials: map<string, Partial>
    var entries: seq<NetworkEntry>
    var truncated: bool
    ghost var history: seq<Event>

    ghost predicate Valid()
      reads this
    {
      Reflects(history, partials, entries, truncated)
    }

    constructor ()
      ensures Valid() && history == []
    {
      partials, entries, truncated, history := map[], [], false, [];
    }

    method OnRequest(id: string, url: string, verb: string, startedAt: nat, time: real, redirect: Option<nat>)
      requires Valid()
      modifies this
      ensures Valid() && history == old(history) + [Request(id, url, verb, startedAt, time, redirect)]
    {
      ghost var e := Request(id, url, verb, startedAt, time, redirect);
      if id in partials {
        var prev := partials[id];
        partials := partials - {id};
        Push(Finish(prev, time, redirect, None));
      }
      partials := partials[id := Partial(url, verb, startedAt, time, None, None, false)];
      history := history + [e];
      Extends(old(history), old(partials), e);
    }

    method OnResponse(id: string, status: Option<nat>, contentType: string)
      requires Valid()
      modifies this
      ensures Valid() && history == old(history) + [Response(id, status, contentType)]
    {
      if id in partials {
        var p := partials[id].(status := status, responseSeen := true);
        if contentType != "" {
          p := p.(contentType := Some(contentType));
        }
        partials := partials[id := p];
      }
      history := history + [Response(id, status, contentType)];
      Extends(old(history), old(partials), Response(id, status, contentType));
    }

    method HasResponse(id: string) returns (seen: bool)
      requires Valid()
      ensures seen <==> Live(history, id).Some? && Progress(history, Live(history, id).value).responseSeen
    {
      seen := id in partials && partials[id].responseSeen;
    }

    method WantsBody(id: string) returns (wants: bool)
      requires Valid()
      ensures wants <==>
        && |Pushed(history)| < MAX_NETWORK_ENTRIES && Live(history, id).Some?
        && Progress(history, Live(history, id).value).contentType.Some?
        && !IsBinary(Progress(history, Live(history, id).value))
    {
      if |entries| >= MAX_NETWORK_ENTRIES {
        return false;
      }
      wants := id in partials && partials[id].contentType.Some? && !IsBinaryContentType(partials[id].contentType.value);
    }

    method OnComplete(id: string, time: real, body: Option<Text>)
      requires Valid()
      modifies this
      ensures Valid() && history == old(history) + [Complete(id, time, body)]
    {
      if id in partials {
        var p := partials[id];
        partials := partials - {id};
        Push(Finish(p, time, p.status, body));
      }
      history := history + [Complete(id, time, body)];
      Extends(old(history), old(partials), Complete(id, time, body));
    }

    method OnFailed(id: string, time: real)
      requires Valid()
      modifies this
      ensures Valid() && history == old(history) + [Failed(id, time)]
    {
      if id in partials {
        var p := partials[id];
        partials := partials - {id};
        Push(Finish(p, time, p.status, None));
      }
      history := history + [Failed(id, time)];
      Extends(old(history), old(partials), Failed(id, time));
    }

    method Push(entry: NetworkEntry)
      modifies `entries, `truncated
      ensures forall all :: old(entries) == FirstEntries(all) && (old(truncated) <==> |all| > MAX_NETWORK_ENTRIES) ==>
        entries == FirstEntries(all + [entry]) && (truncated <==> |all + [entry]| > MAX_NETWORK_ENTRIES)
    {
      if |entries| >= MAX_NETWORK_ENTRIES {
        truncated := true;
        return;
      }
      entries := entries + [entry];
    }

    method Clear()
      requires Valid()
      modifies this
      ensures Valid() && history == old(history) + [Reset]
    {
      partials, entries, truncated := map[], [], false;
      history := history + [Reset];
      Extends(old(history), old(partials), Reset);
    }

    method Query(filter: Option<string>, maxBody: Option<nat>, clear: bool)
      returns (found: seq<NetworkEntry>, more: bool)
      requires Valid()
      modifies this
      ensures found == Answer(FirstEntries(Pushed(old(history))), filter, QueryCap(maxBody))
      ensures more <==> |Pushed(old(history))| > MAX_NETWORK_ENTRIES
      ensures Valid() && history == old(history) + if clear then [Cleared] else []
    {
      var cap := QueryCap(maxBody);
      found := [];
      for i := 0 to |entries|
        invariant unchanged(this) && found == Answer(entries[..i], filter, cap)
      {
        assert entries[..i + 1][..i] == entries[..i];
        if Matches(entries[i], filter) {
          var e := entries[i];
          if e.body.Some? {
            var b, cut := TruncateUtf8(e.body.value, cap);
            e := e.(body := Some(b), bodyTruncated := e.bodyTruncated || cut);
          }
          found := found + [e];
        }
      }
      assert entries[..|entries|] == entries;
      more := truncated;
      if clear {
        entries, truncated := [], false;
        history := history + [Cleared];
        Extends(old(history), old(partials), Cleared);
      }
    }
  }
}
