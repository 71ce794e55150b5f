/**
 * The credential store: concurrent identical resolves share one backend run, and each
 * domain's vault and item ids are cached. Every resolve is a run of steps that interleave
 * at the awaits on the `op` command line; a step is one stretch of code without an await.
 */
module Vault {
  import opened Options

  datatype Field = Username | Password | Totp

  datatype CredentialRef = CredentialRef(domain: string, field: Field)

  datatype Ids = Ids(vault: string, item: string)

  datatype Error =
    | DomainMismatch
    | Ambiguous(titles: seq<string>)
    | Unauthenticated
    | RateLimited
    | SpawnFailed
    | OtherError

  // ----- Looking a domain up -----------------------------------------------------------------

  /** A link of an item: `None` when it is missing or no URL, else its host, if it has one. */
  type Href = Option<Option<string>>

  datatype Item = Item(vault: Option<string>, item: Option<string>, title: Option<string>, urls: seq<Href>)

  /** Two URLs have the same host only if they have one. */
  predicate SameHost(href: Href, target: string) {
    href == Some(Some(target))
  }

  predicate ItemMatches(item: Item, target: string) {
    exists i :: 0 <= i < |item.urls| && SameHost(item.urls[i], target)
  }

  predicate Complete(item: Item) {
    item.vault.Some? && item.item.Some?
  }

  datatype Match = Match(ids: Ids, title: string)

  function MatchOf(item: Item): Match
    requires Complete(item)
  {
    Match(Ids(item.vault.value, item.item.value), UnwrapOr(item.title, "<untitled>"))
  }

  function MatchingItems(items: seq<Item>, target: string): (r: seq<Match>)
    ensures forall m :: m in r ==>
      exists i :: 0 <= i < |items| && ItemMatches(items[i], target) && Complete(items[i]) && m == MatchOf(items[i])
  {
    if items == [] then [] else
      (if ItemMatches(items[0], target) && Complete(items[0]) then [MatchOf(items[0])] else [])
      + MatchingItems(items[1..], target)
  }

  function PickUniqueMatch(matches: seq<Match>): Result<Ids, Error> {
    if |matches| == 0 then Err(DomainMismatch)
    else if |matches| == 1 then Ok(matches[0].ids)
    else Err(Ambiguous(Titles(matches)))
  }

  function Titles(matches: seq<Match>): (r: seq<string>)
    ensures |r| == |matches| && forall i :: 0 <= i < |r| ==> r[i] == matches[i].title
  {
    if matches == [] then [] else [matches[0].title] + Titles(matches[1..])
  }

  /** The items with ids that match: what decides a lookup. */
  ghost function Candidates(items: seq<Item>, target: string): set<nat> {
    set i: nat | i < |items| && ItemMatches(items[i], target) && Complete(items[i])
  }

  function Shifted(s: set<nat>): set<nat> {
    set i | i in s :: i + 1
  }

  lemma CandidatesOfRest(items: seq<Item>, target: string)
    requires items != []
    ensures Candidates(items, target) ==
      Shifted(Candidates(items[1..], target)) + if ItemMatches(items[0], target) && Complete(items[0]) then {0} else {}
  {
    var rest := Candidates(items[1..], target);
    forall i: nat | 0 < i ensures i in Shifted(rest) <==> i in Candidates(items, target) {
      if i < |items| { assert items[1..][i - 1] == items[i] && (i in Shifted(rest) <==> i - 1 in rest); }
    }
  }

  lemma {:induction false} MatchesAreCandidates(items: seq<Item>, target: string)
    ensures |MatchingItems(items, target)| == |Candidates(items, target)|
  {
    if items != [] {
      var rest := Candidates(items[1..], target);
      CandidatesOfRest(items, target);
      MatchesAreCandidates(items[1..], target);
      ShiftKeepsSize(rest);
      assert 0 !in Shifted(rest);
    }
  }

  lemma {:induction false} ShiftKeepsSize(s: set<nat>)
    ensures |Shifted(s)| == |s|
    decreases s
  {
    if s != {} {
      var x :| x in s;
      var rest := s - {x};
      ShiftKeepsSize(rest);
      forall y ensures y in Shifted(s) <==> y in Shifted(rest) + {x + 1} {
        if y in Shifted(s) { assert y - 1 in s && (y - 1 in rest || y == x + 1); }
        if y in Shifted(rest) { assert y - 1 in s; }
        assert x in s && x + 1 in Shifted(s);
      }
      assert Shifted(s) == Shifted(rest) + {x + 1};
    }
  }

  lemma SingletonOf(c: set<nat>)
    requires |c| == 1
    ensures forall i, j :: i in c && j in c ==> i == j
  {
    var i :| i in c;
    assert |c - {i}| == 0 && c == {i};
  }

  /** A lookup names ids exactly when one item with ids matches, and then it names that item's. */
  lemma LookupOkIff(items: seq<Item>, target: string)
    ensures var r := PickUniqueMatch(MatchingItems(items, target));
      && (r.Ok? <==> |Candidates(items, target)| == 1)
      && (r == Err(DomainMismatch) <==> Candidates(items, target) == {})
      && (r.Ok? ==> forall i :: i in Candidates(items, target) ==> r.value == MatchOf(items[i]).ids)
  {
    var c := Candidates(items, target);
    MatchesAreCandidates(items, target);
    if |c| == 1 {
      SingletonOf(c);
      var m := MatchingItems(items, target)[0];
      assert m in MatchingItems(items, target);
      var k :| 0 <= k < |items| && ItemMatches(items[k], target) && Complete(items[k]) && m == MatchOf(items[k]);
      assert k in c;
    }
  }

  // ----- The backend -----------------------------------------------------------------------------

  datatype Stderr = NotSignedIn | TooManyRequests | Unrecognised

  datatype Output<T> = Exited(stdout: T) | Refused(stderr: Stderr) | NotSpawned

  type Outcome = Result<string, Error>

  /** One backend run: listing, then reading; a rate limit takes one more command to describe. */
  datatype Phase = Listing | Reading(ids: Ids) | Diagnosing | Done(outcome: Outcome)

  datatype Work = Work(cref: CredentialRef, phase: Phase)

  datatype Caller =
    | Awaiting(cref: CredentialRef, work: nat)
    | Answered(cref: CredentialRef, work: nat, outcome: Outcome)
    | Dropped

  /** A list command that succeeded: the domain's host, if it has one, and the items, if they parse. */
  datatype Lookup = Lookup(domain: string, host: Option<string>, items: Option<seq<Item>>)

  function LookupResult(l: Lookup): Result<Ids, Error> {
    if l.host.None? || l.items.None? then Err(OtherError)
    else PickUniqueMatch(MatchingItems(l.items.value, l.host.value))
  }

  datatype Store = Store(
    pending: map<CredentialRef, nat>,
    idCache: map<string, Ids>,
    works: seq<Work>,
    callers: map<nat, Caller>,
    lookups: seq<Lookup>)

  function Empty(): Store {
    Store(map[], map[], [], map[], [])
  }

  function CacheAfter(cache: map<string, Ids>, domain: string, result: Result<Ids, Error>): map<string, Ids> {
    if result.Ok? then cache[domain := result.value] else cache
  }

  // ----- Steps ---------------------------------------------------------------------------------------

  datatype Step =
    | Resolve(c: nat, cref: CredentialRef)
    | ListAnswered(n: nat, host: Option<string>, listing: Output<Option<seq<Item>>>)
    | ReadAnswered(n: nat, reading: Output<string>)
    | Diagnosed(n: nat)
    | Deliver(c: nat)
    | Cancel(c: nat)

  predicate Enabled(s: Store, step: Step) {
    match step
    case Resolve(c, _) => c !in s.callers
    case ListAnswered(n, _, _) => n < |s.works| && s.works[n].phase.Listing?
    case ReadAnswered(n, _) => n < |s.works| && s.works[n].phase.Reading?
    case Diagnosed(n) => n < |s.works| && s.works[n].phase.Diagnosing?
    case Deliver(c) =>
      && c in s.callers && s.callers[c].Awaiting?
      && s.callers[c].work < |s.works| && s.works[s.callers[c].work].phase.Done?
    case Cancel(c) => c in s.callers && s.callers[c].Awaiting?
  }

  function SetPhase(s: Store, n: nat, phase: Phase): Store
    requires n < |s.works|
  {
    s.(works := s.works[n := Work(s.works[n].cref, phase)])
  }

  /** The run ends and its entry goes, in one stretch. */
  function EndWork(s: Store, n: nat, outcome: Outcome): Store
    requires n < |s.works|
  {
    SetPhase(s, n, Done(outcome)).(pending := s.pending - {s.works[n].cref})
  }

  function StripNewline(text: string): string {
    if text != "" && text[|text| - 1] == '\n' then text[..|text| - 1] else text
  }

  function Refuse(s: Store, n: nat, stderr: Stderr): Store
    requires n < |s.works|
  {
    match stderr
    case NotSignedIn => EndWork(s, n, Err(Unauthenticated))
    case TooManyRequests => SetPhase(s, n, Diagnosing)
    case Unrecognised => EndWork(s, n, Err(OtherError))
  }

  function Listed(s: Store, n: nat, found: Lookup): Store
    requires n < |s.works|
  {
    var s' := s.(lookups := s.lookups + [found], idCache := CacheAfter(s.idCache, found.domain, LookupResult(found)));
    match LookupResult(found)
    case Ok(ids) => SetPhase(s', n, Reading(ids))
    case Err(e) => EndWork(s', n, Err(e))
  }

  function Next(s: Store, step: Step): Store
    requires Enabled(s, step)
  {
    match step
    case Resolve(c, cref) =>
      if cref in s.pending then s.(callers := s.callers[c := Awaiting(cref, s.pending[cref])])
      else
        var n := |s.works|;
        var phase := if cref.domain in s.idCache then Reading(s.idCache[cref.domain]) else Listing;
        s.(pending := s.pending[cref := n], works := s.works + [Work(cref, phase)],
           callers := s.callers[c := Awaiting(cref, n)])
    case ListAnswered(n, host, listing) =>
      (match listing
       case Exited(items) => Listed(s, n, Lookup(s.works[n].cref.domain, host, items))
       case Refused(stderr) => Refuse(s, n, stderr)
       case NotSpawned => EndWork(s, n, Err(SpawnFailed)))
    case ReadAnswered(n, reading) =>
      (match reading
       case Exited(text) => EndWork(s, n, Ok(StripNewline(text)))
       case Refused(stderr) => Refuse(s, n, stderr)
       case NotSpawned => EndWork(s, n, Err(SpawnFailed)))
    case Diagnosed(n) => EndWork(s, n, Err(RateLimited))
    case Deliver(c) =>
      var k := s.callers[c];
      s.(callers := s.callers[c := Answered(k.cref, k.work, s.works[k.work].phase.outcome)])
    case Cancel(c) => s.(callers := s.callers[c := Dropped])
  }

  // ----- What every step keeps ---------------------------------------------------------------------------

  /** `pending` names exactly the runs that have not finished, each under its own ref. */
  ghost predicate PendingOk(s: Store) {
    && (forall r :: r in s.pending ==>
          s.pending[r] < |s.works| && s.works[s.pending[r]].cref == r && !s.works[s.pending[r]].phase.Done?)
    && (forall n :: 0 <= n < |s.works| && !s.works[n].phase.Done? ==>
          s.works[n].cref in s.pending && s.pending[s.works[n].cref] == n)
  }

  ghost predicate CallerOk(s: Store, k: Caller) {
    match k
    case Awaiting(r, n) => n < |s.works| && s.works[n].cref == r
    case Answered(r, n, outcome) => n < |s.works| && s.works[n] == Work(r, Done(outcome))
    case Dropped => true
  }

  ghost predicate CallersOk(s: Store) {
    forall c :: c in s.callers ==> CallerOk(s, s.callers[c])
  }

  /** Some list command for `domain` found exactly one item, with these ids. */
  ghost predicate UniquelyFound(s: Store, domain: string, ids: Ids) {
    exists k :: 0 <= k < |s.lookups| && s.lookups[k].domain == domain && LookupResult(s.lookups[k]) == Ok(ids)
  }

  ghost predicate IdsOk(s: Store) {
    && (forall d :: d in s.idCache ==> UniquelyFound(s, d, s.idCache[d]))
    && (forall n :: 0 <= n < |s.works| && s.works[n].phase.Reading? ==>
          UniquelyFound(s, s.works[n].cref.domain, s.works[n].phase.ids))
  }

  ghost predicate Inv(s: Store) {
    PendingOk(s) && CallersOk(s) && IdsOk(s)
  }

  /** A backend answer moves one run on; the entry goes exactly when the run is done. */
  ghost predicate Moves(s: Store, s': Store, n: nat) {
    && n < |s.works| && !s.works[n].phase.Done? && |s'.works| == |s.works|
    && s'.works == s.works[n := Work(s.works[n].cref, s'.works[n].phase)]
    && s'.pending == (if s'.works[n].phase.Done? then s.pending - {s.works[n].cref} else s.pending)
    && s'.callers == s.callers && s.lookups <= s'.lookups
  }

  predicate IsAnswer(step: Step) {
    step.ListAnswered? || step.ReadAnswered? || step.Diagnosed?
  }

  lemma AnswerMoves(s: Store, step: Step)
    requires Enabled(s, step) && IsAnswer(step)
    ensures Moves(s, Next(s, step), step.n)
  {
    if step.ListAnswered? && step.listing.Exited? {
      ListedMoves(s, step.n, Lookup(s.works[step.n].cref.domain, step.host, step.listing.stdout));
    } else if step.ListAnswered? && step.listing.Refused? {
      RefusedMoves(s, step.n, step.listing.stderr);
    } else if step.ReadAnswered? && step.reading.Refused? {
      RefusedMoves(s, step.n, step.reading.stderr);
    }
  }

  lemma RefusedMoves(s: Store, n: nat, stderr: Stderr)
    requires n < |s.works| && !s.works[n].phase.Done?
    ensures Moves(s, Refuse(s, n, stderr), n)
  {
  }

  lemma ListedMoves(s: Store, n: nat, found: Lookup)
    requires n < |s.works| && s.works[n].phase.Listing?
    ensures Moves(s, Listed(s, n, found), n)
  {
  }

  lemma MoveKeepsPending(s: Store, s': Store, n: nat)
    requires PendingOk(s) && Moves(s, s', n)
    ensures PendingOk(s')
  {
  }

  lemma StepKeepsPending(s: Store, step: Step)
    requires PendingOk(s) && Enabled(s, step)
    ensures PendingOk(Next(s, step))
  {
    if IsAnswer(step) {
      AnswerMoves(s, step);
      MoveKeepsPending(s, Next(s, step), step.n);
    }
  }

  /** Runs are only added, keep their refs, and keep their outcome once they have one. */
  ghost predicate Continues(s: Store, s': Store) {
    && |s.works| <= |s'.works|
    && (forall n :: 0 <= n < |s.works| ==> s'.works[n].cref == s.works[n].cref)
    && (forall n :: 0 <= n < |s.works| && s.works[n].phase.Done? ==> s'.works[n] == s.works[n])
    && s.lookups <= s'.lookups
    && s.callers.Keys <= s'.callers.Keys
  }

  lemma StepContinues(s: Store, step: Step)
    requires Enabled(s, step)
    ensures Continues(s, Next(s, step))
  {
    if IsAnswer(step) { AnswerMoves(s, step); }
  }

  lemma StepKeepsCallers(s: Store, step: Step)
    requires PendingOk(s) && CallersOk(s) && Enabled(s, step)
    ensures CallersOk(Next(s, step))
  {
    var s' := Next(s, step);
    StepContinues(s, step);
    forall c | c in s'.callers ensures CallerOk(s', s'.callers[c]) {
      if c in s.callers { assert CallerOk(s, s.callers[c]); }
    }
  }

  lemma FoundStaysFound(s: Store, s': Store, domain: string, ids: Ids)
    requires UniquelyFound(s, domain, ids) && s.lookups <= s'.lookups
    ensures UniquelyFound(s', domain, ids)
  {
    var k :| 0 <= k < |s.lookups| && s.lookups[k].domain == domain && LookupResult(s.lookups[k]) == Ok(ids);
    assert s'.lookups[k] == s.lookups[k];
  }

  /** The cache changes only when a list command succeeds and finds one item. */
  lemma StepChangesCacheOnly(s: Store, step: Step)
    requires Enabled(s, step)
    ensures var s' := Next(s, step);
      if step.ListAnswered? && step.listing.Exited? then
        var found := Lookup(s.works[step.n].cref.domain, step.host, step.listing.stdout);
        && s'.lookups == s.lookups + [found]
        && s'.idCache ==
           if LookupResult(found).Ok? then s.idCache[found.domain := LookupResult(found).value] else s.idCache
      else s'.idCache == s.idCache && s'.lookups == s.lookups
  {
  }

  /** The ids a run starts to read with are cached ids, or those of its own list command. */
  lemma ReadsFound(s: Store, step: Step, n: nat)
    requires Enabled(s, step) && n < |Next(s, step).works| && Next(s, step).works[n].phase.Reading?
    ensures var s', w := Next(s, step), Next(s, step).works[n];
      || (n < |s.works| && s.works[n] == w)
      || (w.cref.domain in s.idCache && w.phase.ids == s.idCache[w.cref.domain])
      || (s'.lookups != s.lookups && s'.lookups[|s.lookups|].domain == w.cref.domain
          && LookupResult(s'.lookups[|s.lookups|]) == Ok(w.phase.ids))
  {
    if step.ListAnswered? && step.listing.Exited? {
      var found := Lookup(s.works[step.n].cref.domain, step.host, step.listing.stdout);
      assert Next(s, step) == Listed(s, step.n, found);
      ListedReads(s, step.n, found, n);
    } else if IsAnswer(step) {
      AnswerMoves(s, step);
      OtherAnswerReadsNothing(s, step, n);
    } else if step.Resolve? {
      ResolveReads(s, step.c, step.cref, n);
    }
  }

  lemma OtherAnswerReadsNothing(s: Store, step: Step, n: nat)
    requires Enabled(s, step) && IsAnswer(step) && !(step.ListAnswered? && step.listing.Exited?)
    requires n < |s.works| == |Next(s, step).works| && Next(s, step).works[n].phase.Reading?
    ensures s.works[n] == Next(s, step).works[n]
  {
  }

  lemma ResolveReads(s: Store, c: nat, cref: CredentialRef, n: nat)
    requires Enabled(s, Resolve(c, cref)) && n < |Next(s, Resolve(c, cref)).works|
    ensures var w := Next(s, Resolve(c, cref)).works[n];
      || (n < |s.works| && s.works[n] == w)
      || (w.phase.Reading? ==> w.cref.domain in s.idCache && w.phase.ids == s.idCache[w.cref.domain])
  {
  }

  lemma ListedReads(s: Store, n: nat, found: Lookup, m: nat)
    requires n < |s.works| && !s.works[n].phase.Reading? && found.domain == s.works[n].cref.domain && m < |s.works|
    ensures var s' := Listed(s, n, found);
      && s'.lookups == s.lookups + [found]
      && (s'.works[m].phase.Reading? ==>
            s'.works[m] == s.works[m] || (m == n && LookupResult(found) == Ok(s'.works[m].phase.ids)))
  {
  }

  lemma StepKeepsIds(s: Store, step: Step)
    requires IdsOk(s) && Enabled(s, step)
    ensures IdsOk(Next(s, step))
  {
    var s' := Next(s, step);
    StepContinues(s, step);
    StepChangesCacheOnly(s, step);
    forall d, ids | UniquelyFound(s, d, ids) ensures UniquelyFound(s', d, ids) { FoundStaysFound(s, s', d, ids); }
    forall n | 0 <= n < |s'.works| && s'.works[n].phase.Reading?
      ensures UniquelyFound(s', s'.works[n].cref.domain, s'.works[n].phase.ids)
    {
      ReadsFound(s, step, n);
    }
  }

  lemma StepKeepsInv(s: Store, step: Step)
    requires Inv(s) && Enabled(s, step)
    ensures Inv(Next(s, step))
  {
    StepKeepsPending(s, step);
    StepKeepsCallers(s, step);
    StepKeepsIds(s, step);
  }

  // ----- Runs ---------------------------------------------------------------------------------------------

  ghost predicate ValidRun(s: Store, steps: seq<Step>)
    decreases |steps|
  {
    steps != [] ==> Enabled(s, steps[0]) && ValidRun(Next(s, steps[0]), steps[1..])
  }

  ghost function After(s: Store, steps: seq<Step>): Store
    requires ValidRun(s, steps)
    decreases |steps|
  {
    if steps == [] then s else After(Next(s, steps[0]), steps[1..])
  }

  lemma {:induction false} RunKeepsInv(s: Store, steps: seq<Step>)
    requires Inv(s) && ValidRun(s, steps)
    ensures Inv(After(s, steps))
    decreases |steps|
  {
    if steps != [] {
      StepKeepsInv(s, steps[0]);
      RunKeepsInv(Next(s, steps[0]), steps[1..]);
    }
  }

  /** In every run, a ref has at most one backend run in flight, and that is the one `pending` names. */
  lemma OneRunPerRef(steps: seq<Step>, m: nat, n: nat)
    requires ValidRun(Empty(), steps)
    requires var w := After(Empty(), steps).works;
      m < |w| && n < |w| && w[m].cref == w[n].cref && !w[m].phase.Done? && !w[n].phase.Done?
    ensures m == n && After(Empty(), steps).works[m].cref in After(Empty(), steps).pending
  {
    RunKeepsInv(Empty(), steps);
    assert PendingOk(After(Empty(), steps));
  }

  /** Every answer is the outcome of the run its caller joined, so joiners of one run agree. */
  lemma JoinersAgree(steps: seq<Step>, c: nat, d: nat)
    requires ValidRun(Empty(), steps)
    requires var k := After(Empty(), steps).callers;
      c in k && d in k && k[c].Answered? && k[d].Answered? && k[c].work == k[d].work
    ensures var s := After(Empty(), steps);
      && s.callers[c].outcome == s.callers[d].outcome && s.callers[c].cref == s.callers[d].cref
      && s.callers[c].work < |s.works| && s.works[s.callers[c].work].phase == Done(s.callers[c].outcome)
  {
    RunKeepsInv(Empty(), steps);
    var s := After(Empty(), steps);
    assert CallerOk(s, s.callers[c]) && CallerOk(s, s.callers[d]);
  }

  /** A step that finishes a run removes that run's entry and no other. */
  lemma FinishRemovesOwnEntry(steps: seq<Step>, step: Step, n: nat)
    requires ValidRun(Empty(), steps) && Enabled(After(Empty(), steps), step)
    requires var s := After(Empty(), steps);
      n < |s.works| && !s.works[n].phase.Done? && Next(s, step).works[n].phase.Done?
    ensures var s, s' := After(Empty(), steps), Next(After(Empty(), steps), step);
      && s.works[n].cref in s.pending && s.pending[s.works[n].cref] == n
      && s'.pending == s.pending - {s.works[n].cref}
      && forall m :: 0 <= m < |s.works| && m != n ==> s'.works[m] == s.works[m]
  {
    RunKeepsInv(Empty(), steps);
    if IsAnswer(step) { AnswerMoves(After(Empty(), steps), step); }
  }

  /** A caller keeps the run it joined, whatever happens later. */
  ghost predicate FreshCallers(s0: Store, s: Store) {
    forall c :: c in s.callers && c !in s0.callers && !s.callers[c].Dropped? ==>
      s.callers[c].work >= |s0.works| || !s0.works[s.callers[c].work].phase.Done?
  }

  lemma StepKeepsFresh(s0: Store, s: Store, step: Step)
    requires PendingOk(s) && Continues(s0, s) && FreshCallers(s0, s) && Enabled(s, step)
    ensures FreshCallers(s0, Next(s, step)) && Continues(s0, Next(s, step))
  {
    StepContinues(s, step);
    if IsAnswer(step) {
      AnswerMoves(s, step);
    } else if step.Resolve? {
      JoinIsFresh(s0, s, step.c, step.cref);
    }
  }

  lemma JoinIsFresh(s0: Store, s: Store, c: nat, cref: CredentialRef)
    requires PendingOk(s) && Continues(s0, s) && Enabled(s, Resolve(c, cref))
    ensures var n := Next(s, Resolve(c, cref)).callers[c].work; n >= |s0.works| || !s0.works[n].phase.Done?
  {
    if cref in s.pending {
      assert !s.works[s.pending[cref]].phase.Done?;
    }
  }

  lemma {:induction false} RunKeepsFresh(s0: Store, s: Store, steps: seq<Step>)
    requires Inv(s) && Continues(s0, s) && FreshCallers(s0, s) && ValidRun(s, steps)
    ensures FreshCallers(s0, After(s, steps))
    decreases |steps|
  {
    if steps != [] {
      StepKeepsInv(s, steps[0]);
      StepKeepsFresh(s0, s, steps[0]);
      RunKeepsFresh(s0, Next(s, steps[0]), steps[1..]);
    }
  }

  /** Nothing is remembered: a resolve that starts once a run has finished never gets that run. */
  lemma NoValueCache(steps: seq<Step>, more: seq<Step>, c: nat)
    requires ValidRun(Empty(), steps) && ValidRun(After(Empty(), steps), more)
    requires var s, s' := After(Empty(), steps), After(After(Empty(), steps), more);
      c !in s.callers && c in s'.callers && !s'.callers[c].Dropped?
    ensures var s, s' := After(Empty(), steps), After(After(Empty(), steps), more);
      s'.callers[c].work >= |s.works| || !s.works[s'.callers[c].work].phase.Done?
  {
    RunKeepsInv(Empty(), steps);
    var s := After(Empty(), steps);
    RunKeepsFresh(s, s, more);
  }

  /** Cached ids, and the ids any run reads with, come from a list command that found one item. */
  lemma CachedIdsWereUnique(steps: seq<Step>)
    requires ValidRun(Empty(), steps)
    ensures var s := After(Empty(), steps);
      && (forall d :: d in s.idCache ==> UniquelyFound(s, d, s.idCache[d]))
      && (forall n :: 0 <= n < |s.works| && s.works[n].phase.Reading? ==>
           UniquelyFound(s, s.works[n].cref.domain, s.works[n].phase.ids))
  {
    RunKeepsInv(Empty(), steps);
    assert IdsOk(After(Empty(), steps));
  }

  // ----- The store in place -------------------------------------------------------------------------------

  /**
   * The store as the program updates it. Each method is one step: it does to the fields what
   * the step does to the value, so whatever holds of every run holds of the object.
   */
  class CredentialStore {
    var pending: map<CredentialRef, nat>
    var idCache: map<string, Ids>
    var works: seq<Work>
    var callers: map<nat, Caller>
    ghost var lookups: seq<Lookup>

    ghost function Value(): Store
      reads this
    {
      Store(pending, idCache, works, callers, lookups)
    }

    constructor ()
      ensures Value() == Empty() && Inv(Value())
    {
      pending, idCache, works, callers, lookups := map[], map[], [], map[], [];
    }

    /** Joins the run in flight for that ref, or starts one: never a second one. */
    method Enter(c: nat, cref: CredentialRef) returns (work: nat)
      requires Inv(Value()) && Enabled(Value(), Resolve(c, cref))
      modifies this
      ensures Value() == Next(old(Value()), Resolve(c, cref)) && Inv(Value())
      ensures work < |works| && works[work].cref == cref && !works[work].phase.Done? && pending[cref] == work
      ensures work == |old(works)| <==> cref !in old(pending)
    {
      StepKeepsInv(Value(), Resolve(c, cref));
      if cref in pending {
        work := pending[cref];
      } else {
        work := |works|;
        var phase := Listing;
        if cref.domain in idCache {
          phase := Reading(idCache[cref.domain]);
        }
        works := works + [Work(cref, phase)];
        pending := pending[cref := work];
      }
      callers := callers[c := Awaiting(cref, work)];
    }

    /** A run ends: the ref is free again, and whoever joined finds the outcome. */
    method Clear(n: nat, outcome: Outcome)
      requires Inv(Value()) && n < |works| && !works[n].phase.Done?
      modifies `pending, `works
      ensures Value() == EndWork(old(Value()), n, outcome)
      ensures old(pending)[works[n].cref] == n && works[n].cref !in pending
    {
      var cref := works[n].cref;
      assert pending[cref] == n;
      pending := pending - {cref};
      works := works[n := Work(cref, Done(outcome))];
    }

    method RefuseRun(n: nat, stderr: Stderr)
      requires Inv(Value()) && n < |works| && !works[n].phase.Done?
      modifies `pending, `works
      ensures Value() == Refuse(old(Value()), n, stderr)
    {
      match stderr
      case NotSignedIn => Clear(n, Err(Unauthenticated));
      case TooManyRequests => works := works[n := Work(works[n].cref, Diagnosing)];
      case Unrecognised => Clear(n, Err(OtherError));
    }

    /** The list command is done: the ids are cached before the value is read, and only if they are unique. */
    method LookedUp(n: nat, host: Option<string>, listing: Output<Option<seq<Item>>>)
      requires Inv(Value()) && Enabled(Value(), ListAnswered(n, host, listing))
      modifies this
      ensures Value() == Next(old(Value()), ListAnswered(n, host, listing)) && Inv(Value())
    {
      StepKeepsInv(Value(), ListAnswered(n, host, listing));
      match listing
      case NotSpawned => Clear(n, Err(SpawnFailed));
      case Refused(stderr) => RefuseRun(n, stderr);
      case Exited(items) =>
        var found := Lookup(works[n].cref.domain, host, items);
        match LookupResult(found) {
          case Ok(ids) =>
            lookups := lookups + [found];
            idCache := idCache[found.domain := ids];
            works := works[n := Work(works[n].cref, Reading(ids))];
          case Err(e) =>
            Clear(n, Err(e));
            lookups := lookups + [found];
        }
    }

    method ReadValue(n: nat, reading: Output<string>)
      requires Inv(Value()) && Enabled(Value(), ReadAnswered(n, reading))
      modifies `pending, `works
      ensures Value() == Next(old(Value()), ReadAnswered(n, reading)) && Inv(Value())
    {
      StepKeepsInv(Value(), ReadAnswered(n, reading));
      match reading
      case NotSpawned => Clear(n, Err(SpawnFailed));
      case Refused(stderr) => RefuseRun(n, stderr);
      case Exited(text) => Clear(n, Ok(StripNewline(text)));
    }
  }
}
