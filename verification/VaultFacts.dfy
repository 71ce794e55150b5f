/**
 * What a lookup names, and what a resolve answers, in terms of the items and of what the command
 * line printed.
 */
module VaultFacts {
  import opened Options
  import opened Vault

  // ----- Lookups ---------------------------------------------------------------------------

  /** An item counts if it has both ids and a link to that very host. */
  predicate Counts(item: Item, target: string) {
    Some(Some(target)) in item.urls && item.vault.Some? && item.item.Some?
  }

  lemma CountsIff(item: Item, target: string)
    ensures Counts(item, target) <==> ItemMatches(item, target) && Complete(item)
  {
    if ItemMatches(item, target) {
      var i :| 0 <= i < |item.urls| && SameHost(item.urls[i], target);
      assert item.urls[i] in item.urls;
    }
    if Some(Some(target)) in item.urls {
      var i :| 0 <= i < |item.urls| && item.urls[i] == Some(Some(target));
      assert SameHost(item.urls[i], target);
    }
  }

  /** The titles of the items that count, in order. */
  function TitlesOf(items: seq<Item>, target: string): seq<string> {
    if items == [] then [] else
      (if Counts(items[0], target)
       then [match items[0].title case Some(title) => title case None => "<untitled>"] else [])
      + TitlesOf(items[1..], target)
  }

  lemma {:induction false} TitlesAre(items: seq<Item>, target: string)
    ensures Titles(MatchingItems(items, target)) == TitlesOf(items, target)
  {
    if items != [] {
      TitlesAre(items[1..], target);
      CountsIff(items[0], target);
      var first := if Counts(items[0], target) then [MatchOf(items[0])] else [];
      assert MatchingItems(items, target) == first + MatchingItems(items[1..], target);
      if first != [] { assert (first + MatchingItems(items[1..], target))[1..] == MatchingItems(items[1..], target); }
    }
  }

  /** Item `i` is the only one that counts. */
  ghost predicate OnlyOne(items: seq<Item>, target: string, i: int) {
    && 0 <= i < |items| && Counts(items[i], target)
    && forall j :: 0 <= j < |items| && j != i ==> !Counts(items[j], target)
  }

  /** A lookup names the ids of the one item that counts; if none does, or several do, it names nothing. */
  lemma LookupNames(items: seq<Item>, target: string)
    ensures var r := PickUniqueMatch(MatchingItems(items, target));
      && (forall i :: OnlyOne(items, target, i) ==> r == Ok(Ids(items[i].vault.value, items[i].item.value)))
      && (r.Ok? ==> exists i :: OnlyOne(items, target, i))
      && (r == Err(DomainMismatch) <==> forall i :: 0 <= i < |items| ==> !Counts(items[i], target))
      && (r.Err? && r != Err(DomainMismatch) ==>
            |TitlesOf(items, target)| > 1 && r == Err(Ambiguous(TitlesOf(items, target))))
  {
    var c, r := Candidates(items, target), PickUniqueMatch(MatchingItems(items, target));
    LookupOkIff(items, target);
    TitlesAre(items, target);
    forall i | 0 <= i < |items| ensures Counts(items[i], target) <==> i in c { CountsIff(items[i], target); }
    forall i | OnlyOne(items, target, i) ensures r == Ok(Ids(items[i].vault.value, items[i].item.value)) {
      assert c == {i};
    }
    if r.Ok? {
      SingletonOf(c);
      var i :| i in c;
      assert OnlyOne(items, target, i);
    }
  }

  // ----- Answers ------------------------------------------------------------------------------

  /** `value` is what was printed, without the newline at its end, if there is one. */
  predicate Stripped(text: string, value: string) {
    if text != "" && text[|text| - 1] == '\n' then text == value + "\n" else text == value
  }

  lemma StrippedNewline(text: string)
    ensures Stripped(text, StripNewline(text))
  {
    if text != "" { assert text == text[..|text| - 1] + [text[|text| - 1]]; }
  }

  /** What a failed command means for the run; a rate limit takes one more command, and then means itself. */
  lemma RefusalsMean(s: Store, n: nat)
    requires n < |s.works|
    ensures Refuse(s, n, NotSignedIn).works[n].phase == Done(Err(Unauthenticated))
    ensures Refuse(s, n, Unrecognised).works[n].phase == Done(Err(OtherError))
    ensures Refuse(s, n, TooManyRequests).works[n].phase == Diagnosing
    ensures s.works[n].phase.Diagnosing? ==> Next(s, Diagnosed(n)).works[n].phase == Done(Err(RateLimited))
  {
  }

  /** A list command leads to a read with the ids it names, and to an error if it names none. */
  lemma ListMeans(s: Store, n: nat, host: Option<string>, items: Option<seq<Item>>)
    requires Enabled(s, ListAnswered(n, host, Exited(items)))
    ensures var w := Next(s, ListAnswered(n, host, Exited(items))).works[n];
      && (host == None || items == None ==> w.phase == Done(Err(OtherError)))
      && (host.Some? && items.Some? ==>
            match PickUniqueMatch(MatchingItems(items.value, host.value))
            case Ok(ids) => w.phase == Reading(ids)
            case Err(e) => w.phase == Done(Err(e)))
    ensures Next(s, ListAnswered(n, host, NotSpawned)).works[n].phase == Done(Err(SpawnFailed))
  {
  }

  /** A resolve that joins no run reads at once with the ids cached for its domain, and lists if there are none. */
  lemma NewRunStarts(s: Store, c: nat, cref: CredentialRef)
    requires Enabled(s, Resolve(c, cref)) && cref !in s.pending
    ensures var s', n := Next(s, Resolve(c, cref)), |s.works|;
      && |s'.works| == n + 1 && s'.callers[c] == Awaiting(cref, n) && s'.works[n].cref == cref
      && s'.works[n].phase == if cref.domain in s.idCache then Reading(s.idCache[cref.domain]) else Listing
  {
  }

  // ----- Where a value comes from ------------------------------------------------------------------

  /**
   * Step `k` of the run was the answer to a read of the ids that a list command had found for the
   * domain, as the only ones, and printed the value.
   */
  ghost predicate WasRead(steps: seq<Step>, k: int, n: nat, value: string)
    requires ValidRun(Empty(), steps)
  {
    && 0 <= k < |steps| && ValidRun(Empty(), steps[..k])
    && var before := After(Empty(), steps[..k]);
      && n < |before.works| && before.works[n].phase.Reading?
      && UniquelyFound(before, before.works[n].cref.domain, before.works[n].phase.ids)
      && steps[k].ReadAnswered? && steps[k].n == n && steps[k].reading.Exited?
      && Stripped(steps[k].reading.stdout, value)
  }

  lemma {:induction false} RunPrefix(s: Store, steps: seq<Step>, k: nat)
    requires ValidRun(s, steps) && k <= |steps|
    ensures ValidRun(s, steps[..k])
    ensures k < |steps| ==> Enabled(After(s, steps[..k]), steps[k]) && ValidRun(s, steps[..k + 1])
    ensures k < |steps| ==> After(s, steps[..k + 1]) == Next(After(s, steps[..k]), steps[k])
    decreases |steps|
  {
    if k > 0 {
      RunPrefix(Next(s, steps[0]), steps[1..], k - 1);
      assert steps[..k][1..] == steps[1..][..k - 1];
      if k < |steps| { assert steps[..k + 1][1..] == steps[1..][..k]; }
    } else if steps != [] {
      assert steps[..1][1..] == [] && steps[..0] == [];
    }
  }

  lemma OnlyReadsSucceed(s: Store, step: Step, n: nat, value: string)
    requires Enabled(s, step) && n < |Next(s, step).works| && Next(s, step).works[n].phase == Done(Ok(value))
    ensures || (n < |s.works| && s.works[n] == Next(s, step).works[n])
      || (step.ReadAnswered? && step.n == n && step.reading.Exited? && Stripped(step.reading.stdout, value))
  {
    if step.ReadAnswered? && step.reading.Exited? { StrippedNewline(step.reading.stdout); }
    if IsAnswer(step) { AnswerMoves(s, step); }
  }

  /** In every run, a value that a resolve ends with was printed by a read of ids found to be the only ones. */
  lemma {:induction false} ValueWasRead(steps: seq<Step>, n: nat, value: string)
    requires ValidRun(Empty(), steps)
    requires n < |After(Empty(), steps).works| && After(Empty(), steps).works[n].phase == Done(Ok(value))
    ensures exists k :: WasRead(steps, k, n, value)
    decreases |steps|
  {
    if steps != [] {
      var m := |steps| - 1;
      RunPrefix(Empty(), steps, m);
      assert steps[..m + 1] == steps;
      var before := After(Empty(), steps[..m]);
      OnlyReadsSucceed(before, steps[m], n, value);
      if n < |before.works| && before.works[n].phase == Done(Ok(value)) {
        ValueWasRead(steps[..m], n, value);
        var k :| WasRead(steps[..m], k, n, value);
        assert steps[..m][..k] == steps[..k];
        assert WasRead(steps, k, n, value);
      } else {
        RunKeepsInv(Empty(), steps[..m]);
        assert WasRead(steps, m, n, value);
      }
    }
  }
}
