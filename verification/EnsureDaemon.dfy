/**
 * Starting the daemon on demand: ping, spawn once if nothing listens, then ping again after
 * sleeps that double up to a cap, until a ping succeeds or the startup timeout has passed.
 *
 * All times are in milliseconds. What the outside does is the parameter `Outside`: how each
 * ping ends and how long it takes, whether the spawn succeeds, how long each sleep lasts.
 */
module EnsureDaemon {
  import opened Options

  const DEFAULT_STARTUP_TIMEOUT: nat := 30_000
  const DIAL_TIMEOUT: nat := 2_000
  const POLL_START: nat := 50
  const POLL_CAP: nat := 500

  type Error = string

  datatype Ping = Pong | TimedOut | Failed(error: Error)

  datatype Outside = Outside(
    ping: nat -> Ping, pingTook: nat -> nat, spawn: Result<(), Error>, spawnTook: nat, slept: nat -> nat)

  function Power2(k: nat): nat {
    if k == 0 then 1 else 2 * Power2(k - 1)
  }

  /** How long round `k` sleeps. */
  function Backoff(k: nat): nat {
    if POLL_START * Power2(k) < POLL_CAP then POLL_START * Power2(k) else POLL_CAP
  }

  lemma BackoffDoubles(k: nat)
    ensures Backoff(k + 1) == if 2 * Backoff(k) < POLL_CAP then 2 * Backoff(k) else POLL_CAP
    ensures POLL_START <= Backoff(k) <= POLL_CAP
  {
    Power2Positive(k);
  }

  /** The first four sleeps, and all later ones. */
  lemma BackoffIs(k: nat)
    ensures Backoff(k) ==
      if k == 0 then 50 else if k == 1 then 100 else if k == 2 then 200 else if k == 3 then 400 else 500
  {
    assert Power2(1) == 2 && Power2(2) == 4 && Power2(3) == 8;
    if k >= 4 { BackoffCapped(k); }
  }

  lemma {:induction false} Power2Positive(k: nat)
    ensures Power2(k) >= 1
  {
    if k > 0 { Power2Positive(k - 1); }
  }

  /** Sleeping for a while moves the clock by at least as much. */
  ghost predicate ClockAdvances(o: Outside) {
    forall k: nat :: o.slept(k) >= Backoff(k)
  }

  /** When round `k` begins, if all rounds before it failed. */
  function RoundStart(o: Outside, start: nat, k: nat): nat
    decreases k, 0
  {
    if k == 0 then start else CheckTime(o, start, k - 1) + o.slept(k - 1)
  }

  /** When round `k` looks at the clock: after its ping, and in the first round after the spawn. */
  function CheckTime(o: Outside, start: nat, k: nat): nat
    decreases k, 1
  {
    RoundStart(o, start, k) + o.pingTook(k) + if k == 0 then o.spawnTook else 0
  }

  function Deadline(start: nat, timeout: Option<nat>): nat {
    start + UnwrapOr(timeout, DEFAULT_STARTUP_TIMEOUT)
  }

  /** Round `k` is the last, should it be reached. */
  predicate Ends(o: Outside, start: nat, deadline: nat, k: nat) {
    !o.ping(k).Failed? || (k == 0 && o.spawn.Err?) || CheckTime(o, start, k) >= deadline
  }

  ghost predicate LastRound(o: Outside, start: nat, deadline: nat, n: nat) {
    Ends(o, start, deadline, n) && forall k: nat :: k < n ==> !Ends(o, start, deadline, k)
  }

  /** What was done: each ping's timeout, each sleep's length, and the number of spawns. */
  datatype Trace = Trace(pings: seq<nat>, sleeps: seq<nat>, spawns: nat)

  method EnsureDaemon(o: Outside, start: nat, timeout: Option<nat>) returns (r: Result<(), Error>, trace: Trace)
    requires ClockAdvances(o)
    ensures trace.pings != [] && LastRound(o, start, Deadline(start, timeout), |trace.pings| - 1)
    ensures r.Ok? <==> !o.ping(|trace.pings| - 1).Failed?
    ensures r.Err? ==>
      r.error == if |trace.pings| == 1 && o.spawn.Err? then o.spawn.error else o.ping(|trace.pings| - 1).error
    ensures trace.spawns == if o.ping(0).Failed? then 1 else 0
    ensures forall k :: 0 <= k < |trace.pings| ==> trace.pings[k] == if k == 0 then 2_000 else 500
    ensures |trace.sleeps| == |trace.pings| - 1 && forall k :: 0 <= k < |trace.sleeps| ==> trace.sleeps[k] == Backoff(k)
  {
    var spawned := false;
    var now := start;
    var deadline := now + UnwrapOr(timeout, DEFAULT_STARTUP_TIMEOUT);
    var backoff := POLL_START;
    var pingTimeout := DIAL_TIMEOUT;
    var pings, sleeps, spawns: nat := [], [], 0;
    while true
      invariant |pings| == |sleeps| && now == RoundStart(o, start, |pings|)
      invariant (spawned <==> |pings| > 0) && (spawned ==> o.ping(0).Failed?)
      invariant spawns == if spawned then 1 else 0
      invariant pingTimeout == if spawned then POLL_CAP else DIAL_TIMEOUT
      invariant backoff == Backoff(|pings|)
      invariant forall k :: 0 <= k < |pings| ==> !Ends(o, start, deadline, k)
      invariant forall k :: 0 <= k < |pings| ==>
        pings[k] == (if k == 0 then DIAL_TIMEOUT else POLL_CAP) && sleeps[k] == Backoff(k)
      invariant |pings| > 0 ==> now < deadline + o.slept(|pings| - 1)
      decreases if now < deadline then 1 else 0, deadline - now
    {
      var k := |pings|;
      pings := pings + [pingTimeout];
      now := now + o.pingTook(k);
      if !o.ping(k).Failed? {
        return Ok(()), Trace(pings, sleeps, spawns);
      }
      if !spawned {
        spawns := spawns + 1;
        now := now + o.spawnTook;
        if o.spawn.Err? {
          return Err(o.spawn.error), Trace(pings, sleeps, spawns);
        }
        spawned := true;
        pingTimeout := POLL_CAP;
      }
      if now >= deadline {
        return Err(o.ping(k).error), Trace(pings, sleeps, spawns);
      }
      now := now + o.slept(k);
      sleeps := sleeps + [backoff];
      BackoffDoubles(k);
      backoff := if backoff * 2 < POLL_CAP then backoff * 2 else POLL_CAP;
    }
  }

  // ----- How long it may take ---------------------------------------------------------------------

  /** The ping of the last round failed, and not because nothing could be spawned. */
  predicate GaveUp(o: Outside, n: nat) {
    o.ping(n).Failed? && (n == 0 ==> o.spawn.Ok?)
  }

  /**
   * Giving up is never early. In the first round it is late by at most its ping and the spawn,
   * later by less than one sleep and one ping, a sleep being at most 500 ms if it is exact.
   */
  lemma GivesUpInTime(o: Outside, start: nat, timeout: Option<nat>, n: nat)
    requires ClockAdvances(o) && LastRound(o, start, Deadline(start, timeout), n) && GaveUp(o, n)
    ensures var due := start + match timeout case Some(given) => given case None => 30_000;
      && due <= CheckTime(o, start, n)
      && (n == 0 ==> CheckTime(o, start, n) <= due + o.pingTook(0) + o.spawnTook)
      && (n > 0 ==> CheckTime(o, start, n) < due + o.slept(n - 1) + o.pingTook(n))
      && (n > 0 && o.slept(n - 1) == Backoff(n - 1) ==> CheckTime(o, start, n) < due + 500 + o.pingTook(n))
  {
    if n > 0 {
      assert !Ends(o, start, Deadline(start, timeout), n - 1);
      BackoffDoubles(n - 1);
    }
  }

  function TotalBackoff(n: nat): nat {
    if n == 0 then 0 else TotalBackoff(n - 1) + Backoff(n - 1)
  }

  lemma {:induction false} SleepsAddUp(o: Outside, start: nat, n: nat)
    requires ClockAdvances(o)
    ensures RoundStart(o, start, n) >= start + TotalBackoff(n)
  {
    if n > 0 { SleepsAddUp(o, start, n - 1); }
  }

  lemma {:induction false} TotalBackoffIs(n: nat)
    requires n >= 4
    ensures TotalBackoff(n) == 750 + 500 * (n - 4)
  {
    if n == 4 {
      assert Power2(0) == 1 && Power2(1) == 2 && Power2(2) == 4 && Power2(3) == 8;
      assert TotalBackoff(1) == 50 && TotalBackoff(2) == 150 && TotalBackoff(3) == 350;
    } else {
      TotalBackoffIs(n - 1);
      BackoffCapped(n - 1);
    }
  }

  lemma {:induction false} BackoffCapped(k: nat)
    requires k >= 4
    ensures Backoff(k) == POLL_CAP && Power2(k) >= 16
  {
    if k == 4 {
      assert Power2(1) == 2 && Power2(2) == 4 && Power2(3) == 8 && Power2(4) == 16;
    } else {
      BackoffCapped(k - 1);
    }
  }

  /** The sleeps bound the number of rounds; with the default timeout there are at most 64 pings. */
  lemma PingsBounded(o: Outside, start: nat, timeout: Option<nat>, n: nat)
    requires ClockAdvances(o) && LastRound(o, start, Deadline(start, timeout), n)
    ensures n > 0 ==> TotalBackoff(n - 1) < UnwrapOr(timeout, DEFAULT_STARTUP_TIMEOUT)
    ensures timeout == None ==> n + 1 <= 64
  {
    if n > 0 {
      assert !Ends(o, start, Deadline(start, timeout), n - 1);
      SleepsAddUp(o, start, n - 1);
      if n >= 5 { TotalBackoffIs(n - 1); }
    }
  }
}
