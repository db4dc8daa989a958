/** Waiting for a key to be generated: the exponential backoff of common/backoff.cc and the polling
    loop of common/kms_client.cc. Durations and times are exact, in nanoseconds. */
module Polling {
  import opened Basics

  const MULTIPLIER: real := 1.3
  const MIN_DELAY: real := 20000000.0
  const MAX_DELAY: real := 1000000000.0

  function Min(a: real, b: real): real { if b < a then b else a }

  function Max(a: real, b: real): real { if a < b then b else a }

  function Clamp(x: real, lo: real, hi: real): real { Max(Min(x, hi), lo) }

  /** `delay` multiplied k times. */
  function Grown(delay: real, k: nat): real { if k == 0 then delay else MULTIPLIER * Grown(delay, k - 1) }

  /** The delays as the function takes them. */
  function CoercedMin(minDelay: real): real { Max(minDelay, 1.0) }

  function CoercedMax(minDelay: real, maxDelay: real): real { Max(maxDelay, CoercedMin(minDelay)) }

  function ComputeBackoff(minDelay: real, maxDelay: real, previousRetries: int): real {
    var lo, hi := CoercedMin(minDelay), CoercedMax(minDelay, maxDelay);
    var retries: nat := if previousRetries < 0 then 0 else previousRetries;
    Clamp(Grown(lo, retries), lo, hi)
  }

  lemma {:induction false} GrownMonotone(delay: real, j: nat, k: nat)
    requires delay >= 0.0 && j <= k
    ensures delay <= Grown(delay, j) <= Grown(delay, k)
  {
    if j < k {
      GrownMonotone(delay, j, k - 1);
    } else if k > 0 {
      GrownMonotone(delay, k - 1, k - 1);
    }
  }

  lemma ClampMonotone(x: real, y: real, lo: real, hi: real)
    requires lo <= hi && x <= y
    ensures lo <= Clamp(x, lo, hi) <= Clamp(y, lo, hi) <= hi
  {
  }

  /** The delay starts at the minimum, never falls as retries go up, and stays within the coerced
      bounds. */
  lemma BackoffBounds(minDelay: real, maxDelay: real, j: int, k: int)
    requires j <= k
    ensures CoercedMin(minDelay) <= ComputeBackoff(minDelay, maxDelay, j) <= ComputeBackoff(minDelay, maxDelay, k)
    ensures ComputeBackoff(minDelay, maxDelay, k) <= CoercedMax(minDelay, maxDelay)
    ensures k <= 0 ==> ComputeBackoff(minDelay, maxDelay, k) == CoercedMin(minDelay)
  {
    var j': nat, k': nat := if j < 0 then 0 else j, if k < 0 then 0 else k;
    var lo, hi := CoercedMin(minDelay), CoercedMax(minDelay, maxDelay);
    GrownMonotone(lo, j', k');
    ClampMonotone(Grown(lo, j'), Grown(lo, k'), lo, hi);
  }

  /** Each retry waits 1.3 times as long as the one before, up to the maximum. */
  lemma BackoffStep(minDelay: real, maxDelay: real, k: nat)
    ensures ComputeBackoff(minDelay, maxDelay, k + 1)
         == Min(1.3 * ComputeBackoff(minDelay, maxDelay, k), CoercedMax(minDelay, maxDelay))
  {
    GrownMonotone(CoercedMin(minDelay), k, k + 1);
  }

  /** The bounds: at least a nanosecond, and in order. */
  lemma CoercedBounds(minDelay: real, maxDelay: real)
    ensures minDelay >= 1.0 ==> CoercedMin(minDelay) == minDelay
    ensures minDelay <= 1.0 ==> CoercedMin(minDelay) == 1.0
    ensures minDelay >= 1.0 && maxDelay >= minDelay ==> CoercedMax(minDelay, maxDelay) == maxDelay
    ensures maxDelay <= CoercedMin(minDelay) ==> CoercedMax(minDelay, maxDelay) == CoercedMin(minDelay)
  {
  }

  /** The delay grows by at least 0.3 of the minimum a time. */
  lemma {:induction false} GrownLinearly(delay: real, k: nat, steps: real)
    requires delay >= 0.0 && steps == k as real * (0.3 * delay)
    ensures Grown(delay, k) >= delay + steps
  {
    if k > 0 {
      assert (k - 1) as real * (0.3 * delay) == steps - 0.3 * delay;
      GrownLinearly(delay, k - 1, steps - 0.3 * delay);
      GrownMonotone(delay, k - 1, k - 1);
    }
  }

  /** However far apart the bounds are, enough retries reach the upper one. */
  lemma BackoffReachesMax(minDelay: real, maxDelay: real, k: nat)
    requires k as real * (0.3 * CoercedMin(minDelay)) >= CoercedMax(minDelay, maxDelay)
    ensures ComputeBackoff(minDelay, maxDelay, k) == CoercedMax(minDelay, maxDelay)
  {
    GrownLinearly(CoercedMin(minDelay), k, k as real * (0.3 * CoercedMin(minDelay)));
  }

  // ---------------------------------------------------------------------------------------
  // Polling
  // ---------------------------------------------------------------------------------------

  datatype Version = Version(name: string, state: VersionState)

  /** What the server replies to a poll, None for an error, and how long that takes. */
  datatype Answer = Answer(took: real, version: Option<Version>)

  /** The surroundings of a wait: how late poll k wakes up, and what GetCryptoKeyVersion on a name
      gives when poll k sends it at some time. */
  datatype World = World(late: nat -> real, get: (nat, real, string) -> Answer)

  /** A call sent at or after its deadline fails with DEADLINE_EXCEEDED. */
  function Get(w: World, k: nat, sent: real, name: string, deadline: real): Answer {
    if sent >= deadline then Answer(0.0, None) else w.get(k, sent, name)
  }

  function Delay(tries: nat): real { ComputeBackoff(MIN_DELAY, MAX_DELAY, tries) }

  function Sent(w: World, now: real, tries: nat): real { now + Delay(tries) + Max(w.late(tries), 0.0) }

  datatype Outcome = Outcome(ok: bool, version: Version, polls: nat)

  /** How many minimal delays fit between now and the deadline, the last not entirely. */
  function Budget(now: real, deadline: real): nat {
    if now < deadline then
      assert (deadline - now) / MIN_DELAY >= 0.0;
      ((deadline - now) / MIN_DELAY).Floor + 1
    else 0
  }

  lemma DelayIsLong(tries: nat)
    ensures Delay(tries) >= MIN_DELAY
  {
  }

  lemma BudgetShrinks(now: real, later: real, deadline: real)
    requires now + MIN_DELAY <= later && now + MIN_DELAY < deadline
    ensures Budget(later, deadline) < Budget(now, deadline) && 1 < Budget(now, deadline)
  {
  }

  /** WaitForGeneration on `version`, at time `now` and after `tries` polls. */
  function Wait(w: World, version: Version, deadline: real, now: real, tries: nat): Outcome
    decreases Budget(now, deadline)
  {
    if !version.state.PendingGeneration? then Outcome(true, version, 0)
    else
      var sent := Sent(w, now, tries);
      match Get(w, tries, sent, version.name, deadline)
      case Answer(_, None) => Outcome(false, version, 1)
      case Answer(took, Some(v)) =>
        DelayIsLong(tries);
        BudgetShrinks(now, sent + Max(took, 0.0), deadline);
        var rest := Wait(w, v, deadline, sent + Max(took, 0.0), tries + 1);
        rest.(polls := rest.polls + 1)
  }

  /** One answered poll. */
  lemma WaitStep(w: World, version: Version, deadline: real, now: real, tries: nat, later: real, v: Version)
    requires version.state.PendingGeneration?
    requires var answer := Get(w, tries, Sent(w, now, tries), version.name, deadline);
             answer.version == Some(v) && later == Sent(w, now, tries) + Max(answer.took, 0.0)
    ensures var rest := Wait(w, v, deadline, later, tries + 1);
            Wait(w, version, deadline, now, tries) == rest.(polls := rest.polls + 1)
  {
  }

  /** The sum of the delays before polls tries, ..., tries + n - 1. */
  function Slept(tries: nat, n: nat): real
    decreases n
  {
    if n == 0 then 0.0 else Delay(tries) + Slept(tries + 1, n - 1)
  }

  /** All polls but the last are sent before the deadline, however fast the server; so their number
      is bounded. Success means that the version is no longer pending. */
  lemma {:induction false} WaitIsBounded(w: World, version: Version, deadline: real, now: real, tries: nat)
    ensures var outcome := Wait(w, version, deadline, now, tries);
            && outcome.polls <= (if now < deadline then ((deadline - now) / 20000000.0).Floor + 1 else 1)
            && (outcome.polls > 1 ==> now + Slept(tries, outcome.polls - 1) < deadline)
            && (outcome.ok <==> !outcome.version.state.PendingGeneration?)
            && (outcome.polls == 0 <==> !version.state.PendingGeneration?)
    decreases Budget(now, deadline)
  {
    if version.state.PendingGeneration? {
      var sent := Sent(w, now, tries);
      match Get(w, tries, sent, version.name, deadline)
      case Answer(_, None) =>
      case Answer(took, Some(v)) =>
        DelayIsLong(tries);
        BudgetShrinks(now, sent + Max(took, 0.0), deadline);
        WaitIsBounded(w, v, deadline, sent + Max(took, 0.0), tries + 1);
    }
  }

  /** The server answers about the version it is asked about. */
  ghost predicate Honest(w: World) {
    forall k: nat, sent: real, name: string :: w.get(k, sent, name).version.Some? ==> w.get(k, sent, name).version.value.name == name
  }

  ghost predicate Answered(w: World, name: string, deadline: real, version: Version) {
    exists k: nat, sent: real :: sent < deadline && w.get(k, sent, name).version == Some(version)
  }

  /** The version that a wait ends with is the one it began with, as the server last described it in
      time. */
  lemma {:induction false} WaitAsks(w: World, version: Version, deadline: real, now: real, tries: nat)
    requires Honest(w)
    ensures var outcome := Wait(w, version, deadline, now, tries);
            outcome.version == version || Answered(w, version.name, deadline, outcome.version)
    decreases Budget(now, deadline)
  {
    if version.state.PendingGeneration? {
      var sent := Sent(w, now, tries);
      match Get(w, tries, sent, version.name, deadline)
      case Answer(_, None) =>
      case Answer(took, Some(v)) =>
        DelayIsLong(tries);
        BudgetShrinks(now, sent + Max(took, 0.0), deadline);
        WaitAsks(w, v, deadline, sent + Max(took, 0.0), tries + 1);
        assert w.get(tries, sent, version.name).version == Some(v);
    }
  }

  /** `outcome` is `rest` after `tries` polls. */
  predicate Continues(rest: Outcome, tries: nat, outcome: Outcome) {
    rest.ok == outcome.ok && rest.version == outcome.version && tries + rest.polls == outcome.polls
  }

  class VersionCell {
    var version: Version

    constructor (version: Version)
      ensures this.version == version
    {
      this.version := version;
    }
  }

  method WaitForGeneration(w: World, ckv: VersionCell, deadline: real, start: real) returns (ok: bool, ghost polls: nat)
    modifies ckv
    ensures Outcome(ok, ckv.version, polls) == Wait(w, old(ckv.version), deadline, start, 0)
    ensures polls <= if start < deadline then ((deadline - start) / 20000000.0).Floor + 1 else 1
    ensures ok <==> !ckv.version.state.PendingGeneration?
  {
    var now, tries := start, 0;
    WaitIsBounded(w, ckv.version, deadline, start, 0);
    ghost var outcome := Wait(w, ckv.version, deadline, start, 0);
    while ckv.version.state.PendingGeneration?
      invariant Continues(Wait(w, ckv.version, deadline, now, tries), tries, outcome)
      decreases outcome.polls - tries
    {
      var sent := Sent(w, now, tries);
      var answer := Get(w, tries, sent, ckv.version.name, deadline);
      if answer.version.None? {
        return false, tries + 1;
      }
      WaitStep(w, ckv.version, deadline, now, tries, sent + Max(answer.took, 0.0), answer.version.value);
      now, tries := sent + Max(answer.took, 0.0), tries + 1;
      ckv.version := answer.version.value;
    }
    ok, polls := true, tries;
  }

  /** CreateCryptoKeyVersionAndWait, from the reply to the creation, which comes at time `start`. */
  method CreateAndWait(w: World, created: Option<Version>, deadline: real, start: real) returns (result: Option<Version>)
    ensures created.None? ==> result.None?
    ensures created.Some? ==> var outcome := Wait(w, created.value, deadline, start, 0);
                              result == if outcome.ok then Some(outcome.version) else None
    ensures result.Some? ==> !result.value.state.PendingGeneration?
  {
    if created.None? {
      return None;
    }
    var response := new VersionCell(created.value);
    var ok, _ := WaitForGeneration(w, response, deadline, start);
    result := if ok then Some(response.version) else None;
  }
}
