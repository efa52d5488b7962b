// The health lease of a public endpoint: quarantined after two failed probes in a row,
// restored after two successes in a row, revoked after half a minute of quarantine.
module Lease {
  import opened Wrappers

  // Milliseconds.
  const ENDPOINT_PROBE_INTERVAL: nat := 3000
  const ENDPOINT_RETRY_INTERVAL: nat := 1000
  const ENDPOINT_LEASE_TTL: nat := 60000
  const ENDPOINT_RECOVERY_GRACE: nat := 30000
  const ENDPOINT_FAILURE_THRESHOLD: nat := 2
  const ENDPOINT_RECOVERY_THRESHOLD: nat := 2
  const MAX_COUNT: nat := 255

  datatype Health = Health(epoch: nat, verifiedAt: nat, nextProbeAt: nat, failures: nat, successes: nat,
                           quarantinedAt: Option<nat>, inFlight: bool)

  // The counters are a byte wide and stay at the top.
  function Count(n: nat): (m: nat)
    ensures n < MAX_COUNT ==> m == n + 1
    ensures n <= MAX_COUNT ==> m <= MAX_COUNT
  {
    if n < MAX_COUNT then n + 1 else n
  }

  function Elapsed(now: nat, since: nat): nat {
    if now < since then 0 else now - since
  }

  function Eligible(h: Health, now: nat): bool {
    h.quarantinedAt.None? && Elapsed(now, h.verifiedAt) <= ENDPOINT_LEASE_TTL
  }

  function Verified(now: nat, epoch: nat): Health {
    Health(epoch, now, now + ENDPOINT_PROBE_INTERVAL, 0, 0, None, false)
  }

  predicate MayProbe(h: Health, now: nat) {
    !h.inFlight && h.nextProbeAt <= now
  }

  function Probing(h: Health, epoch: nat): Health {
    h.(epoch := epoch, inFlight := true)
  }

  function AfterSuccess(h: Health, now: nat, epoch: nat): Health {
    var successes := Count(h.successes);
    if h.quarantinedAt.Some? && successes < ENDPOINT_RECOVERY_THRESHOLD then
      h.(epoch := epoch, inFlight := false, successes := successes, nextProbeAt := now + ENDPOINT_RETRY_INTERVAL)
    else
      Health(epoch, now, now + ENDPOINT_PROBE_INTERVAL, 0, successes, None, false)
  }

  function AfterFailure(h: Health, now: nat, epoch: nat): Health {
    var failures := Count(h.failures);
    var begins := failures >= ENDPOINT_FAILURE_THRESHOLD && h.quarantinedAt.None?;
    Health(epoch, h.verifiedAt, now + ENDPOINT_RETRY_INTERVAL, failures, 0,
           if begins then Some(now) else h.quarantinedAt, false)
  }

  // Whether a failure leaves the endpoint beyond recovery.
  predicate Revoked(h: Health, now: nat) {
    h.quarantinedAt.Some? && Elapsed(now, h.quarantinedAt.value) >= ENDPOINT_RECOVERY_GRACE
  }

  // The counter all leases draw their epochs from.
  class Epochs {
    var next: nat

    constructor ()
      ensures next == 1
    {
      next := 1;
    }

    method Take() returns (epoch: nat)
      modifies this
      ensures epoch == old(next) && next == old(next) + 1
    {
      epoch := next;
      next := next + 1;
    }
  }

  class EndpointHealthLease {
    var epoch: nat
    var verifiedAt: nat
    var nextProbeAt: nat
    var failures: nat
    var successes: nat
    var quarantinedAt: Option<nat>
    var inFlight: bool
    const epochs: Epochs

    function Value(): Health
      reads this
    {
      Health(epoch, verifiedAt, nextProbeAt, failures, successes, quarantinedAt, inFlight)
    }

    constructor (now: nat, epochs: Epochs)
      modifies epochs
      ensures this.epochs == epochs && epochs.next == old(epochs.next) + 1
      ensures Value() == Verified(now, old(epochs.next))
    {
      this.epochs := epochs;
      epoch := epochs.next;
      verifiedAt, nextProbeAt := now, now + ENDPOINT_PROBE_INTERVAL;
      failures, successes, quarantinedAt, inFlight := 0, 0, None, false;
      new;
      var taken := epochs.Take();
    }

    method BeginProbe(now: nat) returns (begun: bool)
      modifies this, epochs
      ensures begun <==> old(MayProbe(Value(), now))
      ensures begun ==> Value() == Probing(old(Value()), old(epochs.next)) && epochs.next == old(epochs.next) + 1
      ensures !begun ==> Value() == old(Value()) && epochs.next == old(epochs.next)
    {
      if inFlight || now < nextProbeAt {
        return false;
      }
      epoch := epochs.Take();
      inFlight := true;
      return true;
    }

    // True when there was something to recover from.
    method RecordSuccess(now: nat) returns (recovered: bool)
      modifies this, epochs
      ensures Value() == AfterSuccess(old(Value()), now, old(epochs.next)) && epochs.next == old(epochs.next) + 1
      ensures recovered <==> quarantinedAt.None? && (old(failures) > 0 || !old(Eligible(Value(), now)))
    {
      recovered := failures > 0 || !Eligible(Value(), now);
      inFlight := false;
      epoch := epochs.Take();
      successes := Count(successes);
      if quarantinedAt.Some? && successes < ENDPOINT_RECOVERY_THRESHOLD {
        nextProbeAt := now + ENDPOINT_RETRY_INTERVAL;
        return false;
      }
      verifiedAt := now;
      nextProbeAt := now + ENDPOINT_PROBE_INTERVAL;
      failures := 0;
      quarantinedAt := None;
    }

    method RecordFailure(now: nat) returns (revoked: bool)
      modifies this, epochs
      ensures Value() == AfterFailure(old(Value()), now, old(epochs.next)) && epochs.next == old(epochs.next) + 1
      ensures revoked <==> Revoked(Value(), now)
    {
      failures := Count(failures);
      successes := 0;
      nextProbeAt := now + ENDPOINT_RETRY_INTERVAL;
      inFlight := false;
      epoch := epochs.Take();
      if failures >= ENDPOINT_FAILURE_THRESHOLD && quarantinedAt.None? {
        quarantinedAt := Some(now);
      }
      revoked := quarantinedAt.Some? && Elapsed(now, quarantinedAt.value) >= ENDPOINT_RECOVERY_GRACE;
    }
  }

  // ---- What the results of the probes say ---------------------------------------------

  // A probe result that was applied, and when.
  datatype Outcome = Outcome(ok: bool, at: nat)

  // Two equal results in a row: the last such pair decides.
  function LastPair(results: seq<Outcome>): Option<bool> {
    if |results| < 2 then None
    else if results[|results| - 1].ok == results[|results| - 2].ok then Some(results[|results| - 1].ok)
    else LastPair(results[..|results| - 1])
  }

  predicate Quarantined(results: seq<Outcome>) {
    LastPair(results) == Some(false)
  }

  // When the quarantine that still lasts began.
  function Since(results: seq<Outcome>): (since: Option<nat>)
    ensures since.Some? <==> Quarantined(results)
  {
    if !Quarantined(results) then None
    else if Quarantined(results[..|results| - 1]) then Since(results[..|results| - 1])
    else Some(results[|results| - 1].at)
  }

  function Trailing(results: seq<Outcome>, ok: bool): nat {
    if results == [] || results[|results| - 1].ok != ok then 0 else Trailing(results[..|results| - 1], ok) + 1
  }

  // A lease as its results left it, whatever its epoch and whether a probe is under way.
  predicate Reflects(h: Health, results: seq<Outcome>) {
    && h.quarantinedAt == Since(results)
    && h.failures <= 255
    && h.successes == (if Trailing(results, true) <= 255 then Trailing(results, true) else 255)
    && (if Quarantined(results) then h.failures >= ENDPOINT_FAILURE_THRESHOLD
        else h.failures == if results != [] && !results[|results| - 1].ok then 1 else 0)
  }

  lemma QuarantineStep(results: seq<Outcome>, last: Outcome)
    ensures Quarantined(results + [last]) <==>
              if results != [] && results[|results| - 1].ok == last.ok then !last.ok else Quarantined(results)
  {
    assert (results + [last])[..|results|] == results;
  }

  lemma SinceStep(results: seq<Outcome>, last: Outcome)
    ensures Since(results + [last]) ==
              if !Quarantined(results + [last]) then None
              else if Quarantined(results) then Since(results) else Some(last.at)
  {
    assert (results + [last])[..|results|] == results;
  }

  lemma TrailingStep(results: seq<Outcome>, last: Outcome, ok: bool)
    ensures Trailing(results + [last], ok) == if last.ok == ok then Trailing(results, ok) + 1 else 0
  {
    assert (results + [last])[..|results|] == results;
  }

  lemma VerifiedReflects(now: nat, epoch: nat)
    ensures Reflects(Verified(now, epoch), [])
  {
  }

  lemma SuccessReflects(h: Health, results: seq<Outcome>, now: nat, epoch: nat)
    requires Reflects(h, results)
    ensures Reflects(AfterSuccess(h, now, epoch), results + [Outcome(true, now)])
  {
    var last := Outcome(true, now);
    QuarantineStep(results, last);
    SinceStep(results, last);
    TrailingStep(results, last, true);
  }

  lemma FailureReflects(h: Health, results: seq<Outcome>, now: nat, epoch: nat)
    requires Reflects(h, results)
    ensures Reflects(AfterFailure(h, now, epoch), results + [Outcome(false, now)])
  {
    var last := Outcome(false, now);
    QuarantineStep(results, last);
    SinceStep(results, last);
    TrailingStep(results, last, true);
  }

  // An endpoint is in quarantine exactly when the last two equal results in a row were
  // failures; so it comes out of it after two successes in a row and no earlier.
  lemma QuarantineIsLastPair(h: Health, results: seq<Outcome>)
    requires Reflects(h, results)
    ensures h.quarantinedAt.Some? <==> LastPair(results) == Some(false)
    ensures h.quarantinedAt.Some? ==>
              h.failures >= ENDPOINT_FAILURE_THRESHOLD && h.successes < ENDPOINT_RECOVERY_THRESHOLD
  {
    if Quarantined(results) {
      var n := |results|;
      assert results[..n - 1][n - 2] == results[n - 2];
    }
  }

  // When the endpoint was last verified: at the latest success that left it out of
  // quarantine, or when the lease was created.
  function LastVerified(created: nat, results: seq<Outcome>): nat {
    if results == [] then created
    else if results[|results| - 1].ok && !Quarantined(results) then results[|results| - 1].at
    else LastVerified(created, results[..|results| - 1])
  }

  // When the endpoint is to be probed again: three seconds after it was found in order, one
  // second after anything else.
  function NextProbe(created: nat, results: seq<Outcome>): nat {
    if results == [] then created + 3000
    else
      var last := results[|results| - 1];
      last.at + if last.ok && !Quarantined(results) then 3000 else 1000
  }

  lemma ResultDates(h: Health, created: nat, results: seq<Outcome>, last: Outcome, epoch: nat)
    requires Reflects(h, results) && h.verifiedAt == LastVerified(created, results)
    ensures var after := if last.ok then AfterSuccess(h, last.at, epoch) else AfterFailure(h, last.at, epoch);
      && after.verifiedAt == LastVerified(created, results + [last])
      && after.nextProbeAt == NextProbe(created, results + [last])
  {
    assert (results + [last])[..|results|] == results;
    if last.ok {
      SuccessReflects(h, results, last.at, epoch);
    }
  }

  // An endpoint is offered exactly while it is out of quarantine and was verified within
  // the last minute.
  lemma EligibleExactly(h: Health, created: nat, results: seq<Outcome>, now: nat)
    requires Reflects(h, results) && h.verifiedAt == LastVerified(created, results)
    ensures Eligible(h, now) <==>
              LastPair(results) != Some(false) && now <= LastVerified(created, results) + 60000
  {
    QuarantineIsLastPair(h, results);
  }

  // The quarantine a lease dates back to `at` began with a failure then and has lasted since.
  predicate LastsSince(results: seq<Outcome>, i: nat, at: nat) {
    && i < |results| && results[i] == Outcome(false, at)
    && !Quarantined(results[..i])
    && forall k :: i < k <= |results| ==> Quarantined(results[..k])
  }

  lemma {:induction false} QuarantineIsUnbroken(results: seq<Outcome>)
    requires Quarantined(results)
    ensures exists i: nat :: LastsSince(results, i, Since(results).value)
  {
    var n := |results| - 1;
    var front := results[..n];
    assert results == front + [results[n]];
    QuarantineStep(front, results[n]);
    if Quarantined(front) {
      QuarantineIsUnbroken(front);
      var i: nat :| LastsSince(front, i, Since(front).value);
      forall k | i < k <= |results| ensures Quarantined(results[..k]) {
        if k <= n {
          assert results[..k] == front[..k];
        } else {
          assert results[..k] == results;
        }
      }
      assert results[..i] == front[..i];
      assert LastsSince(results, i, Since(results).value);
    } else {
      assert results[..n + 1] == results;
      assert LastsSince(results, n, Since(results).value);
    }
  }

  ghost predicate LastedGrace(results: seq<Outcome>, now: nat) {
    exists i: nat, at: nat :: LastsSince(results, i, at) && at + 30000 <= now
  }

  // A failed probe revokes the endpoint exactly when the quarantine has lasted unbroken for
  // the whole grace period.
  lemma RevocationNeedsUnbrokenQuarantine(h: Health, results: seq<Outcome>, now: nat, epoch: nat)
    requires Reflects(h, results)
    ensures var after := results + [Outcome(false, now)];
      Revoked(AfterFailure(h, now, epoch), now) <==> LastedGrace(after, now)
  {
    var after := results + [Outcome(false, now)];
    FailureReflects(h, results, now, epoch);
    if Quarantined(after) {
      QuarantineIsUnbroken(after);
      forall i: nat, at: nat, j: nat | LastsSince(after, i, at) && LastsSince(after, j, Since(after).value)
        ensures i == j
      {
        StartIsUnique(after, i, at, j, Since(after).value);
      }
    } else {
      forall i: nat, at: nat ensures !LastsSince(after, i, at) {
        assert after[..|after|] == after;
      }
    }
  }

  lemma StartIsUnique(results: seq<Outcome>, i: nat, at: nat, j: nat, since: nat)
    requires LastsSince(results, i, at) && LastsSince(results, j, since)
    ensures i == j
  {
  }
}
