// Probes and leases together: probes are begun, endpoints are replaced or withdrawn while
// the probes are under way, and results come back late, out of order or twice.
module LeaseProtocol {
  import opened Wrappers
  import opened Folding
  import opened Lease

  const MAX_RETAINED_STABLE_ALIASES: nat := 8

  datatype Probe = Probe(url: string, epoch: nat)

  // The lease table and the counter its epochs come from.
  datatype Table = Table(leases: map<string, Health>, nextEpoch: nat)

  function Connect(t: Table, url: string, now: nat): Table {
    Table(t.leases[url := Verified(now, t.nextEpoch)], t.nextEpoch + 1)
  }

  function Retain(t: Table, url: string, now: nat): Table {
    if url in t.leases then t else Connect(t, url, now)
  }

  function Withdraw(t: Table, url: string): Table {
    Table(t.leases - {url}, t.nextEpoch)
  }

  predicate Due(t: Table, url: string, now: nat) {
    url in t.leases && MayProbe(t.leases[url], now)
  }

  function Schedule(t: Table, url: string, now: nat): Table {
    if Due(t, url, now) then Table(t.leases[url := Probing(t.leases[url], t.nextEpoch)], t.nextEpoch + 1) else t
  }

  // A result counts only for the lease epoch its probe was begun under.
  predicate Current(t: Table, p: Probe) {
    p.url in t.leases && t.leases[p.url].epoch == p.epoch
  }

  function Handle(t: Table, p: Probe, ok: bool, now: nat): Table {
    if !Current(t, p) then t else
      var h := t.leases[p.url];
      var after := if ok then AfterSuccess(h, now, t.nextEpoch) else AfterFailure(h, now, t.nextEpoch);
      Table(t.leases[p.url := after], t.nextEpoch + 1)
  }

  function Scheduling(now: nat): (Table, string) -> Table {
    (t: Table, url: string) => Schedule(t, url, now)
  }

  function UrlsOf(probes: seq<Probe>): set<string> {
    set p | p in probes :: p.url
  }

  // Probes whose results would count.
  predicate Out(t: Table, probes: seq<Probe>) {
    forall p :: p in probes ==> Current(t, p) && t.leases[p.url].inFlight
  }

  ghost predicate DueAmong(before: Table, urls: seq<string>, due: set<string>, now: nat) {
    forall url :: url in due <==> url in urls && Due(before, url, now)
  }

  predicate ChangedOnly(before: Table, after: Table, changed: set<string>) {
    && before.leases.Keys == after.leases.Keys
    && forall url :: url in before.leases && url !in changed ==> before.leases[url] == after.leases[url]
  }

  // The probes a round begins are exactly those that are due, one for each endpoint.
  ghost predicate BegunIn(before: Table, after: Table, urls: seq<string>, probes: seq<Probe>, now: nat) {
    && Out(after, probes)
    && DueAmong(before, urls, UrlsOf(probes), now)
    && |UrlsOf(probes)| == |probes|
    && ChangedOnly(before, after, UrlsOf(probes))
  }

  class TunnelControl {
    var leases: map<string, Health>
    var nextEpoch: nat
    // Providers of retained aliases, and the epochs under which endpoints were published.
    var retained: map<string, int>
    var endpointEpochs: map<string, nat>

    function View(): Table
      reads this
    {
      Table(leases, nextEpoch)
    }

    // Only an endpoint still published under the epoch it was announced with gets a lease.
    method Connected(url: string, announced: Option<nat>, published: Option<nat>, now: nat) returns (accepted: bool)
      modifies this
      ensures accepted <==> announced.Some? && published == announced
      ensures View() == if accepted then Connect(old(View()), url, now) else old(View())
      ensures retained == if accepted then old(retained) - {url} else old(retained)
      ensures endpointEpochs == if accepted then old(endpointEpochs)[url := announced.value] else old(endpointEpochs)
    {
      if announced.None? || published != announced {
        return false;
      }
      retained := retained - {url};
      endpointEpochs := endpointEpochs[url := announced.value];
      leases := leases[url := Verified(now, nextEpoch)];
      nextEpoch := nextEpoch + 1;
      return true;
    }

    // A lease that is there is kept, with its history.
    method RetainStableAlias(provider: int, url: string, now: nat) returns (kept: bool)
      modifies this
      ensures kept <==> url in old(retained) || |old(retained)| < 8
      ensures retained == if kept then old(retained)[url := provider] else old(retained)
      ensures View() == if kept then Retain(old(View()), url, now) else old(View())
      ensures |old(retained)| <= 8 ==> |retained| <= 8
      ensures endpointEpochs == old(endpointEpochs)
    {
      if url !in retained && |retained| >= MAX_RETAINED_STABLE_ALIASES {
        return false;
      }
      assert url in retained ==> retained[url := provider].Keys == retained.Keys;
      retained := retained[url := provider];
      if url !in leases {
        leases := leases[url := Verified(now, nextEpoch)];
        nextEpoch := nextEpoch + 1;
      }
      return true;
    }

    // One round over the endpoints; an endpoint listed twice is probed once.
    method ScheduleEndpointProbes(urls: seq<string>, now: nat) returns (probes: seq<Probe>)
      modifies `leases, `nextEpoch
      ensures View() == Fold(Scheduling(now), old(View()), urls)
      ensures BegunIn(old(View()), View(), urls, probes, now)
    {
      probes := [];
      for i := 0 to |urls|
        invariant View() == Fold(Scheduling(now), old(View()), urls[..i])
        invariant BegunIn(old(View()), View(), urls[..i], probes, now)
      {
        var url := urls[i];
        assert urls[..i + 1] == urls[..i] + [url];
        LastStep(Scheduling(now), old(View()), urls[..i], url);
        BegunNext(old(View()), View(), urls[..i], probes, url, now);
        if url !in leases {
          continue;
        }
        if MayProbe(leases[url], now) {
          leases := leases[url := Probing(leases[url], nextEpoch)];
          nextEpoch := nextEpoch + 1;
          probes := probes + [Probe(url, leases[url].epoch)];
        }
      }
      assert urls[..|urls|] == urls;
    }

    method HandleEndpointProbe(p: Probe, ok: bool, now: nat) returns (revoked: bool)
      modifies `leases, `nextEpoch
      ensures View() == Handle(old(View()), p, ok, now)
      ensures revoked <==> old(Current(View(), p)) && !ok && Revoked(leases[p.url], now)
    {
      if p.url !in leases {
        return false;
      }
      if leases[p.url].epoch != p.epoch {
        return false;
      }
      if ok {
        leases := leases[p.url := AfterSuccess(leases[p.url], now, nextEpoch)];
        revoked := false;
      } else {
        leases := leases[p.url := AfterFailure(leases[p.url], now, nextEpoch)];
        revoked := Revoked(leases[p.url], now);
      }
      nextEpoch := nextEpoch + 1;
    }
  }

  lemma OutMore(t: Table, probes: seq<Probe>, url: string, now: nat)
    requires Out(t, probes) && Due(t, url, now)
    ensures Out(Schedule(t, url, now), probes + [Probe(url, t.nextEpoch)]) && url !in UrlsOf(probes)
  {
  }

  lemma DueMore(before: Table, urls: seq<string>, due: set<string>, url: string, now: nat)
    requires DueAmong(before, urls, due, now)
    ensures DueAmong(before, urls + [url], if Due(before, url, now) then due + {url} else due, now)
  {
  }

  // What is due in the middle of a round was due before it and has not been probed in it.
  lemma StillDue(before: Table, middle: Table, probes: seq<Probe>, url: string, now: nat)
    requires Out(middle, probes) && ChangedOnly(before, middle, UrlsOf(probes))
    ensures Due(middle, url, now) <==> Due(before, url, now) && url !in UrlsOf(probes)
  {
    if url in UrlsOf(probes) {
      var p :| p in probes && p.url == url;
    }
  }

  lemma BegunNext(before: Table, middle: Table, urls: seq<string>, probes: seq<Probe>, url: string, now: nat)
    requires BegunIn(before, middle, urls, probes, now)
    ensures BegunIn(before, Schedule(middle, url, now), urls + [url],
              if Due(middle, url, now) then probes + [Probe(url, middle.nextEpoch)] else probes, now)
  {
    StillDue(before, middle, probes, url, now);
    DueMore(before, urls, UrlsOf(probes), url, now);
    if Due(middle, url, now) {
      OutMore(middle, probes, url, now);
      UrlsMore(probes, Probe(url, middle.nextEpoch));
      ChangedMore(before, middle, UrlsOf(probes), url, now);
    } else if url in UrlsOf(probes) {
      assert UrlsOf(probes) + {url} == UrlsOf(probes);
    }
  }

  lemma UrlsMore(probes: seq<Probe>, p: Probe)
    ensures UrlsOf(probes + [p]) == UrlsOf(probes) + {p.url}
  {
  }

  lemma ChangedMore(before: Table, middle: Table, changed: set<string>, url: string, now: nat)
    requires ChangedOnly(before, middle, changed)
    ensures ChangedOnly(before, Schedule(middle, url, now), changed + {url})
  {
  }

  // ---- Runs -----------------------------------------------------------------------

  // The table with what its reader cannot see: the probes ever begun, when each lease was
  // created and the results applied to it since, and the time.
  datatype World = World(
    table: Table, begun: set<Probe>, created: map<string, nat>, results: map<string, seq<Outcome>>, clock: nat)

  datatype Action = Connecting(url: string, now: nat) | Retaining(url: string, now: nat) | Withdrawing(url: string)
    | Begin(url: string, now: nat) | Deliver(probe: Probe, ok: bool, now: nat)

  function Initial(): World {
    World(Table(map[], 1), {}, map[], map[], 0)
  }

  // Time does not go back; only probes that were begun bring results, but a result may come
  // at any time and more than once.
  predicate Enabled(w: World, a: Action) {
    && (a.Withdrawing? || a.now >= w.clock)
    && (a.Deliver? ==> a.probe in w.begun)
  }

  predicate Applies(w: World, a: Action) {
    a.Deliver? && Current(w.table, a.probe)
  }

  function Next(w: World, a: Action): World {
    match a
    case Connecting(url, now) =>
      World(Connect(w.table, url, now), w.begun, w.created[url := now], w.results[url := []], now)
    case Retaining(url, now) =>
      if url in w.table.leases then w.(clock := now)
      else World(Retain(w.table, url, now), w.begun, w.created[url := now], w.results[url := []], now)
    case Withdrawing(url) => World(Withdraw(w.table, url), w.begun, w.created - {url}, w.results - {url}, w.clock)
    case Begin(url, now) =>
      World(Schedule(w.table, url, now),
            if Due(w.table, url, now) then w.begun + {Probe(url, w.table.nextEpoch)} else w.begun,
            w.created, w.results, now)
    case Deliver(p, ok, now) =>
      World(Handle(w.table, p, ok, now), w.begun, w.created,
            if Current(w.table, p) && p.url in w.results then w.results[p.url := w.results[p.url] + [Outcome(ok, now)]]
            else w.results,
            now)
  }

  predicate EpochsFresh(w: World) {
    && (forall url :: url in w.table.leases ==> w.table.leases[url].epoch < w.table.nextEpoch)
    && (forall p :: p in w.begun ==> p.epoch < w.table.nextEpoch)
  }

  // A lease is in flight exactly while a probe begun under its epoch is out.
  predicate FlightsKnown(w: World) {
    forall url :: url in w.table.leases ==>
      (w.table.leases[url].inFlight <==> Probe(url, w.table.leases[url].epoch) in w.begun)
  }

  predicate ResultsKept(w: World) {
    forall url :: url in w.table.leases ==> url in w.results && Reflects(w.table.leases[url], w.results[url])
  }

  predicate DatesKept(w: World) {
    forall url :: url in w.table.leases ==>
      && url in w.created && url in w.results
      && w.table.leases[url].verifiedAt == LastVerified(w.created[url], w.results[url])
      && w.table.leases[url].nextProbeAt == NextProbe(w.created[url], w.results[url])
  }

  ghost predicate Consistent(w: World) {
    EpochsFresh(w) && FlightsKnown(w) && ResultsKept(w) && DatesKept(w)
  }

  lemma StepKeepsFlights(w: World, a: Action)
    requires EpochsFresh(w) && FlightsKnown(w)
    ensures EpochsFresh(Next(w, a)) && FlightsKnown(Next(w, a))
  {
  }

  lemma StepKeepsResults(w: World, a: Action)
    requires ResultsKept(w)
    ensures ResultsKept(Next(w, a))
  {
    match a
    case Connecting(url, now) => VerifiedReflects(now, w.table.nextEpoch);
    case Retaining(url, now) => VerifiedReflects(now, w.table.nextEpoch);
    case Withdrawing(url) =>
    case Begin(url, now) =>
    case Deliver(p, ok, now) =>
      if Current(w.table, p) {
        if ok {
          SuccessReflects(w.table.leases[p.url], w.results[p.url], now, w.table.nextEpoch);
        } else {
          FailureReflects(w.table.leases[p.url], w.results[p.url], now, w.table.nextEpoch);
        }
      }
  }

  lemma StepKeepsDates(w: World, a: Action)
    requires ResultsKept(w) && DatesKept(w)
    ensures DatesKept(Next(w, a))
  {
    if Applies(w, a) {
      var (url, last) := (a.probe.url, Outcome(a.ok, a.now));
      ResultDates(w.table.leases[url], w.created[url], w.results[url], last, w.table.nextEpoch);
    }
  }

  ghost predicate Run(worlds: seq<World>, actions: seq<Action>) {
    && |worlds| == |actions| + 1
    && worlds[0] == Initial()
    && forall i :: 0 <= i < |actions| ==> Enabled(worlds[i], actions[i]) && worlds[i + 1] == Next(worlds[i], actions[i])
  }

  lemma {:induction false} RunConsistent(worlds: seq<World>, actions: seq<Action>, i: nat)
    requires Run(worlds, actions) && i < |worlds|
    ensures Consistent(worlds[i])
  {
    if i > 0 {
      RunConsistent(worlds, actions, i - 1);
      StepKeepsFlights(worlds[i - 1], actions[i - 1]);
      StepKeepsResults(worlds[i - 1], actions[i - 1]);
      StepKeepsDates(worlds[i - 1], actions[i - 1]);
    }
  }

  // An epoch no lease has any more never comes back.
  predicate Spent(w: World, p: Probe) {
    p.epoch < w.table.nextEpoch && !Current(w.table, p)
  }

  lemma {:induction false} SpentForever(worlds: seq<World>, actions: seq<Action>, p: Probe, i: nat, j: nat)
    requires Run(worlds, actions) && i <= j < |worlds| && Spent(worlds[i], p)
    ensures Spent(worlds[j], p)
  {
    if i < j {
      SpentForever(worlds, actions, p, i, j - 1);
    }
  }

  lemma ApplyingSpends(w: World, a: Action)
    requires EpochsFresh(w) && Applies(w, a)
    ensures Spent(Next(w, a), a.probe)
  {
  }

  // However often its result is delivered, a probe is applied at most once.
  lemma AppliedAtMostOnce(worlds: seq<World>, actions: seq<Action>, i: nat, j: nat)
    requires Run(worlds, actions) && i < j < |actions|
    requires Applies(worlds[i], actions[i]) && Applies(worlds[j], actions[j])
    ensures actions[i].probe != actions[j].probe
  {
    RunConsistent(worlds, actions, i);
    ApplyingSpends(worlds[i], actions[i]);
    SpentForever(worlds, actions, actions[i].probe, i + 1, j);
  }

  function LeaseAt(w: World, url: string): Option<Health> {
    if url in w.table.leases then Some(w.table.leases[url]) else None
  }

  // The lease `p` was begun under stands untouched from step `i`, which began it, to `j`.
  predicate UntouchedSince(worlds: seq<World>, actions: seq<Action>, p: Probe, i: nat, j: nat)
    requires i < j < |worlds| && |worlds| == |actions| + 1
  {
    && actions[i].Begin? && actions[i].url == p.url
    && p !in worlds[i].begun && p in worlds[i + 1].begun
    && forall k :: i < k <= j ==> Current(worlds[k].table, p) && LeaseAt(worlds[k], p.url) == LeaseAt(worlds[j], p.url)
  }

  // A step that leaves the epoch of a lease alone leaves the lease alone.
  lemma StepTouches(w: World, a: Action, p: Probe)
    requires EpochsFresh(w) && p in w.begun && Current(Next(w, a).table, p)
    ensures Current(w.table, p) && Next(w, a).table.leases[p.url] == w.table.leases[p.url]
  {
  }

  lemma {:induction false} CurrentIsUntouched(worlds: seq<World>, actions: seq<Action>, p: Probe, j: nat)
    requires Run(worlds, actions) && j < |worlds| && p in worlds[j].begun && Current(worlds[j].table, p)
    ensures exists i: nat :: i < j && UntouchedSince(worlds, actions, p, i, j)
  {
    RunConsistent(worlds, actions, j - 1);
    var (w, a) := (worlds[j - 1], actions[j - 1]);
    if p in w.begun {
      StepTouches(w, a, p);
      CurrentIsUntouched(worlds, actions, p, j - 1);
      var i: nat :| i < j - 1 && UntouchedSince(worlds, actions, p, i, j - 1);
      assert UntouchedSince(worlds, actions, p, i, j);
    } else {
      assert UntouchedSince(worlds, actions, p, j - 1, j);
    }
  }

  // A result is applied only to the very lease its probe was begun on: no replacement, no
  // other result and no newer probe came in between.
  lemma AppliedToItsOwnLease(worlds: seq<World>, actions: seq<Action>, j: nat)
    requires Run(worlds, actions) && j < |actions| && Applies(worlds[j], actions[j])
    ensures exists i: nat :: i < j && UntouchedSince(worlds, actions, actions[j].probe, i, j)
  {
    CurrentIsUntouched(worlds, actions, actions[j].probe, j);
  }

  // A probe begins only when no probe is out whose result would still count.
  lemma OneCurrentProbe(worlds: seq<World>, actions: seq<Action>, i: nat, p: Probe)
    requires Run(worlds, actions) && i < |actions| && actions[i].Begin?
    requires Due(worlds[i].table, actions[i].url, actions[i].now) && p in worlds[i].begun && p.url == actions[i].url
    ensures !Current(worlds[i].table, p)
  {
    RunConsistent(worlds, actions, i);
  }

  // In every run, what the results applied to a lease say is what the lease says: quarantine
  // is the last equal pair being failures, and a failure revokes exactly after half a minute
  // of unbroken quarantine.
  lemma RunsQuarantine(worlds: seq<World>, actions: seq<Action>, i: nat, url: string)
    requires Run(worlds, actions) && i < |worlds| && url in worlds[i].table.leases
    ensures var (h, results) := (worlds[i].table.leases[url], worlds[i].results);
      && url in results
      && (h.quarantinedAt.Some? <==> LastPair(results[url]) == Some(false))
      && (h.quarantinedAt.Some? ==> h.failures >= 2 && h.successes < 2)
  {
    RunConsistent(worlds, actions, i);
    QuarantineIsLastPair(worlds[i].table.leases[url], worlds[i].results[url]);
  }

  // It is offered exactly while the last such pair is no failure and the latest success out
  // of quarantine, or the creation of the lease, is at most a minute old.
  lemma RunsEligible(worlds: seq<World>, actions: seq<Action>, i: nat, url: string, now: nat)
    requires Run(worlds, actions) && i < |worlds| && url in worlds[i].table.leases
    ensures var w := worlds[i];
      && url in w.created && url in w.results
      && (Eligible(w.table.leases[url], now) <==>
            LastPair(w.results[url]) != Some(false)
            && now <= LastVerified(w.created[url], w.results[url]) + 60000)
  {
    RunConsistent(worlds, actions, i);
    EligibleExactly(worlds[i].table.leases[url], worlds[i].created[url], worlds[i].results[url], now);
  }

  // A probe is due exactly when none is out that would still count and the pause after the last
  // result is over.
  lemma RunsDue(worlds: seq<World>, actions: seq<Action>, i: nat, url: string, now: nat)
    requires Run(worlds, actions) && i < |worlds| && url in worlds[i].table.leases
    ensures var w := worlds[i];
      && url in w.created && url in w.results
      && (Due(w.table, url, now) <==>
            && (forall p :: p in w.begun && p.url == url ==> !Current(w.table, p))
            && NextProbe(w.created[url], w.results[url]) <= now)
  {
    RunConsistent(worlds, actions, i);
    var h := worlds[i].table.leases[url];
    assert h.inFlight ==> Current(worlds[i].table, Probe(url, h.epoch));
  }

  lemma RunsRevoke(worlds: seq<World>, actions: seq<Action>, i: nat)
    requires Run(worlds, actions) && i < |actions| && Applies(worlds[i], actions[i]) && !actions[i].ok
    ensures var (url, now) := (actions[i].probe.url, actions[i].now);
      && url in worlds[i + 1].table.leases && url in worlds[i + 1].results
      && (Revoked(worlds[i + 1].table.leases[url], now) <==> LastedGrace(worlds[i + 1].results[url], now))
  {
    RunConsistent(worlds, actions, i);
    var (p, now) := (actions[i].probe, actions[i].now);
    var w := worlds[i];
    RevocationNeedsUnbrokenQuarantine(w.table.leases[p.url], w.results[p.url], now, w.table.nextEpoch);
  }
}
