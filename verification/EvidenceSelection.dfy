// What the selection of effective records promises: it forgets nothing without an
// answer, and removing one record disturbs the others only in one precise situation.
module EvidenceSelection {
  import opened Wrappers
  import opened Evidence
  import Sorting

  // `a` is why `r` is no longer effective: a later word in its scope, or a superseder.
  predicate Answers(a: Record, r: Record) {
    (ScopeOf(a) == ScopeOf(r) && Beats(a, r)) || Supersedes(a, r)
  }

  lemma LeaderUnique(a: Record, b: Record, s: set<Record>, revision: Revision)
    requires IdsIdentify(s) && Leads(a, s, revision) && Leads(b, s, revision) && ScopeOf(a) == ScopeOf(b)
    ensures a == b
  {
    BeatsTotal(a, b);
  }

  function Beaters(r: Record, s: set<Record>): set<Record> {
    set o | o in s && Beats(o, r)
  }

  lemma {:induction false} LeaderExists(r: Record, s: set<Record>, revision: Revision) returns (leader: Record)
    requires r in s && Eligible(r, revision)
    ensures Leads(leader, s, revision) && ScopeOf(leader) == ScopeOf(r)
    ensures leader == r || Beats(leader, r)
    decreases Beaters(r, s)
  {
    if o :| o in s && Eligible(o, revision) && ScopeOf(o) == ScopeOf(r) && Beats(o, r) {
      forall x | x in s && Beats(x, o) ensures Beats(x, r) { BeatsTransitive(x, o, r); }
      BeatsTotal(o, o);
      assert o in Beaters(r, s) && o !in Beaters(o, s);
      leader := LeaderExists(o, s, revision);
      if leader != o { BeatsTransitive(leader, o, r); }
    } else {
      leader := r;
    }
  }

  function Superseders(r: Record, leaders: set<Record>): set<Record> {
    set m | m in leaders && Supersedes(m, r)
  }

  // Among the leaders that supersede a record, one is itself not superseded.
  lemma {:induction false} LastWord(r: Record, leaders: set<Record>) returns (survivor: Record)
    requires SupersededIn(r, leaders)
    ensures survivor in Unsuperseded(leaders) && Supersedes(survivor, r)
    decreases Superseders(r, leaders)
  {
    var m :| m in leaders && Supersedes(m, r);
    if SupersededIn(m, leaders) {
      forall x | x in leaders && Supersedes(x, m) ensures Supersedes(x, r) { SupersedesTransitive(x, m, r); }
      assert m in Superseders(r, leaders) && m !in Superseders(m, leaders);
      survivor := LastWord(m, leaders);
    } else {
      survivor := m;
    }
  }

  // Every record of the revision is effective or answered by an effective record.
  lemma DroppedIsAnswered(r: Record, s: set<Record>, revision: Revision)
    requires r in s && Eligible(r, revision) && r !in Current(s, revision)
    ensures exists a :: a in Current(s, revision) && Answers(a, r)
  {
    var leader := LeaderExists(r, s, revision);
    if SupersededIn(leader, Leaders(s, revision)) {
      var survivor := LastWord(leader, Leaders(s, revision));
      SupersedesWholeScope(survivor, leader, r);
      assert survivor in Current(s, revision) && Answers(survivor, r);
    } else {
      assert leader in Current(s, revision) && Answers(leader, r);
    }
  }

  // A failure disappears only behind a strictly newer record, or behind a
  // simultaneous failure of the very same scope.
  lemma FailureIsNotHidden(r: Record, s: set<Record>, revision: Revision)
    requires r in s && Eligible(r, revision) && r.result == Fail && r !in Current(s, revision)
    ensures exists a :: (a in Current(s, revision) && Answers(a, r)
                         && (a.timestamp > r.timestamp || (a.result == Fail && ScopeOf(a) == ScopeOf(r))))
  {
    DroppedIsAnswered(r, s, revision);
    var a :| a in Current(s, revision) && Answers(a, r);
    assert a.timestamp > r.timestamp || Severity(a.result) >= Severity(Fail);
  }

  // Selecting again from the selection changes nothing.
  lemma CurrentIdempotent(s: set<Record>, revision: Revision)
    requires IdsIdentify(s)
    ensures Current(Current(s, revision), revision) == Current(s, revision)
  {
    var t := Current(s, revision);
    forall r | r in t ensures Leads(r, t, revision) {
      forall o | o in t && Eligible(o, revision) && ScopeOf(o) == ScopeOf(r) ensures !Beats(o, r) {
        LeaderUnique(o, r, s, revision);
        BeatsTotal(r, r);
      }
    }
    assert Leaders(t, revision) == t;
  }

  // ---- Removing one record --------------------------------------------------

  // A deterministic record may only claim Pass if its receipt covers what it required.
  lemma DeterministicPassCovers(r: Record)
    requires FamilyOf(r) == Some(DeterministicFamily) && r.result == Pass
    ensures r.receipt.value.Covers(r.receipt.value.required)
  {
    var level := r.receipt.value.level;
    assert ("deterministic/" + level + "/v2")[0] == 'd' && ("acceptance/" + level + "/v2")[0] == 'a';
  }

  // The typed record whose claim its own receipt does not back.
  predicate Unbacked(v: Record) {
    FamilyOf(v).Some? && !v.receipt.value.Covers(v.receipt.value.required)
  }

  // A backed record supersedes everything that any record of its scope superseded earlier.
  lemma BackedRecordTakesOver(v: Record, m: Record, p: Record)
    requires Supersedes(m, p) && ScopeOf(v) == ScopeOf(m) && m.timestamp <= v.timestamp && !Unbacked(v)
    ensures Supersedes(v, p)
  {
    if FamilyOf(p).Some? {
      SameScopeFamily(m, v);
    }
  }

  // The record that leads `v`'s scope once `v` is gone.
  ghost predicate RunnerUp(w: Record, v: Record, s: set<Record>, revision: Revision) {
    ScopeOf(w) == ScopeOf(v) && Leads(w, s - {v}, revision)
  }

  // A new supersession after removing `v` can only come from `v`'s runner-up, and only
  // if `v` was an effective record its receipt did not back.
  lemma NewSupersession(s: set<Record>, v: Record, m: Record, p: Record, revision: Revision)
    requires p in Current(s, revision) && p != v
    requires Leads(m, s - {v}, revision) && Supersedes(m, p)
    ensures v in Current(s, revision) && Unbacked(v) && RunnerUp(m, v, s, revision)
  {
    assert m !in Leaders(s, revision);
    assert v in s && Eligible(v, revision) && ScopeOf(v) == ScopeOf(m) && Beats(v, m);
    forall o | o in s && Eligible(o, revision) && ScopeOf(o) == ScopeOf(v) ensures !Beats(o, v) {
      BeatsTotal(v, v);
      if Beats(o, v) {
        BeatsTransitive(o, v, m);
      }
    }
    assert Leads(v, s, revision);
    if n :| n in Leaders(s, revision) && Supersedes(n, v) {
      SupersedesWholeScope(n, v, m);
      SupersedesTransitive(n, m, p);
    }
    if !Unbacked(v) {
      BackedRecordTakesOver(v, m, p);
    }
  }

  // Removing any record other than an unbacked effective one keeps every other
  // effective record effective.
  lemma RemovalKeepsCurrent(s: set<Record>, v: Record, p: Record, revision: Revision)
    requires p in Current(s, revision) && p != v
    requires v in Current(s, revision) ==> !Unbacked(v)
    ensures p in Current(s - {v}, revision)
  {
    assert Leads(p, s - {v}, revision);
    forall m | m in Leaders(s - {v}, revision) ensures !Supersedes(m, p) {
      if Supersedes(m, p) {
        NewSupersession(s, v, m, p, revision);
      }
    }
  }

  ghost predicate KeepsNegatives(s: set<Record>, v: Record, revision: Revision) {
    forall p :: p in Current(s, revision) && p.Negative() && p != v ==> p in Current(s - {v}, revision)
  }

  // `v` is an effective acceptance record its receipt does not back, and the record it
  // hides in its own scope withdraws an effective negative.
  ghost predicate Unmasks(s: set<Record>, v: Record, revision: Revision) {
    v in Current(s, revision) && FamilyOf(v) == Some(AcceptanceFamily) && Unbacked(v)
    && exists w, p :: RunnerUp(w, v, s, revision) && p in Current(s, revision) && p.Negative() && p != v
                      && Supersedes(w, p)
  }

  // Exactly when removing a record that is not itself protected loses a negative.
  lemma NegativesKeptExactly(s: set<Record>, v: Record, revision: Revision)
    requires v in Current(s, revision) ==> !v.Negative()
    ensures KeepsNegatives(s, v, revision) <==> !Unmasks(s, v, revision)
  {
    if Unmasks(s, v, revision) {
      var w, p :| RunnerUp(w, v, s, revision) && p in Current(s, revision) && p.Negative() && p != v
                  && Supersedes(w, p);
      assert SupersededIn(p, Leaders(s - {v}, revision));
    } else {
      forall p | p in Current(s, revision) && p.Negative() && p != v ensures p in Current(s - {v}, revision) {
        assert Leads(p, s - {v}, revision);
        forall m | m in Leaders(s - {v}, revision) ensures !Supersedes(m, p) {
          if Supersedes(m, p) {
            NewSupersession(s, v, m, p, revision);
            if FamilyOf(v) == Some(DeterministicFamily) { DeterministicPassCovers(v); }
          }
        }
      }
    }
  }

  // Only the eligible records of a set decide.
  lemma EligibleDecide(s: set<Record>, t: set<Record>, revision: Revision)
    requires forall r :: Eligible(r, revision) ==> (r in s <==> r in t)
    ensures Leaders(s, revision) == Leaders(t, revision) && Current(s, revision) == Current(t, revision)
  {
    forall r ensures Leads(r, s, revision) <==> Leads(r, t, revision) {}
    assert Leaders(s, revision) == Leaders(t, revision);
  }

  // Records the selection never reads can come and go.
  lemma IneligibleIsIrrelevant(s: set<Record>, v: Record, revision: Revision)
    requires !Eligible(v, revision)
    ensures Current(s - {v}, revision) == Current(s, revision)
  {
    EligibleDecide(s - {v}, s, revision);
  }

  // Adding a record withdraws another only by answering it itself.
  lemma AdditionAnswers(s: set<Record>, e: Record, p: Record, revision: Revision)
    requires p in Current(s, revision)
    ensures p in Current(s + {e}, revision) || Answers(e, p)
  {
    if !Answers(e, p) {
      assert Leads(p, s + {e}, revision);
      forall m | m in Leaders(s + {e}, revision) ensures !Supersedes(m, p) {
        assert m != e ==> Leads(m, s, revision);
      }
    }
  }

  // ---- The selection loop ---------------------------------------------------

  // Record `j` leads its scope among the first `n`; on equal rank the first one stays.
  ghost predicate LeadsList(records: seq<Record>, n: nat, j: nat, revision: Revision)
    requires n <= |records|
  {
    j < n && Eligible(records[j], revision)
    && forall t :: 0 <= t < n && Eligible(records[t], revision) && ScopeOf(records[t]) == ScopeOf(records[j]) ==>
         !Beats(records[t], records[j]) && (t < j ==> Beats(records[j], records[t]))
  }

  ghost function ListLeaders(records: seq<Record>, revision: Revision): set<Record> {
    set j | 0 <= j < |records| && LeadsList(records, |records|, j, revision) :: records[j]
  }

  // When ids identify records the order of the input cannot matter.
  lemma ListLeadersAreLeaders(records: seq<Record>, revision: Revision)
    requires IdsIdentify(Sorting.Elements(records))
    ensures ListLeaders(records, revision) == Leaders(Sorting.Elements(records), revision)
  {
    var s := Sorting.Elements(records);
    forall r | r in ListLeaders(records, revision) ensures r in Leaders(s, revision) {
      var j :| 0 <= j < |records| && LeadsList(records, |records|, j, revision) && records[j] == r;
      forall o | o in s && Eligible(o, revision) && ScopeOf(o) == ScopeOf(r) ensures !Beats(o, r) {
        var t :| 0 <= t < |records| && records[t] == o;
      }
    }
    forall r | r in Leaders(s, revision) ensures r in ListLeaders(records, revision) {
      var j := FirstAt(records, r);
      forall t | 0 <= t < |records| && Eligible(records[t], revision) && ScopeOf(records[t]) == ScopeOf(r)
        ensures !Beats(records[t], r) && (t < j ==> Beats(r, records[t]))
      {
        assert records[t] in s;
        BeatsTotal(r, records[t]);
      }
      assert LeadsList(records, |records|, j, revision);
    }
  }

  lemma FirstAt(records: seq<Record>, r: Record) returns (j: nat)
    requires r in records
    ensures j < |records| && records[j] == r && forall t :: 0 <= t < j ==> records[t] != r
  {
    j := 0;
    while records[j] != r
      decreases |records| - j
      invariant j < |records| && r in records[j..]
      invariant forall t :: 0 <= t < j ==> records[t] != r
    {
      assert r in records[j + 1..];
      j := j + 1;
    }
  }

  // `latest` holds, per scope, the leader among the first `n` records; `at` says where it is.
  ghost predicate Tracks(
    latest: map<Scope, Record>, at: map<Scope, nat>, records: seq<Record>, n: nat, revision: Revision)
    requires n <= |records|
  {
    && at.Keys == latest.Keys
    && (forall t :: 0 <= t < n && Eligible(records[t], revision) ==> ScopeOf(records[t]) in latest)
    && (forall k :: k in latest ==>
          LeadsList(records, n, at[k], revision) && records[at[k]] == latest[k] && ScopeOf(latest[k]) == k)
  }

  lemma TracksLeaders(latest: map<Scope, Record>, at: map<Scope, nat>, records: seq<Record>, revision: Revision)
    requires Tracks(latest, at, records, |records|, revision)
    ensures latest.Values == ListLeaders(records, revision)
  {
    var leaders := ListLeaders(records, revision);
    forall r | r in leaders ensures r in latest.Values {
      var j :| 0 <= j < |records| && LeadsList(records, |records|, j, revision) && records[j] == r;
      assert at[ScopeOf(r)] == j;
    }
  }

  lemma StillLeads(records: seq<Record>, n: nat, j: nat, revision: Revision)
    requires n < |records| && LeadsList(records, n, j, revision)
    requires Eligible(records[n], revision) && ScopeOf(records[n]) == ScopeOf(records[j]) ==>
               !Beats(records[n], records[j])
    ensures LeadsList(records, n + 1, j, revision)
  {
  }

  lemma TracksUnchanged(
    latest: map<Scope, Record>, at: map<Scope, nat>, records: seq<Record>, i: nat, revision: Revision)
    requires i < |records| && Tracks(latest, at, records, i, revision)
    requires Eligible(records[i], revision) ==>
      ScopeOf(records[i]) in latest && !Beats(records[i], latest[ScopeOf(records[i])])
    ensures Tracks(latest, at, records, i + 1, revision)
  {
    forall k | k in latest ensures LeadsList(records, i + 1, at[k], revision) {
      StillLeads(records, i, at[k], revision);
    }
  }

  lemma TracksReplaced(
    latest: map<Scope, Record>, at: map<Scope, nat>, records: seq<Record>, i: nat, revision: Revision)
    requires i < |records| && Tracks(latest, at, records, i, revision) && Eligible(records[i], revision)
    requires var k := ScopeOf(records[i]); k !in latest || Beats(records[i], latest[k])
    ensures var k := ScopeOf(records[i]); Tracks(latest[k := records[i]], at[k := i], records, i + 1, revision)
  {
    var key := ScopeOf(records[i]);
    ReplacedLeads(latest, at, records, i, revision);
    forall k | k in latest && k != key ensures LeadsList(records, i + 1, at[k], revision) {
      StillLeads(records, i, at[k], revision);
    }
  }

  lemma ReplacedLeads(
    latest: map<Scope, Record>, at: map<Scope, nat>, records: seq<Record>, i: nat, revision: Revision)
    requires i < |records| && Tracks(latest, at, records, i, revision) && Eligible(records[i], revision)
    requires var k := ScopeOf(records[i]); k !in latest || Beats(records[i], latest[k])
    ensures LeadsList(records, i + 1, i, revision)
  {
    var key := ScopeOf(records[i]);
    BeatsTotal(records[i], records[i]);
    if key in latest {
      NewLeader(records, i, at[key], revision);
    }
  }

  method ScopeLeaders(records: seq<Record>, revision: Revision) returns (latest: map<Scope, Record>)
    ensures latest.Values == ListLeaders(records, revision)
  {
    latest := map[];
    ghost var at: map<Scope, nat> := map[];
    for i := 0 to |records|
      invariant Tracks(latest, at, records, i, revision)
    {
      var record := records[i];
      if record.revision != revision || record.kind == HumanApproval || record.kind == Reconciliation {
        TracksUnchanged(latest, at, records, i, revision);
        continue;
      }
      var key := ScopeOf(record);
      if key !in latest || Beats(record, latest[key]) {
        TracksReplaced(latest, at, records, i, revision);
        latest, at := latest[key := record], at[key := i];
      } else {
        TracksUnchanged(latest, at, records, i, revision);
      }
    }
    TracksLeaders(latest, at, records, revision);
  }

  method LatestCurrent(records: seq<Record>, revision: Revision) returns (selected: set<Record>)
    ensures selected == Unsuperseded(ListLeaders(records, revision))
    ensures IdsIdentify(Sorting.Elements(records)) ==>
      selected == Current(Sorting.Elements(records), revision)
  {
    var latest := ScopeLeaders(records, revision);
    selected := set k | k in latest && !(exists o :: o in latest && Supersedes(latest[o], latest[k])) :: latest[k];
    ghost var leaders := ListLeaders(records, revision);
    forall k | k in latest
      ensures SupersededIn(latest[k], leaders) <==> exists o :: o in latest && Supersedes(latest[o], latest[k])
    {
      if m :| m in leaders && Supersedes(m, latest[k]) {
        var o :| o in latest && latest[o] == m;
      }
    }
    assert selected == Unsuperseded(leaders);
    if IdsIdentify(Sorting.Elements(records)) {
      ListLeadersAreLeaders(records, revision);
    }
  }

  lemma NewLeader(records: seq<Record>, i: nat, j: nat, revision: Revision)
    requires i < |records| && LeadsList(records, i, j, revision) && Eligible(records[i], revision)
    requires ScopeOf(records[i]) == ScopeOf(records[j]) && Beats(records[i], records[j])
    ensures LeadsList(records, i + 1, i, revision)
  {
    forall t | 0 <= t < i + 1 && Eligible(records[t], revision) && ScopeOf(records[t]) == ScopeOf(records[i])
      ensures !Beats(records[t], records[i]) && (t < i ==> Beats(records[i], records[t]))
    {
      BeatsTotal(records[i], records[t]);
      if t < i {
        BeatsTotal(records[j], records[t]);
        if Beats(records[j], records[t]) {
          BeatsTransitive(records[i], records[j], records[t]);
        } else {
          BeatsSameRank(records[i], records[j], records[t]);
        }
        BeatsTotal(records[i], records[t]);
      }
    }
  }

  // Records that neither beat the other are interchangeable in the order.
  lemma BeatsSameRank(a: Record, b: Record, c: Record)
    requires Beats(a, b) && !Beats(b, c) && !Beats(c, b)
    ensures Beats(a, c)
  {
    BeatsTotal(b, c);
  }
}
