// The selection and the pruning of evidence, said of the fields of the records alone: what
// runs a receipt holds, under which policy, of which revision, at what time.
module EvidenceFields {
  import opened Wrappers
  import opened Evidence
  import opened EvidenceSelection
  import opened EvidenceStore
  import opened Directory
  import Text

  // ---- Receipts --------------------------------------------------------------------------

  // The receipt holds an executed run of this very check.
  predicate Ran(p: Receipt, c: Check) {
    exists i :: 0 <= i < |p.runs| && p.runs[i].check == c && p.runs[i].execution == Executed
  }

  // Every one of the checks is required by the receipt, was run and was not skipped.
  predicate RanAll(p: Receipt, checks: seq<Check>) {
    forall i :: 0 <= i < |checks| ==>
      checks[i] in p.required && Ran(p, checks[i]) && forall j :: 0 <= j < |p.skipped| ==> p.skipped[j] != checks[i].id
  }

  lemma RanAllCovers(p: Receipt, checks: seq<Check>)
    requires checks != []
    ensures RanAll(p, checks) <==> p.Covers(checks)
  {
    if p.Covers(checks) {
      forall i | 0 <= i < |checks| ensures checks[i] in p.required && Ran(p, checks[i]) {
        assert checks[i] in checks;
        var r :| r in p.runs && r.check == checks[i] && r.execution == Executed;
        var k :| 0 <= k < |p.runs| && p.runs[k] == r;
      }
    }
    if RanAll(p, checks) {
      forall c | c in checks ensures exists r :: r in p.runs && r.check == c && r.execution == Executed {
        var i :| 0 <= i < |checks| && checks[i] == c;
        var k :| 0 <= k < |p.runs| && p.runs[k].check == c && p.runs[k].execution == Executed;
        assert p.runs[k] in p.runs;
      }
    }
  }

  // A receipt fails by an executed failure, and passes exactly if every run it holds was executed
  // and passed, none was skipped, and every required check has such a run.
  lemma ReceiptResult(p: Receipt)
    requires p.Valid()
    ensures p.Result() == Fail <==>
              exists i :: 0 <= i < |p.runs| && p.runs[i].execution == Executed && p.runs[i].result == Fail
    ensures p.Result() == Pass <==>
              && p.skipped == [] && RanAll(p, p.required)
              && forall i :: 0 <= i < |p.runs| ==> p.runs[i].execution == Executed && p.runs[i].result == Pass
    ensures p.Result() != Disagree
  {
    RanAllCovers(p, p.required);
    assert forall i :: 0 <= i < |p.runs| ==> p.runs[i] in p.runs;
  }

  // What a receipt must be like to count under a version 2 policy.
  predicate InOrder(p: Receipt) {
    && p.schemaVersion == 1 && p.level in {"quick", "full"}
    && 1 <= |p.required| <= 32 && |p.runs| <= 64 && |p.skipped| <= 32
    && (forall i, j :: 0 <= i < j < |p.required| ==> p.required[i].id != p.required[j].id)
    && (forall i, j :: 0 <= i < j < |p.runs| ==> p.runs[i].check.id != p.runs[j].check.id)
    && (forall i, j :: 0 <= i < j < |p.skipped| ==> p.skipped[i] != p.skipped[j])
    && (forall i, j :: 0 <= i < |p.runs| && 0 <= j < |p.skipped| ==> p.runs[i].check.id != p.skipped[j])
  }

  predicate HexDigit(c: char) {
    '0' <= c <= '9' || 'a' <= c <= 'f' || 'A' <= c <= 'F'
  }

  // A check has a name and the SHA-256 of its command, in 64 hexadecimal digits.
  predicate Bound(c: Check) {
    && Text.Name(c.id, 160) && |c.signature| == 71 && "sha256:" <= c.signature
    && forall i :: 7 <= i < 71 ==> HexDigit(c.signature[i])
  }

  lemma BoundExactly(c: Check)
    ensures Bound(c) <==> c.Valid()
  {
    Text.NameIsValidId(c.id, 160);
    assert forall x: char :: HexDigit(x) <==> x in "0123456789abcdefABCDEF";
  }

  // A receipt in order names what it is about.
  ghost predicate Proper(p: Receipt) {
    && InOrder(p)
    && (forall i :: 0 <= i < |p.required| ==> Bound(p.required[i]))
    && (forall i :: 0 <= i < |p.runs| ==> Bound(p.runs[i].check))
    && (forall i :: 0 <= i < |p.skipped| ==> Text.Name(p.skipped[i], 160))
  }

  lemma ValidIsInOrder(p: Receipt)
    ensures p.Valid() <==>
              && InOrder(p)
              && (forall i :: 0 <= i < |p.required| ==> p.required[i].Valid())
              && (forall i :: 0 <= i < |p.runs| ==> p.runs[i].check.Valid())
              && (forall i :: 0 <= i < |p.skipped| ==> Text.ValidId(p.skipped[i], 160))
  {
    var (ids, runIds) := (Sorting.Image(p.required, CheckId), Sorting.Image(p.runs, RunId));
    assert forall i :: 0 <= i < |p.required| ==> ids[i] == p.required[i].id;
    assert forall i :: 0 <= i < |p.runs| ==> runIds[i] == p.runs[i].check.id;
    assert forall i :: 0 <= i < |p.required| ==> p.required[i] in p.required;
    assert forall i :: 0 <= i < |p.runs| ==> p.runs[i] in p.runs;
    assert forall i :: 0 <= i < |p.skipped| ==> p.skipped[i] in p.skipped;
  }

  lemma ProperExactly(p: Receipt)
    ensures p.Valid() <==> Proper(p)
  {
    ValidIsInOrder(p);
    forall i | 0 <= i < |p.required| ensures Bound(p.required[i]) <==> p.required[i].Valid() {
      BoundExactly(p.required[i]);
    }
    forall i | 0 <= i < |p.runs| ensures Bound(p.runs[i].check) <==> p.runs[i].check.Valid() {
      BoundExactly(p.runs[i].check);
    }
    forall i | 0 <= i < |p.skipped| ensures Text.Name(p.skipped[i], 160) <==> Text.ValidId(p.skipped[i], 160) {
      Text.NameIsValidId(p.skipped[i], 160);
    }
  }

  // What the store takes: every text there, none too long, and a receipt, if any, in order.
  ghost predicate Storable(r: Record) {
    && (r.receipt.Some? ==> Proper(r.receipt.value))
    && Text.Name(r.id, 160) && Text.Name(r.subject, 512)
    && Text.Says(r.producer) && |r.producer| <= 256
    && Text.Says(r.revision.code) && |r.revision.code| <= 256
    && (r.revision.design.Some? ==> Text.Says(r.revision.design.value) && |r.revision.design.value| <= 256)
    && (r.model.Some? ==> |r.model.value| <= 256) && (r.policy.Some? ==> |r.policy.value| <= 256)
    && |r.targets| <= 32 && forall i :: 0 <= i < |r.targets| ==> Text.Name(r.targets[i], 128)
  }

  lemma StorableExactly(r: Record)
    ensures r.Valid() <==> Storable(r)
  {
    if r.receipt.Some? {
      ProperExactly(r.receipt.value);
    }
    Text.NameIsValidId(r.id, 160);
    Text.NameIsValidId(r.subject, 512);
    Text.SaysIsNotBlank(r.producer);
    Text.SaysIsNotBlank(r.revision.code);
    if r.revision.design.Some? {
      Text.SaysIsNotBlank(r.revision.design.value);
    }
    forall i | 0 <= i < |r.targets| ensures Text.Name(r.targets[i], 128) <==> Text.ValidId(r.targets[i], 128) {
      Text.NameIsValidId(r.targets[i], 128);
    }
    assert forall i :: 0 <= i < |r.targets| ==> r.targets[i] in r.targets;
  }

  // ---- Policies and authority ---------------------------------------------------------------

  // Produced under version 2 of the policy `name`; a deterministic result is that of the runs.
  predicate Typed(r: Record, name: string) {
    && r.receipt.Some? && r.receipt.value.Valid() && r.policy == Some(name + "/" + r.receipt.value.level + "/v2")
    && (name == "deterministic" ==> r.result == r.receipt.value.Result())
  }

  predicate AnyTyped(r: Record) {
    Typed(r, "deterministic") || Typed(r, "acceptance")
  }

  lemma TypedIsFamily(r: Record)
    ensures Typed(r, "deterministic") <==> FamilyOf(r) == Some(DeterministicFamily)
    ensures Typed(r, "acceptance") <==> FamilyOf(r) == Some(AcceptanceFamily)
  {
    FamilyExactly(r);
    if r.receipt.Some? {
      var level := r.receipt.value.level;
      assert "deterministic" + "/" + level + "/v2" == "deterministic/" + level + "/v2";
      assert "acceptance" + "/" + level + "/v2" == "acceptance/" + level + "/v2";
    }
  }

  const SINGLE_RUN_KINDS: set<Kind> := {
    Compiler, StaticAnalysis, UnitTest, IntegrationTest, EndToEndTest, ContractTest, Benchmark
  }

  // What a typed record from before authorities looked like if the program itself produced it.
  predicate LegacyShape(r: Record) {
    if r.kind == Verification then r.producer == "verify_project" && r.subject == "change:" + r.revision.code
    else if r.kind == IntegrationTest && r.producer == "deterministic-verification-mesh" then Typed(r, "acceptance")
    else
      && r.kind in SINGLE_RUN_KINDS && Typed(r, "deterministic") && |r.receipt.value.runs| == 1
      && r.subject == "verification:" + r.receipt.value.runs[0].check.id
  }

  predicate NativeWork(r: Record) {
    r.authority == NativeVerification
    || (r.authority == LegacyUnknown && r.confidence == Deterministic && AnyTyped(r) && LegacyShape(r))
  }

  lemma PolicyPrefix(r: Record)
    requires AnyTyped(r)
    ensures Typed(r, "acceptance") <==> "acceptance/" <= r.policy.value
    ensures Typed(r, "deterministic") <==> "deterministic/" <= r.policy.value
  {
    var level := r.receipt.value.level;
    var (d, c) := ("deterministic/" + level + "/v2", "acceptance/" + level + "/v2");
    assert "deterministic" + "/" + level + "/v2" == d && "acceptance" + "/" + level + "/v2" == c;
    assert d[0] == 'd' && c[0] == 'a' && "deterministic/" <= d && "acceptance/" <= c;
    assert "deterministic/"[0] == 'd' && "acceptance/"[0] == 'a';
  }

  lemma NativeWorkExactly(r: Record)
    ensures EffectiveAuthority(r) == if NativeWork(r) then NativeVerification else r.authority
  {
    TypedIsFamily(r);
    if AnyTyped(r) {
      PolicyPrefix(r);
    }
  }

  // ---- When two records speak of the same ---------------------------------------------------

  ghost predicate SameWork(a: Record, b: Record) {
    && a.subject == b.subject && a.kind == b.kind && a.producer == b.producer && a.model == b.model
    && a.confidence == b.confidence && (forall t :: t in a.targets <==> t in b.targets)
    && (NativeWork(a) <==> NativeWork(b)) && (!NativeWork(a) ==> a.authority == b.authority)
  }

  lemma SameWorkExactly(a: Record, b: Record)
    ensures SameWork(a, b) <==> IdentityOf(a) == IdentityOf(b)
  {
    NativeWorkExactly(a);
    NativeWorkExactly(b);
    assert (forall t :: t in a.targets <==> t in b.targets) <==>
             Sorting.Elements(a.targets) == Sorting.Elements(b.targets) by {
      assert forall t :: t in Sorting.Elements(a.targets) <==> t in a.targets;
      assert forall t :: t in Sorting.Elements(b.targets) <==> t in b.targets;
    }
  }

  // The same work under the same policy and, if there are receipts, against the same checks in
  // any order.
  ghost predicate SameVerification(a: Record, b: Record) {
    && SameWork(a, b) && a.policy == b.policy && (a.receipt.Some? <==> b.receipt.Some?)
    && (a.receipt.Some? ==>
          && (AnyTyped(a) <==> AnyTyped(b))
          && a.receipt.value.schemaVersion == b.receipt.value.schemaVersion
          && a.receipt.value.level == b.receipt.value.level
          && multiset(a.receipt.value.required) == multiset(b.receipt.value.required))
  }

  lemma SameVerificationExactly(a: Record, b: Record)
    ensures SameVerification(a, b) <==> ScopeOf(a) == ScopeOf(b)
  {
    SameWorkExactly(a, b);
    TypedIsFamily(a);
    TypedIsFamily(b);
  }

  const BY_SEVERITY: seq<Outcome> := [Pass, Inconclusive, Disagree, Fail]

  // A later word: newer, or of the same time and worse, or of the same time and outcome with the
  // greater id.
  predicate LaterWord(a: Record, b: Record) {
    || a.timestamp > b.timestamp
    || (a.timestamp == b.timestamp
        && ((exists i, j :: 0 <= i < j < 4 && BY_SEVERITY[i] == b.result && BY_SEVERITY[j] == a.result)
            || (a.result == b.result && Text.Less(b.id, a.id))))
  }

  lemma LaterWordExactly(a: Record, b: Record)
    ensures LaterWord(a, b) <==> Beats(a, b)
  {
    assert forall i :: 0 <= i < 4 ==> Severity(BY_SEVERITY[i]) == i;
    assert BY_SEVERITY[Severity(a.result)] == a.result && BY_SEVERITY[Severity(b.result)] == b.result;
  }

  // Newer work of the same kind under the same policy, at least as full, that ran every check the
  // older record required.
  ghost predicate StrongerRun(a: Record, b: Record) {
    && a.timestamp > b.timestamp && SameWork(a, b)
    && ((Typed(a, "deterministic") && Typed(b, "deterministic")) || (Typed(a, "acceptance") && Typed(b, "acceptance")))
    && (a.receipt.value.level == "full" || b.receipt.value.level == "quick")
    && RanAll(a.receipt.value, b.receipt.value.required)
  }

  // Without receipts, a newer full record of version 1 answers a quick one.
  ghost predicate LegacyFull(a: Record, b: Record) {
    && a.timestamp > b.timestamp && SameWork(a, b) && a.receipt.None? && b.receipt.None?
    && ((b.policy == Some("deterministic/quick/v1") && a.policy == Some("deterministic/full/v1"))
        || (b.policy == Some("acceptance/quick/v1") && a.policy == Some("acceptance/full/v1")))
  }

  lemma LegacyPolicies(b: Record)
    ensures LegacyFullPolicy(b.policy) == Some("deterministic/full/v1") <==> b.policy == Some("deterministic/quick/v1")
    ensures LegacyFullPolicy(b.policy) == Some("acceptance/full/v1") <==> b.policy == Some("acceptance/quick/v1")
    ensures LegacyFullPolicy(b.policy) in {None, Some("deterministic/full/v1"), Some("acceptance/full/v1")}
  {
    assert "deterministic/quick/v1"[0] == 'd' && "acceptance/quick/v1"[0] == 'a';
    assert "deterministic/full/v1"[0] == 'd' && "acceptance/full/v1"[0] == 'a';
  }

  lemma LegacyFullExactly(a: Record, b: Record)
    requires !AnyTyped(b)
    ensures LegacyFull(a, b) <==> Supersedes(a, b)
  {
    TypedIsFamily(b);
    SameWorkExactly(a, b);
    LegacyPolicies(b);
  }

  lemma StrongerRunExactly(a: Record, b: Record)
    requires AnyTyped(b)
    ensures StrongerRun(a, b) <==> Supersedes(a, b)
  {
    TypedIsFamily(a);
    TypedIsFamily(b);
    SameWorkExactly(a, b);
    if AnyTyped(a) {
      RanAllCovers(a.receipt.value, b.receipt.value.required);
    }
  }

  lemma SupersedesExactly(a: Record, b: Record)
    ensures Supersedes(a, b) <==> StrongerRun(a, b) || LegacyFull(a, b)
  {
    if AnyTyped(b) {
      StrongerRunExactly(a, b);
    } else {
      LegacyFullExactly(a, b);
    }
  }

  // ---- The selection --------------------------------------------------------------------------

  predicate Considered(r: Record, revision: Revision) {
    r.revision == revision && r.kind !in {HumanApproval, Reconciliation}
  }

  // Why a record is no longer effective.
  ghost predicate Overtakes(a: Record, r: Record) {
    (SameVerification(a, r) && LaterWord(a, r)) || StrongerRun(a, r) || LegacyFull(a, r)
  }

  lemma OvertakesExactly(a: Record, r: Record)
    ensures Overtakes(a, r) <==> Answers(a, r)
  {
    SameVerificationExactly(a, r);
    LaterWordExactly(a, r);
    SupersedesExactly(a, r);
  }

  // The effective records of a revision are exactly those that no effective record overtakes.
  lemma SelectedExactly(r: Record, s: set<Record>, revision: Revision)
    ensures r in Current(s, revision) <==>
              r in s && Considered(r, revision) && !exists a :: a in Current(s, revision) && Overtakes(a, r)
  {
    forall a ensures Overtakes(a, r) <==> Answers(a, r) {
      OvertakesExactly(a, r);
    }
    if r in s && Eligible(r, revision) && r !in Current(s, revision) {
      DroppedIsAnswered(r, s, revision);
    }
  }

  // In particular a typed record, a failure say, gives way only to a later word on the same
  // verification or to newer work that executed each of the very checks it required.
  lemma TypedRecordIsAnswered(r: Record, s: set<Record>, revision: Revision)
    requires r in s && Considered(r, revision) && AnyTyped(r) && r !in Current(s, revision)
    ensures exists a :: a in Current(s, revision)
              && ((SameVerification(a, r) && LaterWord(a, r))
                  || (a.timestamp > r.timestamp && a.receipt.Some?
                      && forall i :: 0 <= i < |r.receipt.value.required| ==>
                           Ran(a.receipt.value, r.receipt.value.required[i])))
  {
    SelectedExactly(r, s, revision);
    var a :| a in Current(s, revision) && Overtakes(a, r);
  }

  // ---- Pruning ----------------------------------------------------------------------------------

  // Advisory, or of another revision.
  predicate Foreign(r: Record, revision: Revision) {
    r.authority == SelfReported || r.revision != revision
  }

  function NativeRecords(files: Files): set<Record> {
    set f | f in files && f.content.Some? && f.content.value.authority != SelfReported :: f.content.value
  }

  // A native negative of the revision that is still effective, or that an approval or a
  // reconciliation left.
  ghost predicate StandsAgainst(r: Record, files: Files, revision: Revision) {
    && r in NativeRecords(files) && r.revision == revision && r.result in {Fail, Disagree, Inconclusive}
    && (r.kind in {HumanApproval, Reconciliation} || r in Current(NativeRecords(files), revision))
  }

  lemma StandsExactly(r: Record, files: Files, revision: Revision)
    ensures StandsAgainst(r, files, revision) <==> Protected(r, files, revision)
  {
    assert NativeRecords(files) == Native(files);
    SelectedExactly(r, Native(files), revision);
  }

  ghost predicate MayGo(files: Files, k: nat, incoming: string, revision: Revision)
    requires k < |files| && files[k].content.Some?
  {
    files[k].name != incoming && !StandsAgainst(files[k].content.value, files, revision)
  }

  // The first foreign record that is not the incoming one, else the first of all that may go.
  ghost predicate GoesFirst(files: Files, k: nat, incoming: string, revision: Revision)
    requires Readable(files) && k < |files|
  {
    && MayGo(files, k, incoming, revision)
    && (if Foreign(files[k].content.value, revision) then
          forall j :: 0 <= j < k && Foreign(files[j].content.value, revision) ==> files[j].name == incoming
        else
          && (forall j :: 0 <= j < |files| && Foreign(files[j].content.value, revision) ==> files[j].name == incoming)
          && (forall j :: 0 <= j < k ==> !MayGo(files, j, incoming, revision)))
  }

  lemma VictimExactly(files: Files, k: nat, incoming: string, revision: Revision)
    requires Readable(files) && k < |files|
    ensures IsVictim(files, k, incoming, revision) <==> GoesFirst(files, k, incoming, revision)
  {
    forall j | 0 <= j < |files|
      ensures MayGo(files, j, incoming, revision) <==> !EvidenceStore.Kept(files[j], files, incoming, revision)
      ensures Foreign(files[j].content.value, revision) && files[j].name != incoming ==>
                MayGo(files, j, incoming, revision)
    {
      StandsExactly(files[j].content.value, files, revision);
    }
  }

  // A full store never forgets a native record of the incoming revision while it holds, beside
  // the incoming one, a record that is advisory or of another revision.
  lemma ForeignGoFirst(files: Files, incoming: string, revision: Revision, after: Files)
    requires Listing(files) && |files| > 4096 && Pruned(files, incoming, revision, after)
    ensures forall f :: f in files && f !in after && f.content.value.authority != SelfReported
                        && f.content.value.revision == revision ==>
              forall g :: g in files && g.name != incoming ==>
                g.content.value.authority != SelfReported && g.content.value.revision == revision
  {
    var k: nat :| IsVictim(files, k, incoming, revision) && after == Without(files, k);
    VictimExactly(files, k, incoming, revision);
    WithoutMembers(files, k);
  }
}
