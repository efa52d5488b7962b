// Verification evidence and the selection of the effective records of one revision.
module Evidence {
  import opened Wrappers
  import Text
  import Sorting

  datatype Kind =
    | Compiler | StaticAnalysis | Property | UnitTest | IntegrationTest | EndToEndTest
    | ContractTest | Mutation | Fuzz | Benchmark | Runtime | Verification | CiReceipt
    | Reconciliation | ModelReview | HumanApproval | PolicyAuthorization

  datatype Confidence = Low | Medium | High | Deterministic

  datatype Authority =
    | LegacyUnknown | NativeVerification | NativeStage | LocalOperator
    | PolicyAutoApproved | SelfReported | ExternalReceipt

  datatype Outcome = Pass | Fail | Inconclusive | Disagree

  datatype Execution = Unknown | Executed | Unavailable | TimedOut

  datatype Revision = Revision(design: Option<string>, code: string)

  // A check bound to the exact command that runs it.
  datatype Check = Check(id: string, signature: string)
  {
    predicate Valid() {
      Text.ValidId(id, 160) && |signature| == 71 && signature[..7] == "sha256:"
      && forall i :: 7 <= i < 71 ==> signature[i] in "0123456789abcdefABCDEF"
    }
  }

  datatype CheckRun = CheckRun(check: Check, result: Outcome, execution: Execution)

  function CheckId(c: Check): string {
    c.id
  }

  function RunId(r: CheckRun): string {
    r.check.id
  }

  datatype Receipt = Receipt(
    schemaVersion: nat, level: string, required: seq<Check>, runs: seq<CheckRun>, skipped: seq<string>)
  {
    predicate Valid() {
      && schemaVersion == 1 && (level == "quick" || level == "full")
      && 0 < |required| <= 32 && |runs| <= 64 && |skipped| <= 32
      && (forall c :: c in required ==> c.Valid())
      && (forall r :: r in runs ==> r.check.Valid())
      && (forall s :: s in skipped ==> Text.ValidId(s, 160))
      && Sorting.Distinct(Sorting.Image(required, CheckId)) && Sorting.Distinct(Sorting.Image(runs, RunId))
      && Sorting.Distinct(skipped)
      && (forall r :: r in runs ==> r.check.id !in skipped)
    }

    predicate SatisfiesLevel(wanted: string) {
      (level == "full" && (wanted == "quick" || wanted == "full")) || (level == "quick" && wanted == "quick")
    }

    predicate Covers(wanted: seq<Check>) {
      wanted != [] && forall c :: c in wanted ==>
        c in required && (exists r :: r in runs && r.check == c && r.execution == Executed) && c.id !in skipped
    }

    function Result(): Outcome {
      if exists r :: r in runs && r.execution == Executed && r.result == Fail then Fail
      else if (exists r :: r in runs && (r.result != Pass || r.execution != Executed))
           || skipped != [] || !Covers(required) then Inconclusive
      else Pass
    }
  }

  // `rest` stands for the fields the selection never reads (summary, claims, bindings, ...);
  // they matter only when two records are compared for equality.
  datatype Record = Record(
    id: string, subject: string, kind: Kind, producer: string, model: Option<string>,
    revision: Revision, result: Outcome, confidence: Confidence, authority: Authority,
    policy: Option<string>, targets: seq<string>, receipt: Option<Receipt>, timestamp: Text.Stamp, rest: string)
  {
    predicate Valid() {
      && (receipt.Some? ==> receipt.value.Valid())
      && Text.ValidId(id, 160) && Text.ValidId(subject, 512)
      && !Text.Blank(producer) && |producer| <= 256
      && !Text.Blank(revision.code) && |revision.code| <= 256
      && (revision.design.Some? ==> !Text.Blank(revision.design.value) && |revision.design.value| <= 256)
      && (model.Some? ==> |model.value| <= 256) && (policy.Some? ==> |policy.value| <= 256)
      && |targets| <= 32 && (forall t :: t in targets ==> Text.ValidId(t, 128))
    }

    predicate Negative() {
      result == Fail || result == Disagree || result == Inconclusive
    }
  }

  function Severity(o: Outcome): nat {
    match o
    case Pass => 0
    case Inconclusive => 1
    case Disagree => 2
    case Fail => 3
  }

  datatype PolicyFamily = DeterministicFamily | AcceptanceFamily

  // The typed policy a record was produced under, if its receipt is well formed.
  function FamilyOf(r: Record): (family: Option<PolicyFamily>)
    ensures family.Some? ==> r.receipt.Some? && r.receipt.value.Valid() && r.policy.Some?
  {
    if r.receipt.None? || !r.receipt.value.Valid() || r.policy.None? then None
    else
      var receipt := r.receipt.value;
      if r.policy.value == "deterministic/" + receipt.level + "/v2" && r.result == receipt.Result() then
        Some(DeterministicFamily)
      else if r.policy.value == "acceptance/" + receipt.level + "/v2" then Some(AcceptanceFamily)
      else None
  }

  // The two families are told apart by the policy, and the deterministic one has to agree
  // with the receipt's own result.
  lemma FamilyExactly(r: Record)
    ensures FamilyOf(r) == Some(DeterministicFamily) <==>
              && r.receipt.Some? && r.receipt.value.Valid() && r.result == r.receipt.value.Result()
              && r.policy == Some("deterministic/" + r.receipt.value.level + "/v2")
    ensures FamilyOf(r) == Some(AcceptanceFamily) <==>
              && r.receipt.Some? && r.receipt.value.Valid()
              && r.policy == Some("acceptance/" + r.receipt.value.level + "/v2")
  {
    if r.receipt.Some? {
      var level := r.receipt.value.level;
      assert ("deterministic/" + level + "/v2")[0] != ("acceptance/" + level + "/v2")[0];
    }
  }

  predicate PolicyStarts(r: Record, prefix: string) {
    r.policy.Some? && prefix <= r.policy.value
  }

  // Receipts written before authorities were recorded keep only the native verification contract.
  function EffectiveAuthority(r: Record): Authority {
    if r.authority != LegacyUnknown then r.authority
    else if r.confidence == Deterministic && FamilyOf(r).Some? && NativeShape(r) then NativeVerification
    else LegacyUnknown
  }

  predicate NativeShape(r: Record) {
    match r.kind
    case Verification => r.producer == "verify_project" && r.subject == "change:" + r.revision.code
    case IntegrationTest =>
      if r.producer == "deterministic-verification-mesh" then PolicyStarts(r, "acceptance/")
      else DeterministicSingle(r)
    case Compiler | StaticAnalysis | UnitTest | EndToEndTest | ContractTest | Benchmark => DeterministicSingle(r)
    case _ => false
  }

  predicate DeterministicSingle(r: Record) {
    PolicyStarts(r, "deterministic/") && r.receipt.Some? && |r.receipt.value.runs| == 1
    && r.subject == "verification:" + r.receipt.value.runs[0].check.id
  }

  // ---- Scopes ---------------------------------------------------------------

  // The part of a scope that a superseding record must share. Sorted and deduplicated
  // targets compare like a set; sorted required checks compare like a multiset.
  datatype Identity = Identity(
    subject: string, kind: Kind, producer: string, model: Option<string>,
    confidence: Confidence, targets: set<string>, authority: Authority)

  datatype ReceiptScope = ReceiptScope(typed: bool, schemaVersion: nat, level: string, required: multiset<Check>)

  datatype Scope = Scope(identity: Identity, policy: Option<string>, receipt: Option<ReceiptScope>)

  function IdentityOf(r: Record): Identity {
    Identity(r.subject, r.kind, r.producer, r.model, r.confidence, Sorting.Elements(r.targets), EffectiveAuthority(r))
  }

  function ScopeOf(r: Record): Scope {
    Scope(IdentityOf(r), r.policy,
          if r.receipt.None? then None
          else Some(ReceiptScope(FamilyOf(r).Some?, r.receipt.value.schemaVersion, r.receipt.value.level,
                                 multiset(r.receipt.value.required))))
  }

  predicate Eligible(r: Record, revision: Revision) {
    r.revision == revision && r.kind != HumanApproval && r.kind != Reconciliation
  }

  // The (timestamp, severity, id) order that decides which record leads a scope.
  predicate Beats(a: Record, b: Record) {
    a.timestamp > b.timestamp
    || (a.timestamp == b.timestamp
        && (Severity(a.result) > Severity(b.result)
            || (Severity(a.result) == Severity(b.result) && Text.Less(b.id, a.id))))
  }

  lemma BeatsTransitive(a: Record, b: Record, c: Record)
    requires Beats(a, b) && Beats(b, c)
    ensures Beats(a, c)
  {
    if Text.Less(b.id, a.id) && Text.Less(c.id, b.id) {
      Text.LessTransitive(c.id, b.id, a.id);
    }
  }

  lemma BeatsTotal(a: Record, b: Record)
    ensures !Beats(a, a)
    ensures Beats(a, b) ==> !Beats(b, a)
    ensures Beats(a, b) || Beats(b, a) || a.id == b.id
  {
    Text.LessIrreflexive(a.id);
    Text.LessTotal(a.id, b.id);
    if Text.Less(a.id, b.id) { Text.LessAsymmetric(a.id, b.id); }
  }

  // ---- Supersession ---------------------------------------------------------

  function LegacyFullPolicy(policy: Option<string>): Option<string> {
    if policy == Some("deterministic/quick/v1") then Some("deterministic/full/v1")
    else if policy == Some("acceptance/quick/v1") then Some("acceptance/full/v1")
    else None
  }

  // Does `newer`, leading its own scope, withdraw `older`, leading another?
  predicate Supersedes(newer: Record, older: Record) {
    newer.timestamp > older.timestamp &&
    if FamilyOf(older).Some? then
      && IdentityOf(newer) == IdentityOf(older)
      && FamilyOf(newer) == FamilyOf(older)
      && newer.receipt.value.SatisfiesLevel(older.receipt.value.level)
      && newer.receipt.value.Covers(older.receipt.value.required)
    else
      && older.receipt.None? && LegacyFullPolicy(older.policy).Some?
      && ScopeOf(newer) == ScopeOf(older).(policy := LegacyFullPolicy(older.policy))
  }

  // Supersession is a strict partial order; irreflexivity is its timestamp clause.
  lemma SupersedesTransitive(a: Record, b: Record, c: Record)
    requires Supersedes(a, b) && Supersedes(b, c)
    ensures Supersedes(a, c)
  {
    if FamilyOf(c).Some? {
      assert forall k :: k in c.receipt.value.required ==> k in b.receipt.value.required;
    } else {
      assert false;
    }
  }

  // Whatever supersedes a record of a scope supersedes every record it beats there.
  lemma SupersedesWholeScope(newer: Record, leader: Record, older: Record)
    requires Supersedes(newer, leader) && ScopeOf(leader) == ScopeOf(older) && older.timestamp <= leader.timestamp
    ensures Supersedes(newer, older)
  {
    if FamilyOf(leader).Some? {
      SameScopeFamily(leader, older);
      assert forall k :: k in older.receipt.value.required ==>
        k in multiset(older.receipt.value.required) && k in multiset(leader.receipt.value.required);
    }
  }

  lemma SameScopeFamily(a: Record, b: Record)
    requires ScopeOf(a) == ScopeOf(b) && FamilyOf(a).Some?
    ensures FamilyOf(b) == FamilyOf(a)
    ensures forall k :: k in a.receipt.value.required <==> k in b.receipt.value.required
    ensures a.receipt.value.level == b.receipt.value.level
  {
    assert FamilyOf(b).Some?;
    assert forall k :: k in a.receipt.value.required <==> k in multiset(a.receipt.value.required);
    assert forall k :: k in b.receipt.value.required <==> k in multiset(b.receipt.value.required);
    var level := a.receipt.value.level;
    assert ("deterministic/" + level + "/v2")[0] == 'd' && ("acceptance/" + level + "/v2")[0] == 'a';
  }

  // ---- Selection on sets of records ----------------------------------------

  ghost predicate IdsIdentify(s: set<Record>) {
    forall a, b :: a in s && b in s && a.id == b.id ==> a == b
  }

  ghost predicate Leads(r: Record, s: set<Record>, revision: Revision) {
    r in s && Eligible(r, revision)
    && forall o :: o in s && Eligible(o, revision) && ScopeOf(o) == ScopeOf(r) ==> !Beats(o, r)
  }

  ghost function Leaders(s: set<Record>, revision: Revision): set<Record> {
    set r | r in s && Leads(r, s, revision)
  }

  predicate SupersededIn(r: Record, leaders: set<Record>) {
    exists m :: m in leaders && Supersedes(m, r)
  }

  function Unsuperseded(leaders: set<Record>): set<Record> {
    set r | r in leaders && !SupersededIn(r, leaders)
  }

  // The effective records of a revision.
  ghost function Current(s: set<Record>, revision: Revision): set<Record> {
    Unsuperseded(Leaders(s, revision))
  }
}
