// Acceptance policies: which requirements a change must meet, joined from a baseline, every
// rule the change matches and a risk floor.
module Policy {
  import opened Wrappers
  import opened Sorting
  import opened Folding
  import Scopes
  import Text

  datatype Level = Quick | Full

  datatype Risk = Low | Medium | High | Critical

  datatype Stage = Property | Mutation | Fuzz | RuntimeCanary

  datatype Role = DesignCompliance | Correctness | Maintainability | Architecture | Security | Performance
    | Compatibility | Adversarial | TestSynthesis

  datatype Requirements = Requirements(level: Level, checks: seq<string>, stages: seq<Stage>, reviewers: seq<Role>,
                                       human: bool, humanFrom: Option<Risk>)

  datatype Path = File(path: string) | Directory(path: string) {
    predicate Covers(candidate: string) {
      match this
      case File(p) => candidate == p
      case Directory(p) => p <= candidate && |candidate| > |p| && candidate[|p|] == '/'
    }
  }

  datatype Rule = Rule(id: string, paths: seq<Path>, components: seq<string>, requirements: seq<string>,
                       require: Requirements)

  datatype Docs = Docs(paths: seq<Path>, require: Requirements)

  datatype Policy = Policy(schemaVersion: nat, id: string, version: nat, baseline: Requirements, docsOnly: Option<Docs>,
                           rules: seq<Rule>)

  datatype Change = Change(paths: seq<string>, complete: bool, executable: Option<bool>, regular: Option<bool>)

  datatype Mappings = Mappings(
    complete: bool, components: map<string, seq<string>>, requirements: map<string, seq<string>>)

  datatype Code = InvalidIdentity | EmptyRequiredChecks | InvalidChecks | InvalidStageOrReviewer | RuleBound
    | InvalidOrDuplicateRule | EmptySelector | InvalidPaths | InvalidComponents | InvalidRequirementIds
    | InvalidDocsScope
    | ChangeSetIncomplete | InvalidChangePath | MappingBound | MappingIncomplete | MappingUnavailable

  datatype Selection = Selection(policyId: string, policyVersion: nat, docsOnly: bool, matchedRules: seq<string>,
                                 requirements: Requirements)

  // ---- Orders ------------------------------------------------------------------

  function LevelRank(level: Level): nat {
    match level case Quick => 0 case Full => 1
  }

  function RiskRank(risk: Risk): nat {
    match risk case Low => 0 case Medium => 1 case High => 2 case Critical => 3
  }

  function StageRank(stage: Stage): nat {
    match stage case Property => 0 case Mutation => 1 case Fuzz => 2 case RuntimeCanary => 3
  }

  function RoleRank(role: Role): nat {
    match role
    case DesignCompliance => 0
    case Correctness => 1
    case Maintainability => 2
    case Architecture => 3
    case Security => 4
    case Performance => 5
    case Compatibility => 6
    case Adversarial => 7
    case TestSynthesis => 8
  }

  predicate StageBefore(a: Stage, b: Stage) {
    StageRank(a) < StageRank(b)
  }

  predicate RoleBefore(a: Role, b: Role) {
    RoleRank(a) < RoleRank(b)
  }

  lemma OrdersAreStrictTotal()
    ensures StrictTotal(Text.Less) && StrictTotal(StageBefore) && StrictTotal(RoleBefore)
  {
    Text.LessIsStrictTotal();
  }

  // `sort` and `dedup`.
  function SortedIds(ids: set<string>): (list: seq<string>)
    ensures Elements(list) == ids && |list| == |ids| && Increasing(list, Text.Less)
  {
    OrdersAreStrictTotal();
    Ascending(ids, Text.Less)
  }

  function SortedStages(stages: set<Stage>): (list: seq<Stage>)
    ensures Elements(list) == stages && Increasing(list, StageBefore)
  {
    OrdersAreStrictTotal();
    Ascending(stages, StageBefore)
  }

  function SortedRoles(roles: set<Role>): (list: seq<Role>)
    ensures Elements(list) == roles && Increasing(list, RoleBefore)
  {
    OrdersAreStrictTotal();
    Ascending(roles, RoleBefore)
  }

  // ---- What requirements demand at a risk ------------------------------------------------

  datatype Demand = Demand(level: Level, checks: set<string>, stages: set<Stage>, reviewers: set<Role>, human: bool)

  predicate AtMost(a: Demand, b: Demand) {
    && LevelRank(a.level) <= LevelRank(b.level)
    && a.checks <= b.checks && a.stages <= b.stages && a.reviewers <= b.reviewers
    && (a.human ==> b.human)
  }

  predicate Reached(threshold: Option<Risk>, risk: Risk) {
    threshold.Some? && RiskRank(risk) >= RiskRank(threshold.value)
  }

  function DemandOf(r: Requirements, risk: Risk): Demand {
    Demand(r.level, Elements(r.checks), Elements(r.stages), Elements(r.reviewers),
           r.human || Reached(r.humanFrom, risk))
  }

  function Join(a: Demand, b: Demand): Demand {
    Demand(if a.level.Full? then Full else b.level, a.checks + b.checks, a.stages + b.stages, a.reviewers + b.reviewers,
           a.human || b.human)
  }

  // The requirements with no threshold left, sorted and without repetition.
  function Listed(d: Demand): Requirements {
    Requirements(d.level, SortedIds(d.checks), SortedStages(d.stages), SortedRoles(d.reviewers), d.human, None)
  }

  // ---- Checks on the inputs ---------------------------------------------------------------

  predicate ValidId(value: string) {
    value != "" && |value| <= 160
    && forall i :: 0 <= i < |value| ==> !Text.IsWhitespace(value[i]) && !Text.IsControl(value[i])
  }

  predicate ValidPath(value: string) {
    && value != "" && |value| <= 1024 && value[0] != '/' && '\\' !in value && ':' !in value
    && (forall i :: 0 <= i < |value| ==> !Text.IsControl(value[i]) && value[i] !in "*?[]")
    && (forall part :: part in Text.Split(value, '/') ==> part != "" && part != "." && part != "..")
  }

  predicate SafeDocumentScope(value: string) {
    ValidPath(value) && forall part :: part in Text.Split(value, '/') ==> part !in {".git", ".github", ".wcode"}
  }

  predicate PureMarkdown(value: string) {
    SafeDocumentScope(value) && |value| >= 3 && value[|value| - 3..] == ".md"
  }

  predicate InstructionMarkdown(value: string) {
    var parts := Text.Split(value, '/');
    Scopes.Lower(parts[|parts| - 1]) in {"agents.md", "claude.md", "skill.md"}
  }

  predicate ValidIds(values: seq<string>) {
    |values| <= 32 && (forall i :: 0 <= i < |values| ==> ValidId(values[i])) && Distinct(values)
  }

  function If(condition: bool, code: Code): set<Code> {
    if condition then {code} else {}
  }

  function PathErrors(paths: seq<Path>): set<Code> {
    If(|paths| > 32 || !Distinct(paths) || exists i :: 0 <= i < |paths| && !ValidPath(paths[i].path), InvalidPaths)
  }

  function RequirementErrors(r: Requirements, needChecks: bool): set<Code> {
    If(!ValidIds(r.checks), InvalidChecks)
    + If(needChecks && r.checks == [], EmptyRequiredChecks)
    + If(|r.stages| > 4 || !Distinct(r.stages) || |r.reviewers| > 9 || !Distinct(r.reviewers), InvalidStageOrReviewer)
  }

  function RuleErrors(rule: Rule): set<Code> {
    If(!ValidId(rule.id), InvalidOrDuplicateRule)
    + If(rule.paths == [] && rule.components == [] && rule.requirements == [], EmptySelector)
    + PathErrors(rule.paths)
    + If(!ValidIds(rule.components), InvalidComponents)
    + If(!ValidIds(rule.requirements), InvalidRequirementIds)
    + RequirementErrors(rule.require, false)
  }

  predicate DocsPath(path: Path) {
    SafeDocumentScope(path.path) && (path.File? ==> PureMarkdown(path.path))
  }

  function DocsErrors(docs: Docs): set<Code> {
    PathErrors(docs.paths)
    + If(docs.paths == [] || exists i :: 0 <= i < |docs.paths| && !DocsPath(docs.paths[i]), InvalidDocsScope)
    + RequirementErrors(docs.require, true)
  }

  function RuleId(rule: Rule): string {
    rule.id
  }

  function StructureErrors(p: Policy): set<Code> {
    var own := If(p.schemaVersion != 1 || p.version == 0 || !ValidId(p.id), InvalidIdentity)
      + RequirementErrors(p.baseline, true);
    if |p.rules| > 32 then own + {RuleBound} else
      own + (set r, c | r in p.rules && c in RuleErrors(r) :: c)
      + If(!Distinct(Image(p.rules, RuleId)), InvalidOrDuplicateRule)
      + (if p.docsOnly.Some? then DocsErrors(p.docsOnly.value) else {})
  }

  function ChangeErrors(change: Change): set<Code> {
    If(!change.complete || |change.paths| > 4096, ChangeSetIncomplete)
    + If(|change.paths| <= 4096 && exists i :: 0 <= i < |change.paths| && !ValidPath(change.paths[i]),
         InvalidChangePath)
  }

  function MappingErrors(ids: seq<string>, mapping: map<string, seq<string>>, complete: bool): set<Code> {
    if ids == [] then {} else if !complete then {MappingIncomplete} else
      If(exists i :: 0 <= i < |ids| && !Mapped(mapping, ids[i]), MappingUnavailable)
  }

  predicate Mapped(mapping: map<string, seq<string>>, id: string) {
    && id in mapping && mapping[id] != [] && |mapping[id]| <= 4096
    && forall i :: 0 <= i < |mapping[id]| ==> ValidPath(mapping[id][i])
  }

  function RuleMappingErrors(rule: Rule, m: Mappings): set<Code> {
    MappingErrors(rule.components, m.components, m.complete)
    + MappingErrors(rule.requirements, m.requirements, m.complete)
  }

  // How many paths the ids map to, each id once.
  function MappedPaths(ids: seq<string>, mapping: map<string, seq<string>>): nat {
    if ids == [] then 0 else
      var id := ids[|ids| - 1];
      MappedPaths(ids[..|ids| - 1], mapping) + if id in mapping then |mapping[id]| else 0
  }

  function ComponentIds(rules: seq<Rule>): set<string> {
    set r, id | r in rules && id in r.components :: id
  }

  function RequirementIds(rules: seq<Rule>): set<string> {
    set r, id | r in rules && id in r.requirements :: id
  }

  // All that is checked before anything is selected; the first stage that finds something
  // wrong reports it.
  function InputErrors(p: Policy, change: Change, m: Mappings, floor: Requirements): set<Code> {
    var structure := StructureErrors(p) + RequirementErrors(floor, false);
    if structure != {} then structure
    else if ChangeErrors(change) != {} then ChangeErrors(change)
    else if MappedPaths(SortedIds(ComponentIds(p.rules)), m.components)
              + MappedPaths(SortedIds(RequirementIds(p.rules)), m.requirements) > 4096 then {MappingBound}
    else set r, c | r in p.rules && c in RuleMappingErrors(r, m) :: c
  }

  // ---- Matching -----------------------------------------------------------------------

  predicate MappedChangeMatches(ids: seq<string>, mapping: map<string, seq<string>>, changed: set<string>) {
    exists i :: 0 <= i < |ids| && ids[i] in mapping && exists path :: path in mapping[ids[i]] && path in changed
  }

  predicate CoveredBy(paths: seq<Path>, candidate: string) {
    exists i :: 0 <= i < |paths| && paths[i].Covers(candidate)
  }

  predicate Matches(rule: Rule, change: Change, m: Mappings) {
    || (exists i :: 0 <= i < |change.paths| && CoveredBy(rule.paths, change.paths[i]))
    || MappedChangeMatches(rule.components, m.components, Elements(change.paths))
    || MappedChangeMatches(rule.requirements, m.requirements, Elements(change.paths))
  }

  predicate DocsOnly(p: Policy, change: Change) {
    && p.docsOnly.Some? && change.paths != []
    && change.executable == Some(false) && change.regular == Some(true)
    && forall i :: 0 <= i < |change.paths| ==>
         PureMarkdown(change.paths[i]) && !InstructionMarkdown(change.paths[i])
         && CoveredBy(p.docsOnly.value.paths, change.paths[i])
  }

  function Base(p: Policy, change: Change): Requirements {
    if DocsOnly(p, change) then p.docsOnly.value.require else p.baseline
  }

  // ---- The joined demand -----------------------------------------------------------------

  function Matched(change: Change, m: Mappings, risk: Risk): (Demand, Rule) -> Demand {
    (d: Demand, rule: Rule) => if Matches(rule, change, m) then Join(d, DemandOf(rule.require, risk)) else d
  }

  function Selected(p: Policy, change: Change, m: Mappings, floor: Requirements, risk: Risk): Demand {
    Join(Fold(Matched(change, m, risk), DemandOf(Base(p, change), risk), p.rules), DemandOf(floor, risk))
  }

  function MatchedIds(rules: seq<Rule>, change: Change, m: Mappings): set<string> {
    set r | r in rules && Matches(r, change, m) :: r.id
  }

  // Sorting and removing repetitions changes no demand.
  function Normalized(r: Requirements): Requirements {
    Requirements(r.level, SortedIds(Elements(r.checks)), SortedStages(Elements(r.stages)),
                 SortedRoles(Elements(r.reviewers)), r.human, r.humanFrom)
  }

  // A threshold of the merged requirements is resolved; one of its own stays open.
  function Appended(r: Requirements, other: Requirements, risk: Risk): Requirements {
    Requirements(if r.level.Full? then r.level else other.level, r.checks + other.checks, r.stages + other.stages,
                 r.reviewers + other.reviewers, r.human || other.human || Reached(other.humanFrom, risk), r.humanFrom)
  }

  lemma NormalizedDemand(r: Requirements, risk: Risk)
    ensures DemandOf(Normalized(r), risk) == DemandOf(r, risk)
  {
  }

  // The same requirements with every list strictly increasing.
  ghost predicate SortedForm(n: Requirements, r: Requirements) {
    && n.level == r.level && n.human == r.human && n.humanFrom == r.humanFrom
    && Increasing(n.checks, Text.Less) && Elements(n.checks) == Elements(r.checks)
    && Increasing(n.stages, StageBefore) && Elements(n.stages) == Elements(r.stages)
    && Increasing(n.reviewers, RoleBefore) && Elements(n.reviewers) == Elements(r.reviewers)
  }

  // Normalizing gives the one sorted form there is.
  lemma NormalizedExactly(r: Requirements, n: Requirements)
    ensures n == Normalized(r) <==> SortedForm(n, r)
  {
    if SortedForm(n, r) {
      OrdersAreStrictTotal();
      IncreasingUnique(n.checks, Normalized(r).checks, Text.Less);
      IncreasingUnique(n.stages, Normalized(r).stages, StageBefore);
      IncreasingUnique(n.reviewers, Normalized(r).reviewers, RoleBefore);
    }
  }

  lemma AppendedDemand(r: Requirements, other: Requirements, risk: Risk)
    ensures DemandOf(Appended(r, other, risk), risk) == Join(DemandOf(r, risk), DemandOf(other, risk))
  {
    ElementsConcat(r.checks, other.checks);
    ElementsConcat(r.stages, other.stages);
    ElementsConcat(r.reviewers, other.reviewers);
  }

  lemma ElementsConcat<T>(a: seq<T>, b: seq<T>)
    ensures Elements(a + b) == Elements(a) + Elements(b)
  {
  }

  // Resolving the own threshold and normalizing lists the demand.
  lemma ClosedIsListed(r: Requirements, risk: Risk)
    ensures Normalized(r.(human := r.human || Reached(r.humanFrom, risk), humanFrom := None)) ==
              Listed(DemandOf(r, risk))
  {
  }

  // The requirements a selection works on, changed in place.
  class Pending {
    var level: Level
    var checks: seq<string>
    var stages: seq<Stage>
    var reviewers: seq<Role>
    var human: bool
    var humanFrom: Option<Risk>

    constructor (r: Requirements)
      ensures Value() == r
    {
      level, checks, stages, reviewers := r.level, r.checks, r.stages, r.reviewers;
      human, humanFrom := r.human, r.humanFrom;
    }

    function Value(): Requirements
      reads this
    {
      Requirements(level, checks, stages, reviewers, human, humanFrom)
    }

    method Normalize()
      modifies `checks, `stages, `reviewers
      ensures Value() == Normalized(old(Value()))
    {
      checks := SortedIds(Elements(checks));
      stages := SortedStages(Elements(stages));
      reviewers := SortedRoles(Elements(reviewers));
    }

    // The own threshold is resolved last, whether or not a rule matched.
    method Close(risk: Risk)
      modifies this
      ensures Value() == Listed(DemandOf(old(Value()), risk))
    {
      ClosedIsListed(Value(), risk);
      human := human || Reached(humanFrom, risk);
      humanFrom := None;
      Normalize();
    }

    method Merge(other: Requirements, risk: Risk)
      modifies this
      ensures humanFrom == old(humanFrom)
      ensures DemandOf(Value(), risk) == Join(old(DemandOf(Value(), risk)), DemandOf(other, risk))
    {
      MergedDemand(Value(), other, risk);
      Append(other, risk);
      Normalize();
    }

    method Append(other: Requirements, risk: Risk)
      modifies this
      ensures Value() == Appended(old(Value()), other, risk)
    {
      level := if level.Full? then level else other.level;
      checks := checks + other.checks;
      stages := stages + other.stages;
      reviewers := reviewers + other.reviewers;
      human := human || other.human || Reached(other.humanFrom, risk);
    }
  }

  lemma MergedDemand(r: Requirements, other: Requirements, risk: Risk)
    ensures var merged := Normalized(Appended(r, other, risk));
      merged.humanFrom == r.humanFrom && DemandOf(merged, risk) == Join(DemandOf(r, risk), DemandOf(other, risk))
  {
    AppendedDemand(r, other, risk);
    NormalizedDemand(Appended(r, other, risk), risk);
  }

  // ---- What can still go wrong at the end: too many checks together ---------------------------

  predicate ValidChecks(checks: set<string>) {
    forall check :: check in checks ==> ValidId(check)
  }

  lemma RulesInOrder(p: Policy, rule: Rule)
    requires StructureErrors(p) == {} && rule in p.rules
    ensures RuleErrors(rule) == {}
  {
    assert RuleBound !in StructureErrors(p);
    assert RuleErrors(rule) <= (set r, c | r in p.rules && c in RuleErrors(r) :: c) <= StructureErrors(p);
  }

  lemma CheckedIds(r: Requirements, needChecks: bool)
    requires RequirementErrors(r, needChecks) == {}
    ensures ValidChecks(Elements(r.checks)) && (needChecks ==> Elements(r.checks) != {})
  {
    assert InvalidChecks !in RequirementErrors(r, needChecks);
    assert EmptyRequiredChecks !in RequirementErrors(r, needChecks);
    assert needChecks ==> r.checks[0] in Elements(r.checks);
  }

  lemma {:induction false} FoldedChecks(p: Policy, change: Change, m: Mappings, risk: Risk, base: Demand, count: nat)
    requires StructureErrors(p) == {} && count <= |p.rules| && ValidChecks(base.checks)
    ensures var d := Fold(Matched(change, m, risk), base, p.rules[..count]);
      ValidChecks(d.checks) && base.checks <= d.checks
  {
    if count > 0 {
      var (front, rule) := (p.rules[..count - 1], p.rules[count - 1]);
      FoldedChecks(p, change, m, risk, base, count - 1);
      assert p.rules[..count] == front + [rule];
      LastStep(Matched(change, m, risk), base, front, rule);
      RulesInOrder(p, rule);
      assert RequirementErrors(rule.require, false) <= RuleErrors(rule);
      CheckedIds(rule.require, false);
    } else {
      assert p.rules[..count] == [];
    }
  }

  lemma BaseInOrder(p: Policy, change: Change)
    requires StructureErrors(p) == {}
    ensures RequirementErrors(Base(p, change), true) == {}
  {
    assert RequirementErrors(p.baseline, true) <= StructureErrors(p);
    assert RuleBound !in StructureErrors(p);
    if p.docsOnly.Some? {
      assert RequirementErrors(p.docsOnly.value.require, true) <= DocsErrors(p.docsOnly.value) <= StructureErrors(p);
    }
  }

  lemma SelectedErrors(p: Policy, change: Change, m: Mappings, floor: Requirements, risk: Risk)
    requires StructureErrors(p) + RequirementErrors(floor, false) == {}
    ensures var d := Selected(p, change, m, floor, risk);
      RequirementErrors(Listed(d), true) == if |d.checks| > 32 then {InvalidChecks} else {}
  {
    BaseInOrder(p, change);
    CheckedIds(Base(p, change), true);
    CheckedIds(floor, false);
    var base := DemandOf(Base(p, change), risk);
    FoldedChecks(p, change, m, risk, base, |p.rules|);
    assert p.rules[..|p.rules|] == p.rules;
    ListedErrors(Selected(p, change, m, floor, risk));
  }

  lemma ListedErrors(d: Demand)
    requires ValidChecks(d.checks) && d.checks != {}
    ensures RequirementErrors(Listed(d), true) == if |d.checks| > 32 then {InvalidChecks} else {}
  {
    var r := Listed(d);
    OrdersAreStrictTotal();
    IncreasingDistinct(r.checks, Text.Less);
    IncreasingDistinct(r.stages, StageBefore);
    IncreasingDistinct(r.reviewers, RoleBefore);
    DistinctSize(r.stages);
    DistinctSize(r.reviewers);
    FewStages(d.stages);
    FewRoles(d.reviewers);
    assert forall i :: 0 <= i < |r.checks| ==> r.checks[i] in Elements(r.checks);
    assert r.checks == [] ==> Elements(r.checks) == {};
  }

  lemma FewStages(stages: set<Stage>)
    ensures |stages| <= 4
  {
    var all := {Property, Mutation, Fuzz, RuntimeCanary};
    forall stage | stage in stages ensures stage in all {
      match stage case Property => case Mutation => case Fuzz => case RuntimeCanary =>
    }
    SubsetSize(stages, all);
  }

  lemma FewRoles(roles: set<Role>)
    ensures |roles| <= 9
  {
    var all := {DesignCompliance, Correctness, Maintainability, Architecture, Security, Performance, Compatibility,
      Adversarial, TestSynthesis};
    forall role | role in roles ensures role in all {
      match role
      case DesignCompliance => case Correctness => case Maintainability => case Architecture => case Security =>
      case Performance => case Compatibility => case Adversarial => case TestSynthesis =>
    }
    SubsetSize(roles, all);
  }

  // The loop over the rules.
  method MergeMatching(pending: Pending, rules: seq<Rule>, change: Change, m: Mappings, risk: Risk)
    returns (matched: set<string>)
    modifies pending
    ensures pending.humanFrom == old(pending.humanFrom)
    ensures DemandOf(pending.Value(), risk) ==
              Fold(Matched(change, m, risk), old(DemandOf(pending.Value(), risk)), rules)
    ensures matched == MatchedIds(rules, change, m)
  {
    matched := {};
    ghost var step := Matched(change, m, risk);
    ghost var base := DemandOf(pending.Value(), risk);
    for i := 0 to |rules|
      invariant pending.humanFrom == old(pending.humanFrom)
      invariant DemandOf(pending.Value(), risk) == Fold(step, base, rules[..i])
      invariant matched == MatchedIds(rules[..i], change, m)
    {
      assert rules[..i + 1] == rules[..i] + [rules[i]];
      LastStep(step, base, rules[..i], rules[i]);
      if Matches(rules[i], change, m) {
        pending.Merge(rules[i].require, risk);
        matched := matched + {rules[i].id};
      }
    }
    assert rules[..|rules|] == rules;
  }

  // A selection succeeds exactly when the inputs are in order and the checks of all that
  // applies, taken together, are no more than 32; then it lists the joined demand.
  method Select(p: Policy, change: Change, m: Mappings, floor: Requirements, risk: Risk)
    returns (result: Result<Selection, set<Code>>)
    ensures result == Outcome(p, change, m, floor, risk)
  {
    var errors := InputErrors(p, change, m, floor);
    if errors != {} {
      return Failure(errors);
    }
    var docsOnly := DocsOnly(p, change);
    var pending := new Pending(if docsOnly then p.docsOnly.value.require else p.baseline);
    var matched := MergeMatching(pending, p.rules, change, m, risk);
    pending.Merge(floor, risk);
    assert DemandOf(pending.Value(), risk) == Selected(p, change, m, floor, risk);
    pending.Close(risk);
    ClosingErrors(p, change, m, floor, risk);
    errors := RequirementErrors(pending.Value(), true);
    if errors != {} {
      return Failure(errors);
    }
    return Success(Selection(p.id, p.version, docsOnly, SortedIds(matched), pending.Value()));
  }

  lemma ClosingErrors(p: Policy, change: Change, m: Mappings, floor: Requirements, risk: Risk)
    requires InputErrors(p, change, m, floor) == {}
    ensures var d := Selected(p, change, m, floor, risk);
      RequirementErrors(Listed(d), true) == if |d.checks| > 32 then {InvalidChecks} else {}
  {
    assert StructureErrors(p) + RequirementErrors(floor, false) == {};
    SelectedErrors(p, change, m, floor, risk);
  }

  function Outcome(p: Policy, change: Change, m: Mappings, floor: Requirements, risk: Risk)
    : Result<Selection, set<Code>>
  {
    Conclude(InputErrors(p, change, m, floor), Selected(p, change, m, floor, risk),
             p.id, p.version, DocsOnly(p, change),
             MatchedIds(p.rules, change, m))
  }

  function Conclude(errors: set<Code>, d: Demand, id: string, version: nat, docsOnly: bool, matched: set<string>)
    : Result<Selection, set<Code>>
  {
    if errors != {} then Failure(errors)
    else if |d.checks| > 32 then Failure({InvalidChecks})
    else Success(Selection(id, version, docsOnly, SortedIds(matched), Listed(d)))
  }
}
