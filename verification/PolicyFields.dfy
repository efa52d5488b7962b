// The selection of requirements, said of the fields of policies and changes alone: which inputs
// are faulty, which rules a change matches, and what is demanded in the end.
module PolicyFields {
  import opened Wrappers
  import opened Sorting
  import opened Folding
  import opened Policy
  import opened PolicyLaws
  import Scopes
  import Text

  // ---- Names and paths ----------------------------------------------------------------------

  predicate Id(s: string) {
    1 <= |s| <= 160 && forall i :: 0 <= i < |s| ==> !Text.IsWhitespace(s[i]) && !Text.IsControl(s[i])
  }

  predicate Ids(list: seq<string>) {
    && |list| <= 32 && (forall i :: 0 <= i < |list| ==> Id(list[i]))
    && forall i, j :: 0 <= i < j < |list| ==> list[i] != list[j]
  }

  lemma IdsExactly(list: seq<string>)
    ensures Ids(list) <==> ValidIds(list)
  {
  }

  function Parts(path: string): seq<string> {
    Text.Split(path, '/')
  }

  // A path relative to the repository, of proper components and without wildcards.
  predicate Relative(path: string) {
    && 1 <= |path| <= 1024
    && (forall i :: 0 <= i < |path| ==>
          path[i] !in {'\\', ':', '*', '?', '[', ']'} && !Text.IsControl(path[i]))
    && forall i :: 0 <= i < |Parts(path)| ==> Parts(path)[i] !in {"", ".", ".."}
  }

  lemma RelativeExactly(path: string)
    ensures Relative(path) <==> ValidPath(path)
  {
    var parts := Parts(path);
    assert forall i :: 0 <= i < |parts| ==> parts[i] in parts;
    assert forall x :: x in path <==> exists i :: 0 <= i < |path| && path[i] == x;
    assert forall x: char :: x in "*?[]" <==> x in {'*', '?', '[', ']'};
    if path != "" && path[0] == '/' {
      assert parts == Text.Prefixed(path[0], Text.Split(path[1..], '/'), '/');
      assert parts[0] == "";
    }
  }

  // A document path stays out of the directories of tools.
  predicate Documents(path: string) {
    Relative(path) && forall i :: 0 <= i < |Parts(path)| ==> Parts(path)[i] !in {".git", ".github", ".wcode"}
  }

  ghost predicate Markdown(path: string) {
    Documents(path) && exists stem :: path == stem + ".md"
  }

  lemma MarkdownExactly(path: string)
    ensures Documents(path) <==> SafeDocumentScope(path)
    ensures Markdown(path) <==> PureMarkdown(path)
  {
    RelativeExactly(path);
    var parts := Parts(path);
    assert forall i :: 0 <= i < |parts| ==> parts[i] in parts;
    if |path| >= 3 && path[|path| - 3..] == ".md" {
      assert path == path[..|path| - 3] + ".md";
    }
  }

  // The same but for the case of letters.
  predicate SameName(a: string, b: string) {
    |a| == |b| && forall i :: 0 <= i < |a| ==>
      || a[i] == b[i]
      || ('A' <= a[i] <= 'Z' && a[i] as int + 32 == b[i] as int)
      || ('A' <= b[i] <= 'Z' && b[i] as int + 32 == a[i] as int)
  }

  const INSTRUCTIONS: seq<string> := ["AGENTS.md", "CLAUDE.md", "SKILL.md"]

  // A file that instructs agents, in whatever case its name is written.
  predicate Instructs(path: string) {
    var name := Parts(path)[|Parts(path)| - 1];
    exists i :: 0 <= i < 3 && SameName(name, INSTRUCTIONS[i])
  }

  lemma SameNameExactly(a: string, b: string)
    ensures SameName(a, b) <==> Scopes.Lower(a) == Scopes.Lower(b)
  {
    if |a| == |b| {
      forall i | 0 <= i < |a|
        ensures Scopes.Lower(a)[i] == Scopes.Lower(b)[i] <==>
                  || a[i] == b[i]
                  || ('A' <= a[i] <= 'Z' && a[i] as int + 32 == b[i] as int)
                  || ('A' <= b[i] <= 'Z' && b[i] as int + 32 == a[i] as int)
      {
      }
    }
  }

  lemma InstructsExactly(path: string)
    ensures Instructs(path) <==> InstructionMarkdown(path)
  {
    var name := Parts(path)[|Parts(path)| - 1];
    forall i | 0 <= i < 3
      ensures SameName(name, INSTRUCTIONS[i]) <==> Scopes.Lower(name) == Scopes.Lower(INSTRUCTIONS[i])
    {
      SameNameExactly(name, INSTRUCTIONS[i]);
    }
    assert Scopes.Lower("AGENTS.md") == "agents.md" && Scopes.Lower("CLAUDE.md") == "claude.md";
    assert Scopes.Lower("SKILL.md") == "skill.md";
    assert INSTRUCTIONS[0] == "AGENTS.md" && INSTRUCTIONS[1] == "CLAUDE.md" && INSTRUCTIONS[2] == "SKILL.md";
  }

  // ---- What a change matches ------------------------------------------------------------------

  // A file is named outright; a directory holds everything behind its name and a slash.
  predicate Names(selector: Path, path: string) {
    match selector
    case File(f) => path == f
    case Directory(d) => d + "/" <= path
  }

  predicate AnyNames(selectors: seq<Path>, path: string) {
    exists i :: 0 <= i < |selectors| && Names(selectors[i], path)
  }

  lemma NamesExactly(selectors: seq<Path>, path: string)
    ensures AnyNames(selectors, path) <==> CoveredBy(selectors, path)
  {
    forall i | 0 <= i < |selectors| ensures Names(selectors[i], path) <==> selectors[i].Covers(path) {
      if selectors[i].Directory? {
        var d := selectors[i].path;
        if |path| > |d| {
          assert path[..|d| + 1] == path[..|d|] + [path[|d|]];
        }
      }
    }
  }

  // One of the ids is mapped to a path of the change.
  predicate MapsTo(ids: seq<string>, mapping: map<string, seq<string>>, paths: seq<string>) {
    exists i, j :: 0 <= i < |ids| && 0 <= j < |paths| && ids[i] in mapping && paths[j] in mapping[ids[i]]
  }

  predicate Touches(change: Change, rule: Rule, m: Mappings) {
    || (exists j :: 0 <= j < |change.paths| && AnyNames(rule.paths, change.paths[j]))
    || MapsTo(rule.components, m.components, change.paths)
    || MapsTo(rule.requirements, m.requirements, change.paths)
  }

  lemma MapsExactly(ids: seq<string>, mapping: map<string, seq<string>>, paths: seq<string>)
    ensures MapsTo(ids, mapping, paths) <==> MappedChangeMatches(ids, mapping, Elements(paths))
  {
    if MapsTo(ids, mapping, paths) {
      var i, j :| 0 <= i < |ids| && 0 <= j < |paths| && ids[i] in mapping && paths[j] in mapping[ids[i]];
      assert paths[j] in Elements(paths);
    }
    if MappedChangeMatches(ids, mapping, Elements(paths)) {
      var i :| 0 <= i < |ids| && ids[i] in mapping && exists path :: path in mapping[ids[i]] && path in Elements(paths);
      var path :| path in mapping[ids[i]] && path in Elements(paths);
      var j :| 0 <= j < |paths| && paths[j] == path;
    }
  }

  // A rule is matched exactly by a change that touches what it names, by path, component or
  // requirement.
  lemma MatchesExactly(change: Change, rule: Rule, m: Mappings)
    ensures Matches(rule, change, m) <==> Touches(change, rule, m)
  {
    forall j | 0 <= j < |change.paths|
      ensures AnyNames(rule.paths, change.paths[j]) <==> CoveredBy(rule.paths, change.paths[j])
    {
      NamesExactly(rule.paths, change.paths[j]);
    }
    MapsExactly(rule.components, m.components, change.paths);
    MapsExactly(rule.requirements, m.requirements, change.paths);
  }

  // ---- When only documents change ---------------------------------------------------------------

  // A change of Markdown inside the document scope and nothing else, known to touch nothing
  // executable and nothing but regular files; files that instruct agents are no documents.
  ghost predicate OnlyDocuments(p: Policy, change: Change) {
    && p.docsOnly.Some? && |change.paths| > 0
    && change.executable == Some(false) && change.regular == Some(true)
    && forall i :: 0 <= i < |change.paths| ==>
         && Markdown(change.paths[i]) && !Instructs(change.paths[i])
         && AnyNames(p.docsOnly.value.paths, change.paths[i])
  }

  lemma DocumentsExactly(p: Policy, change: Change)
    ensures DocsOnly(p, change) <==> OnlyDocuments(p, change)
  {
    forall i | 0 <= i < |change.paths|
      ensures Markdown(change.paths[i]) <==> PureMarkdown(change.paths[i])
      ensures Instructs(change.paths[i]) <==> InstructionMarkdown(change.paths[i])
    {
      MarkdownExactly(change.paths[i]);
      InstructsExactly(change.paths[i]);
    }
    if p.docsOnly.Some? {
      var scope := p.docsOnly.value.paths;
      forall i | 0 <= i < |change.paths|
        ensures AnyNames(scope, change.paths[i]) <==> CoveredBy(scope, change.paths[i])
      {
        NamesExactly(scope, change.paths[i]);
      }
    }
  }

  // ---- What is demanded --------------------------------------------------------------------------

  const BY_RISK: seq<Risk> := [Low, Medium, High, Critical]

  // The risk is the threshold or beyond.
  predicate Beyond(threshold: Option<Risk>, risk: Risk) {
    threshold.Some? && exists i, j :: 0 <= i <= j < 4 && BY_RISK[i] == threshold.value && BY_RISK[j] == risk
  }

  lemma BeyondExactly(threshold: Option<Risk>, risk: Risk)
    ensures Beyond(threshold, risk) <==> Reached(threshold, risk)
  {
    assert forall i :: 0 <= i < 4 ==> RiskRank(BY_RISK[i]) == i;
    assert BY_RISK[RiskRank(risk)] == risk;
    if threshold.Some? {
      assert BY_RISK[RiskRank(threshold.value)] == threshold.value;
    }
  }

  // The requirements that bear on a change: those for documents or else the baseline, those of
  // every rule it touches, and the floor.
  ghost predicate Bears(p: Policy, change: Change, m: Mappings, floor: Requirements, r: Requirements) {
    || r == floor
    || (if OnlyDocuments(p, change) then r == p.docsOnly.value.require else r == p.baseline)
    || exists i :: 0 <= i < |p.rules| && Touches(change, p.rules[i], m) && r == p.rules[i].require
  }

  lemma BearsExactly(p: Policy, change: Change, m: Mappings, floor: Requirements, r: Requirements)
    ensures Bears(p, change, m, floor, r) <==> Applies(p, change, m, floor, r)
  {
    DocumentsExactly(p, change);
    forall i | 0 <= i < |p.rules| ensures Touches(change, p.rules[i], m) <==> Matches(p.rules[i], change, m) {
      MatchesExactly(change, p.rules[i], m);
    }
    if rule :| rule in p.rules && Matches(rule, change, m) && r == rule.require {
      var i :| 0 <= i < |p.rules| && p.rules[i] == rule;
    }
  }

  // What is demanded is demanded by something that bears on the change.
  ghost predicate Grounded(d: Demand, rs: Requirements -> bool, risk: Risk) {
    && (d.level.Full? ==> exists r :: rs(r) && r.level.Full?)
    && (forall c :: c in d.checks ==> exists r :: rs(r) && c in r.checks)
    && (forall c :: c in d.stages ==> exists r :: rs(r) && c in r.stages)
    && (forall c :: c in d.reviewers ==> exists r :: rs(r) && c in r.reviewers)
    && (d.human ==> exists r :: rs(r) && (r.human || Reached(r.humanFrom, risk)))
  }

  lemma JoinGrounded(a: Demand, b: Demand, rs: Requirements -> bool, risk: Risk)
    requires Grounded(a, rs, risk) && Grounded(b, rs, risk)
    ensures Grounded(Join(a, b), rs, risk)
  {
  }

  lemma OneGrounded(r: Requirements, rs: Requirements -> bool, risk: Risk)
    requires rs(r)
    ensures Grounded(DemandOf(r, risk), rs, risk)
  {
  }

  lemma {:induction false} FoldGrounded(
    rules: seq<Rule>, change: Change, m: Mappings, risk: Risk, base: Demand, rs: Requirements -> bool)
    requires Grounded(base, rs, risk) && forall rule :: rule in rules && Matches(rule, change, m) ==> rs(rule.require)
    ensures Grounded(Fold(Matched(change, m, risk), base, rules), rs, risk)
  {
    if rules != [] {
      var (front, last) := (rules[..|rules| - 1], rules[|rules| - 1]);
      FoldGrounded(front, change, m, risk, base, rs);
      if Matches(last, change, m) {
        OneGrounded(last.require, rs, risk);
        JoinGrounded(Fold(Matched(change, m, risk), base, front), DemandOf(last.require, risk), rs, risk);
      }
    }
  }

  lemma SelectedGrounded(
    p: Policy, change: Change, m: Mappings, floor: Requirements, risk: Risk, rs: Requirements -> bool)
    requires forall r :: Applies(p, change, m, floor, r) ==> rs(r)
    ensures Grounded(Selected(p, change, m, floor, risk), rs, risk)
  {
    var base := Base(p, change);
    assert Applies(p, change, m, floor, base) && Applies(p, change, m, floor, floor);
    OneGrounded(base, rs, risk);
    OneGrounded(floor, rs, risk);
    forall rule | rule in p.rules && Matches(rule, change, m) ensures rs(rule.require) {
      assert Applies(p, change, m, floor, rule.require);
    }
    FoldGrounded(p.rules, change, m, risk, DemandOf(base, risk), rs);
    JoinGrounded(Fold(Matched(change, m, risk), DemandOf(base, risk), p.rules), DemandOf(floor, risk), rs, risk);
  }

  const STAGES: seq<Stage> := [Stage.Property, Stage.Mutation, Stage.Fuzz, Stage.RuntimeCanary]
  const ROLES: seq<Role> := [
    Role.DesignCompliance, Role.Correctness, Role.Maintainability, Role.Architecture, Role.Security,
    Role.Performance, Role.Compatibility, Role.Adversarial, Role.TestSynthesis
  ]

  predicate StageAfter(a: Stage, b: Stage) {
    exists k, l :: 0 <= k < l < 4 && STAGES[k] == a && STAGES[l] == b
  }

  predicate RoleAfter(a: Role, b: Role) {
    exists k, l :: 0 <= k < l < 9 && ROLES[k] == a && ROLES[l] == b
  }

  // Without repetition and in the order of the lists above.
  predicate StagesOrdered(list: seq<Stage>) {
    forall i, j :: 0 <= i < j < |list| ==> StageAfter(list[i], list[j])
  }

  predicate RolesOrdered(list: seq<Role>) {
    forall i, j :: 0 <= i < j < |list| ==> RoleAfter(list[i], list[j])
  }

  lemma StageAfterRank(a: Stage, b: Stage)
    requires StageBefore(a, b)
    ensures StageAfter(a, b)
  {
    assert STAGES[StageRank(a)] == a && STAGES[StageRank(b)] == b;
  }

  lemma RoleAfterRank(a: Role, b: Role)
    requires RoleBefore(a, b)
    ensures RoleAfter(a, b)
  {
    assert ROLES[RoleRank(a)] == a && ROLES[RoleRank(b)] == b;
  }

  lemma ListsInOrder(stages: seq<Stage>, roles: seq<Role>)
    requires Increasing(stages, StageBefore) && Increasing(roles, RoleBefore)
    ensures StagesOrdered(stages) && RolesOrdered(roles)
  {
    forall i, j | 0 <= i < j < |stages| ensures StageAfter(stages[i], stages[j]) {
      StageAfterRank(stages[i], stages[j]);
    }
    forall i, j | 0 <= i < j < |roles| ensures RoleAfter(roles[i], roles[j]) {
      RoleAfterRank(roles[i], roles[j]);
    }
  }

  // Each thing is demanded exactly if one of the requirements `rs` demands it.
  ghost predicate DemandsAll(r: Requirements, rs: Requirements -> bool, risk: Risk) {
    && (r.level == Full <==> exists q :: rs(q) && q.level == Full)
    && (forall c :: c in r.checks <==> exists q :: rs(q) && c in q.checks)
    && (forall c :: c in r.stages <==> exists q :: rs(q) && c in q.stages)
    && (forall c :: c in r.reviewers <==> exists q :: rs(q) && c in q.reviewers)
    && (r.human <==> exists q :: rs(q) && (q.human || Beyond(q.humanFrom, risk)))
  }

  ghost function Bearing(p: Policy, change: Change, m: Mappings, floor: Requirements): Requirements -> bool {
    q => Bears(p, change, m, floor, q)
  }

  // A selection does so, lists the rules touched and says whether only documents changed; its
  // lists are in order, and its thresholds are resolved.
  ghost predicate Demands(
    sel: Selection, p: Policy, change: Change, m: Mappings, floor: Requirements, risk: Risk)
  {
    var r := sel.requirements;
    && DemandsAll(r, Bearing(p, change, m, floor), risk)
    && r.humanFrom == None && Increasing(r.checks, Text.Less) && StagesOrdered(r.stages)
    && RolesOrdered(r.reviewers)
    && sel.policyId == p.id && sel.policyVersion == p.version && (sel.docsOnly <==> OnlyDocuments(p, change))
    && Increasing(sel.matchedRules, Text.Less)
    && forall id :: id in sel.matchedRules <==>
         exists i :: 0 <= i < |p.rules| && Touches(change, p.rules[i], m) && p.rules[i].id == id
  }

  lemma MatchedExactly(p: Policy, change: Change, m: Mappings, id: string)
    ensures id in MatchedIds(p.rules, change, m) <==>
              exists i :: 0 <= i < |p.rules| && Touches(change, p.rules[i], m) && p.rules[i].id == id
  {
    forall i | 0 <= i < |p.rules| ensures Touches(change, p.rules[i], m) <==> Matches(p.rules[i], change, m) {
      MatchesExactly(change, p.rules[i], m);
    }
    if id in MatchedIds(p.rules, change, m) {
      var rule :| rule in p.rules && Matches(rule, change, m) && rule.id == id;
      var i :| 0 <= i < |p.rules| && p.rules[i] == rule;
    }
    if i :| 0 <= i < |p.rules| && Touches(change, p.rules[i], m) && p.rules[i].id == id {
      assert p.rules[i] in p.rules;
    }
  }

  // What bears on the change is met.
  lemma BearingIsMet(p: Policy, change: Change, m: Mappings, floor: Requirements, risk: Risk, q: Requirements)
    requires Bears(p, change, m, floor, q)
    ensures AtMost(DemandOf(q, risk), Selected(p, change, m, floor, risk))
  {
    BearsExactly(p, change, m, floor, q);
    SelectedMeets(p, change, m, floor, risk);
  }

  // What grounds a demand and is met by it is what it demands.
  lemma GroundedAndMet(d: Demand, rs: Requirements -> bool, risk: Risk)
    requires Grounded(d, rs, risk) && forall q :: rs(q) ==> AtMost(DemandOf(q, risk), d)
    ensures DemandsAll(Listed(d), rs, risk)
  {
    var r := Listed(d);
    forall q: Requirements ensures Beyond(q.humanFrom, risk) <==> Reached(q.humanFrom, risk) {
      BeyondExactly(q.humanFrom, risk);
    }
    assert forall c :: c in r.checks <==> c in d.checks;
    assert forall c :: c in r.stages <==> c in d.stages;
    assert forall c :: c in r.reviewers <==> c in d.reviewers;
  }

  lemma SelectedDemandsAll(p: Policy, change: Change, m: Mappings, floor: Requirements, risk: Risk)
    ensures DemandsAll(Listed(Selected(p, change, m, floor, risk)), Bearing(p, change, m, floor), risk)
  {
    var (d, rs) := (Selected(p, change, m, floor, risk), Bearing(p, change, m, floor));
    forall q | Applies(p, change, m, floor, q) ensures rs(q) {
      BearsExactly(p, change, m, floor, q);
    }
    SelectedGrounded(p, change, m, floor, risk, rs);
    forall q | rs(q) ensures AtMost(DemandOf(q, risk), d) {
      BearingIsMet(p, change, m, floor, risk, q);
    }
    GroundedAndMet(d, rs, risk);
  }

  lemma SelectionExactly(p: Policy, change: Change, m: Mappings, floor: Requirements, risk: Risk)
    requires Outcome(p, change, m, floor, risk).Success?
    ensures Demands(Outcome(p, change, m, floor, risk).value, p, change, m, floor, risk)
  {
    var sel := Outcome(p, change, m, floor, risk).value;
    SelectedDemandsAll(p, change, m, floor, risk);
    ListsInOrder(sel.requirements.stages, sel.requirements.reviewers);
    DocumentsExactly(p, change);
    forall id ensures id in sel.matchedRules <==>
        exists i :: 0 <= i < |p.rules| && Touches(change, p.rules[i], m) && p.rules[i].id == id
    {
      MatchedExactly(p, change, m, id);
      assert id in Elements(sel.matchedRules) <==> id in sel.matchedRules;
    }
  }

  // ---- Faulty inputs ---------------------------------------------------------------------------

  predicate Selectors(paths: seq<Path>) {
    && |paths| <= 32 && (forall i :: 0 <= i < |paths| ==> Relative(paths[i].path))
    && forall i, j :: 0 <= i < j < |paths| ==> paths[i] != paths[j]
  }

  // A document scope has directories outside those of tools, or Markdown files.
  ghost predicate DocsScope(paths: seq<Path>) {
    paths != [] && forall i :: 0 <= i < |paths| ==>
      if paths[i].File? then Markdown(paths[i].path) else Documents(paths[i].path)
  }

  lemma SelectorsExactly(paths: seq<Path>)
    ensures PathErrors(paths) == If(!Selectors(paths), InvalidPaths)
  {
    forall i | 0 <= i < |paths| ensures Relative(paths[i].path) <==> ValidPath(paths[i].path) {
      RelativeExactly(paths[i].path);
    }
  }

  lemma DocsScopeExactly(docs: Docs)
    ensures DocsErrors(docs) == If(!Selectors(docs.paths), InvalidPaths) + If(!DocsScope(docs.paths), InvalidDocsScope)
                                + RequirementErrors(docs.require, true)
  {
    SelectorsExactly(docs.paths);
    forall i | 0 <= i < |docs.paths|
      ensures DocsPath(docs.paths[i]) <==>
                if docs.paths[i].File? then Markdown(docs.paths[i].path) else Documents(docs.paths[i].path)
    {
      MarkdownExactly(docs.paths[i].path);
    }
  }

  predicate BadRequirements(r: Requirements, code: Code, needChecks: bool) {
    || (code.InvalidChecks? && !Ids(r.checks))
    || (code.EmptyRequiredChecks? && needChecks && r.checks == [])
    || (code.InvalidStageOrReviewer?
        && (|r.stages| > 4 || |r.reviewers| > 9
            || (exists i, j :: 0 <= i < j < |r.stages| && r.stages[i] == r.stages[j])
            || (exists i, j :: 0 <= i < j < |r.reviewers| && r.reviewers[i] == r.reviewers[j])))
  }

  lemma BadRequirementsExactly(r: Requirements, code: Code, needChecks: bool)
    ensures code in RequirementErrors(r, needChecks) <==> BadRequirements(r, code, needChecks)
  {
    IdsExactly(r.checks);
  }

  predicate BadRule(rule: Rule, code: Code) {
    || (code.InvalidOrDuplicateRule? && !Id(rule.id))
    || (code.EmptySelector? && |rule.paths| + |rule.components| + |rule.requirements| == 0)
    || (code.InvalidPaths? && !Selectors(rule.paths))
    || (code.InvalidComponents? && !Ids(rule.components))
    || (code.InvalidRequirementIds? && !Ids(rule.requirements))
    || BadRequirements(rule.require, code, false)
  }

  lemma BadRuleExactly(rule: Rule, code: Code)
    ensures code in RuleErrors(rule) <==> BadRule(rule, code)
  {
    SelectorsExactly(rule.paths);
    IdsExactly(rule.components);
    IdsExactly(rule.requirements);
    BadRequirementsExactly(rule.require, code, false);
  }

  // An error in the rules, or between two of them.
  ghost predicate BadRules(rules: seq<Rule>, code: Code) {
    || (exists i :: 0 <= i < |rules| && BadRule(rules[i], code))
    || (code.InvalidOrDuplicateRule? && exists i, j :: 0 <= i < j < |rules| && rules[i].id == rules[j].id)
  }

  lemma BadRulesExactly(rules: seq<Rule>, code: Code)
    ensures BadRules(rules, code) <==>
              || (exists r :: r in rules && code in RuleErrors(r))
              || (code.InvalidOrDuplicateRule? && !Distinct(Image(rules, RuleId)))
  {
    forall i | 0 <= i < |rules| ensures code in RuleErrors(rules[i]) <==> BadRule(rules[i], code) {
      BadRuleExactly(rules[i], code);
    }
    assert forall i :: 0 <= i < |rules| ==> rules[i] in rules && Image(rules, RuleId)[i] == rules[i].id;
    if r :| r in rules && code in RuleErrors(r) {
      var i :| 0 <= i < |rules| && rules[i] == r;
    }
  }

  ghost predicate BadDocs(docs: Docs, code: Code) {
    || (code.InvalidPaths? && !Selectors(docs.paths))
    || (code.InvalidDocsScope? && !DocsScope(docs.paths))
    || BadRequirements(docs.require, code, true)
  }

  lemma BadDocsExactly(docs: Docs, code: Code)
    ensures BadDocs(docs, code) <==> code in DocsErrors(docs)
  {
    DocsScopeExactly(docs);
    BadRequirementsExactly(docs.require, code, true);
  }

  // The structure of a policy and the floor give exactly the errors that say what is wrong.
  ghost predicate BadStructure(p: Policy, floor: Requirements, code: Code) {
    || (code.InvalidIdentity? && (p.schemaVersion != 1 || p.version < 1 || !Id(p.id)))
    || BadRequirements(p.baseline, code, true) || BadRequirements(floor, code, false)
    || (if |p.rules| > 32 then code.RuleBound?
        else BadRules(p.rules, code) || (p.docsOnly.Some? && BadDocs(p.docsOnly.value, code)))
  }

  lemma StructureMembers(p: Policy, code: Code)
    ensures code in StructureErrors(p) <==>
              || (code == InvalidIdentity && (p.schemaVersion != 1 || p.version == 0 || !ValidId(p.id)))
              || code in RequirementErrors(p.baseline, true)
              || (if |p.rules| > 32 then code == RuleBound else
                    || (exists r :: r in p.rules && code in RuleErrors(r))
                    || (code == InvalidOrDuplicateRule && !Distinct(Image(p.rules, RuleId)))
                    || (p.docsOnly.Some? && code in DocsErrors(p.docsOnly.value)))
  {
  }

  lemma StructureExactly(p: Policy, floor: Requirements, code: Code)
    ensures BadStructure(p, floor, code) <==> code in StructureErrors(p) + RequirementErrors(floor, false)
  {
    StructureMembers(p, code);
    BadRequirementsExactly(p.baseline, code, true);
    BadRequirementsExactly(floor, code, false);
    BadRulesExactly(p.rules, code);
    if p.docsOnly.Some? {
      BadDocsExactly(p.docsOnly.value, code);
    }
  }

  // A change set is incomplete or too large, or names what is no path of the repository.
  predicate BadChange(change: Change, code: Code) {
    || (code.ChangeSetIncomplete? && (!change.complete || |change.paths| > 4096))
    || (code.InvalidChangePath? && |change.paths| <= 4096
        && exists i :: 0 <= i < |change.paths| && !Relative(change.paths[i]))
  }

  // What an id a rule names has to be mapped to: a few proper paths.
  predicate MapsWell(mapping: map<string, seq<string>>, id: string) {
    && id in mapping && 1 <= |mapping[id]| <= 4096
    && forall j :: 0 <= j < |mapping[id]| ==> Relative(mapping[id][j])
  }

  predicate BadMapping(ids: seq<string>, mapping: map<string, seq<string>>, complete: bool, code: Code) {
    && ids != []
    && if !complete then code.MappingIncomplete?
       else code.MappingUnavailable? && exists i :: 0 <= i < |ids| && !MapsWell(mapping, ids[i])
  }

  lemma ChangeExactly(change: Change, code: Code)
    ensures BadChange(change, code) <==> code in ChangeErrors(change)
  {
    forall i | 0 <= i < |change.paths| ensures Relative(change.paths[i]) <==> ValidPath(change.paths[i]) {
      RelativeExactly(change.paths[i]);
    }
  }

  lemma MapsWellExactly(mapping: map<string, seq<string>>, id: string)
    ensures MapsWell(mapping, id) <==> Mapped(mapping, id)
  {
    if id in mapping {
      forall j | 0 <= j < |mapping[id]| ensures Relative(mapping[id][j]) <==> ValidPath(mapping[id][j]) {
        RelativeExactly(mapping[id][j]);
      }
    }
  }

  lemma MappingExactly(ids: seq<string>, mapping: map<string, seq<string>>, complete: bool, code: Code)
    ensures BadMapping(ids, mapping, complete, code) <==> code in MappingErrors(ids, mapping, complete)
  {
    forall i | 0 <= i < |ids| ensures MapsWell(mapping, ids[i]) <==> Mapped(mapping, ids[i]) {
      MapsWellExactly(mapping, ids[i]);
    }
  }

  predicate BadMappings(rule: Rule, m: Mappings, code: Code) {
    || BadMapping(rule.components, m.components, m.complete, code)
    || BadMapping(rule.requirements, m.requirements, m.complete, code)
  }

  lemma MappingsExactly(rule: Rule, m: Mappings, code: Code)
    ensures BadMappings(rule, m, code) <==> code in RuleMappingErrors(rule, m)
  {
    MappingExactly(rule.components, m.components, m.complete, code);
    MappingExactly(rule.requirements, m.requirements, m.complete, code);
  }

  // How many paths ids are mapped to: those of each id, counted for each time it is listed.
  lemma {:induction false} PathsAddUp(a: seq<string>, b: seq<string>, id: string, mapping: map<string, seq<string>>)
    ensures MappedPaths([], mapping) == 0
    ensures MappedPaths([id], mapping) == if id in mapping then |mapping[id]| else 0
    ensures MappedPaths(a + b, mapping) == MappedPaths(a, mapping) + MappedPaths(b, mapping)
  {
    assert [id][..0] == [];
    if b == [] {
      assert a + b == a;
    } else {
      var front := b[..|b| - 1];
      assert (a + b)[..|a + b| - 1] == a + front;
      PathsAddUp(a, front, id, mapping);
    }
  }

  // The ids that rules name, each once.
  predicate NamesComponent(rules: seq<Rule>, id: string) {
    exists i :: 0 <= i < |rules| && id in rules[i].components
  }

  predicate NamesRequirement(rules: seq<Rule>, id: string) {
    exists i :: 0 <= i < |rules| && id in rules[i].requirements
  }

  lemma NamedIds(rules: seq<Rule>, id: string)
    ensures id in SortedIds(ComponentIds(rules)) <==> NamesComponent(rules, id)
    ensures id in SortedIds(RequirementIds(rules)) <==> NamesRequirement(rules, id)
  {
    assert forall i :: 0 <= i < |rules| ==> rules[i] in rules;
    assert id in SortedIds(ComponentIds(rules)) <==> id in Elements(SortedIds(ComponentIds(rules)));
    assert id in SortedIds(RequirementIds(rules)) <==> id in Elements(SortedIds(RequirementIds(rules)));
    if id in ComponentIds(rules) {
      var r :| r in rules && id in r.components;
      var i :| 0 <= i < |rules| && rules[i] == r;
    }
    if id in RequirementIds(rules) {
      var r :| r in rules && id in r.requirements;
      var i :| 0 <= i < |rules| && rules[i] == r;
    }
  }

  // The first stage that finds something wrong reports all it finds.
  ghost predicate Staged(structure: Code -> bool, change: Code -> bool, full: bool, mapping: Code -> bool, code: Code) {
    if exists c :: structure(c) then structure(code)
    else if exists c :: change(c) then change(code)
    else if full then code.MappingBound?
    else mapping(code)
  }

  predicate TooManyPaths(p: Policy, m: Mappings) {
    MappedPaths(SortedIds(ComponentIds(p.rules)), m.components)
    + MappedPaths(SortedIds(RequirementIds(p.rules)), m.requirements) > 4096
  }

  // The errors of a selection, stage by stage.
  ghost predicate Reports(p: Policy, change: Change, m: Mappings, floor: Requirements, code: Code) {
    Staged(c => BadStructure(p, floor, c), c => BadChange(change, c), TooManyPaths(p, m),
           c => exists i :: 0 <= i < |p.rules| && BadMappings(p.rules[i], m, c), code)
  }

  lemma StagedSets(structure: set<Code>, change: set<Code>, full: bool, mapping: set<Code>,
                   s: Code -> bool, c: Code -> bool, m: Code -> bool, code: Code)
    requires forall x :: s(x) <==> x in structure
    requires forall x :: c(x) <==> x in change
    requires forall x :: m(x) <==> x in mapping
    ensures var errors := if structure != {} then structure else if change != {} then change
                          else if full then {MappingBound} else mapping;
            Staged(s, c, full, m, code) <==> code in errors
  {
  }

  lemma RuleMappings(p: Policy, m: Mappings, code: Code)
    ensures (exists i :: 0 <= i < |p.rules| && BadMappings(p.rules[i], m, code)) <==>
              code in set r, c | r in p.rules && c in RuleMappingErrors(r, m) :: c
  {
    forall i | 0 <= i < |p.rules|
      ensures BadMappings(p.rules[i], m, code) <==> code in RuleMappingErrors(p.rules[i], m)
    {
      MappingsExactly(p.rules[i], m, code);
    }
    assert forall i :: 0 <= i < |p.rules| ==> p.rules[i] in p.rules;
    if r :| r in p.rules && code in RuleMappingErrors(r, m) {
      var i :| 0 <= i < |p.rules| && p.rules[i] == r;
    }
  }

  lemma InputsExactly(p: Policy, change: Change, m: Mappings, floor: Requirements, code: Code)
    ensures Reports(p, change, m, floor, code) <==> code in InputErrors(p, change, m, floor)
  {
    var (s, c) := ((x: Code) => BadStructure(p, floor, x), (x: Code) => BadChange(change, x));
    var mapping := set r, c | r in p.rules && c in RuleMappingErrors(r, m) :: c;
    forall x ensures s(x) <==> x in StructureErrors(p) + RequirementErrors(floor, false) {
      StructureExactly(p, floor, x);
    }
    forall x ensures c(x) <==> x in ChangeErrors(change) {
      ChangeExactly(change, x);
    }
    var f := (x: Code) => exists i :: 0 <= i < |p.rules| && BadMappings(p.rules[i], m, x);
    forall x ensures f(x) <==> x in mapping {
      RuleMappings(p, m, x);
    }
    StagedSets(StructureErrors(p) + RequirementErrors(floor, false), ChangeErrors(change), TooManyPaths(p, m), mapping,
               s, c, f, code);
  }
}
