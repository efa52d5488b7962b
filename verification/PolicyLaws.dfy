// What a selection means: it is the least demand that meets the baseline, every matched rule
// and the risk floor, however the rules are ordered, and more rules or more risk never
// lessen it.
module PolicyLaws {
  import opened Wrappers
  import opened Sorting
  import opened Folding
  import opened Policy
  import Scopes
  import Text

  // A directory covers exactly what lies below it.
  lemma DirectoryCoversBelow(path: string, candidate: string)
    ensures Directory(path).Covers(candidate) <==> Text.Split(path, '/') < Text.Split(candidate, '/')
  {
    Scopes.ExactContainment(path, candidate);
    assert Directory(path).Covers(candidate) <==> Scopes.ScopeContains(path, candidate, false) && path != candidate;
    Text.JoinSplit(path, '/');
    Text.JoinSplit(candidate, '/');
  }

  // ---- Least upper bound --------------------------------------------------------------

  lemma JoinIsLeast(a: Demand, b: Demand, u: Demand)
    ensures AtMost(a, Join(a, b)) && AtMost(b, Join(a, b))
    ensures AtMost(a, u) && AtMost(b, u) ==> AtMost(Join(a, b), u)
  {
  }

  lemma AtMostTransitive(a: Demand, b: Demand, c: Demand)
    requires AtMost(a, b) && AtMost(b, c)
    ensures AtMost(a, c)
  {
  }

  // The requirements that bear on a change.
  predicate Applies(p: Policy, change: Change, m: Mappings, floor: Requirements, r: Requirements) {
    r == Base(p, change) || r == floor
    || exists rule :: rule in p.rules && Matches(rule, change, m) && r == rule.require
  }

  ghost predicate Meets(u: Demand, p: Policy, change: Change, m: Mappings, floor: Requirements, risk: Risk) {
    forall r :: Applies(p, change, m, floor, r) ==> AtMost(DemandOf(r, risk), u)
  }

  lemma {:induction false} FoldIsUpper(rules: seq<Rule>, change: Change, m: Mappings, risk: Risk, base: Demand)
    ensures var d := Fold(Matched(change, m, risk), base, rules);
      AtMost(base, d)
      && forall rule :: rule in rules && Matches(rule, change, m) ==> AtMost(DemandOf(rule.require, risk), d)
  {
    if rules != [] {
      var (front, last) := (rules[..|rules| - 1], rules[|rules| - 1]);
      FoldIsUpper(front, change, m, risk, base);
      var (d, e) := (Fold(Matched(change, m, risk), base, front), Fold(Matched(change, m, risk), base, rules));
      JoinIsLeast(d, DemandOf(last.require, risk), e);
      assert AtMost(d, e);
      forall rule | rule in rules && Matches(rule, change, m) ensures AtMost(DemandOf(rule.require, risk), e) {
        if rule in front {
          AtMostTransitive(DemandOf(rule.require, risk), d, e);
        } else {
          assert rule == last;
        }
      }
    }
  }

  lemma {:induction false} FoldIsLeast(
    rules: seq<Rule>, change: Change, m: Mappings, risk: Risk, base: Demand, u: Demand)
    requires AtMost(base, u)
    requires forall rule :: rule in rules && Matches(rule, change, m) ==> AtMost(DemandOf(rule.require, risk), u)
    ensures AtMost(Fold(Matched(change, m, risk), base, rules), u)
  {
    if rules != [] {
      var (front, last) := (rules[..|rules| - 1], rules[|rules| - 1]);
      FoldIsLeast(front, change, m, risk, base, u);
      JoinIsLeast(Fold(Matched(change, m, risk), base, front), DemandOf(last.require, risk), u);
    }
  }

  lemma SelectedMeets(p: Policy, change: Change, m: Mappings, floor: Requirements, risk: Risk)
    ensures Meets(Selected(p, change, m, floor, risk), p, change, m, floor, risk)
  {
    var base := DemandOf(Base(p, change), risk);
    var folded := Fold(Matched(change, m, risk), base, p.rules);
    var d := Selected(p, change, m, floor, risk);
    FoldIsUpper(p.rules, change, m, risk, base);
    JoinIsLeast(folded, DemandOf(floor, risk), d);
    forall r | Applies(p, change, m, floor, r) ensures AtMost(DemandOf(r, risk), d) {
      if r != floor {
        AtMostTransitive(DemandOf(r, risk), folded, d);
      }
    }
  }

  lemma SelectedIsLeast(p: Policy, change: Change, m: Mappings, floor: Requirements, risk: Risk, u: Demand)
    requires Meets(u, p, change, m, floor, risk)
    ensures AtMost(Selected(p, change, m, floor, risk), u)
  {
    var base := DemandOf(Base(p, change), risk);
    assert Applies(p, change, m, floor, Base(p, change)) && Applies(p, change, m, floor, floor);
    forall rule | rule in p.rules && Matches(rule, change, m) ensures AtMost(DemandOf(rule.require, risk), u) {
      assert Applies(p, change, m, floor, rule.require);
    }
    FoldIsLeast(p.rules, change, m, risk, base, u);
    JoinIsLeast(Fold(Matched(change, m, risk), base, p.rules), DemandOf(floor, risk), u);
  }

  // The requirements of a successful selection demand, at whatever risk they are read later,
  // the least upper bound of all that applies; they are sorted, free of repetition and name
  // no threshold any more.
  lemma SelectionIsLeastUpperBound(
    p: Policy, change: Change, m: Mappings, floor: Requirements, risk: Risk, later: Risk, u: Demand)
    requires Outcome(p, change, m, floor, risk).Success?
    ensures var r := Outcome(p, change, m, floor, risk).value.requirements;
      && Meets(DemandOf(r, later), p, change, m, floor, risk)
      && (Meets(u, p, change, m, floor, risk) ==> AtMost(DemandOf(r, later), u))
      && r.humanFrom.None? && r.checks != [] && |r.checks| <= 32
      && Increasing(r.checks, Text.Less) && Increasing(r.stages, StageBefore) && Increasing(r.reviewers, RoleBefore)
  {
    var r := Outcome(p, change, m, floor, risk).value.requirements;
    var d := Selected(p, change, m, floor, risk);
    assert DemandOf(r, later) == d;
    SelectedMeets(p, change, m, floor, risk);
    if Meets(u, p, change, m, floor, risk) {
      SelectedIsLeast(p, change, m, floor, risk, u);
    }
    BaseInOrder(p, change);
    CheckedIds(Base(p, change), true);
    assert Applies(p, change, m, floor, Base(p, change));
  }

  // ---- Order of the rules -----------------------------------------------------------------

  lemma RulesCommute(change: Change, m: Mappings, risk: Risk, x: Rule, y: Rule)
    ensures Commute(Matched(change, m, risk), x, y)
  {
    var step := Matched(change, m, risk);
    forall d ensures step(step(d, x), y) == step(step(d, y), x) {
      var (a, b) := (DemandOf(x.require, risk), DemandOf(y.require, risk));
      assert Join(Join(d, a), b) == Join(Join(d, b), a);
    }
  }

  lemma RuleOrderOfDemand(a: seq<Rule>, b: seq<Rule>, change: Change, m: Mappings, risk: Risk, base: Demand)
    requires multiset(a) == multiset(b)
    ensures Fold(Matched(change, m, risk), base, a) == Fold(Matched(change, m, risk), base, b)
  {
    forall x: Rule, y: Rule ensures Commute(Matched(change, m, risk), x, y) {
      RulesCommute(change, m, risk, x, y);
    }
    FoldPermutation(Matched(change, m, risk), base, (rule: Rule) => 0, a, b);
  }

  lemma SameRules(a: seq<Rule>, b: seq<Rule>)
    requires multiset(a) == multiset(b)
    ensures |a| == |b| && forall rule :: rule in a <==> rule in b
    ensures Distinct(Image(a, RuleId)) <==> Distinct(Image(b, RuleId))
  {
    assert |multiset(a)| == |multiset(b)|;
    forall rule ensures rule in a <==> rule in b {
      assert rule in a <==> rule in multiset(a);
      assert rule in b <==> rule in multiset(b);
    }
    ImagePermutation(a, b, RuleId);
    var (x, y) := (Image(a, RuleId), Image(b, RuleId));
    DistinctSize(x);
    DistinctSize(y);
    forall id ensures id in x <==> id in y {
      assert id in x <==> id in multiset(x);
      assert id in y <==> id in multiset(y);
    }
    assert Elements(x) == Elements(y);
  }

  lemma RuleOrderOfErrors(p: Policy, q: Policy, change: Change, m: Mappings, floor: Requirements)
    requires q == p.(rules := q.rules) && multiset(p.rules) == multiset(q.rules)
    ensures InputErrors(p, change, m, floor) == InputErrors(q, change, m, floor)
  {
    SameRules(p.rules, q.rules);
    assert (set r, c | r in p.rules && c in RuleErrors(r) :: c) == (set r, c | r in q.rules && c in RuleErrors(r) :: c);
    assert StructureErrors(p) == StructureErrors(q);
    assert ComponentIds(p.rules) == ComponentIds(q.rules) && RequirementIds(p.rules) == RequirementIds(q.rules);
    assert (set r, c | r in p.rules && c in RuleMappingErrors(r, m) :: c)
        == (set r, c | r in q.rules && c in RuleMappingErrors(r, m) :: c);
  }

  lemma RuleOrderOfSelected(p: Policy, q: Policy, change: Change, m: Mappings, floor: Requirements, risk: Risk)
    requires q == p.(rules := q.rules) && multiset(p.rules) == multiset(q.rules)
    ensures Selected(p, change, m, floor, risk) == Selected(q, change, m, floor, risk)
  {
    RuleOrderOfDemand(p.rules, q.rules, change, m, risk, DemandOf(Base(p, change), risk));
  }

  lemma RuleOrderOfMatches(a: seq<Rule>, b: seq<Rule>, change: Change, m: Mappings)
    requires multiset(a) == multiset(b)
    ensures MatchedIds(a, change, m) == MatchedIds(b, change, m)
  {
    SameRules(a, b);
  }

  // Reordering the rules changes nothing: same errors, same selection.
  lemma RuleOrderIsIrrelevant(p: Policy, q: Policy, change: Change, m: Mappings, floor: Requirements, risk: Risk)
    requires q == p.(rules := q.rules) && multiset(p.rules) == multiset(q.rules)
    ensures Outcome(p, change, m, floor, risk) == Outcome(q, change, m, floor, risk)
  {
    RuleOrderOfErrors(p, q, change, m, floor);
    RuleOrderOfSelected(p, q, change, m, floor, risk);
    RuleOrderOfMatches(p.rules, q.rules, change, m);
    assert DocsOnly(p, change) == DocsOnly(q, change);
  }

  // ---- Monotonicity -------------------------------------------------------------------

  lemma DemandGrowsWithRisk(r: Requirements, low: Risk, high: Risk)
    requires RiskRank(low) <= RiskRank(high)
    ensures AtMost(DemandOf(r, low), DemandOf(r, high))
  {
  }

  lemma AppliesToMore(p: Policy, q: Policy, change: Change, m: Mappings, floor: Requirements, floor': Requirements,
                      r: Requirements)
    requires q == p.(rules := q.rules) && (forall rule :: rule in p.rules ==> rule in q.rules)
    requires Applies(p, change, m, floor, r)
    ensures r == floor || Applies(q, change, m, floor', r)
  {
  }

  // More rules, a higher floor or a higher risk never weaken what is selected.
  lemma SelectedNeverWeakens(
    p: Policy, q: Policy, change: Change, m: Mappings, floor: Requirements, floor': Requirements,
    risk: Risk, risk': Risk)
    requires q == p.(rules := q.rules) && (forall rule :: rule in p.rules ==> rule in q.rules)
    requires RiskRank(risk) <= RiskRank(risk') && AtMost(DemandOf(floor, risk'), DemandOf(floor', risk'))
    ensures AtMost(Selected(p, change, m, floor, risk), Selected(q, change, m, floor', risk'))
  {
    ghost var d := Selected(q, change, m, floor', risk');
    SelectedMeets(q, change, m, floor', risk');
    assert Applies(q, change, m, floor', floor');
    forall r | Applies(p, change, m, floor, r) ensures AtMost(DemandOf(r, risk), d) {
      AppliesToMore(p, q, change, m, floor, floor', r);
      DemandGrowsWithRisk(r, risk, risk');
      AtMostTransitive(DemandOf(r, risk), DemandOf(r, risk'), if r == floor then DemandOf(floor', risk') else d);
      AtMostTransitive(DemandOf(r, risk), if r == floor then DemandOf(floor', risk') else d, d);
    }
    SelectedIsLeast(p, change, m, floor, risk, d);
  }

  lemma OutcomeDemands(p: Policy, change: Change, m: Mappings, floor: Requirements, risk: Risk, later: Risk)
    requires Outcome(p, change, m, floor, risk).Success?
    ensures DemandOf(Outcome(p, change, m, floor, risk).value.requirements, later) ==
              Selected(p, change, m, floor, risk)
  {
  }

  lemma SelectionNeverWeakens(
    p: Policy, q: Policy, change: Change, m: Mappings, floor: Requirements, floor': Requirements,
    risk: Risk, risk': Risk)
    requires q == p.(rules := q.rules) && (forall rule :: rule in p.rules ==> rule in q.rules)
    requires RiskRank(risk) <= RiskRank(risk') && AtMost(DemandOf(floor, risk'), DemandOf(floor', risk'))
    requires Outcome(p, change, m, floor, risk).Success? && Outcome(q, change, m, floor', risk').Success?
    ensures AtMost(DemandOf(Outcome(p, change, m, floor, risk).value.requirements, risk),
                   DemandOf(Outcome(q, change, m, floor', risk').value.requirements, risk'))
  {
    SelectedNeverWeakens(p, q, change, m, floor, floor', risk, risk');
    OutcomeDemands(p, change, m, floor, risk, risk);
    OutcomeDemands(q, change, m, floor', risk', risk');
  }
}
