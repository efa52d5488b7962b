// The holdout in plain numbers: what the baseline has counted, and what one more anchor and
// one more record add to the counters.
module HoldoutFields {
  import opened Wrappers
  import opened Sorting
  import opened Folding
  import opened Cochange
  import opened CochangeLaws
  import opened Holdout

  // The holdout asks for no intent, so every trajectory counts alike.
  lemma NoIntentAsked(e: Example)
    ensures LessonOf(e) == Lesson(e.timestamp, e.paths, e.context, e.level, 0.60, e.originalCount)
  {
  }

  // ---- The baseline ---------------------------------------------------------------------------

  predicate Together(e: Example, a: string, c: string) {
    a != c && a in e.paths && c in e.paths
  }

  function CountGain(e: Example, a: string, c: string): nat {
    if !Together(e, a, c) then 0 else if e.level == "full" then 3 else 1
  }

  function PairCount(history: seq<Example>, a: string, c: string): nat {
    if history == [] then 0
    else PairCount(history[..|history| - 1], a, c) + CountGain(history[|history| - 1], a, c)
  }

  lemma CountedRow(rows: Counts, e: Example, a: string, c: string)
    ensures var (row, after) := (CountRow(rows, a), CountRow(CountLearned(rows, e.paths, e.level), a));
      && (c in after <==> c in row || Together(e, a, c))
      && CountOf(after, c) ==
           (if Together(e, a, c) then Saturating(CountOf(row, c), CountGain(e, a, c)) else CountOf(row, c))
  {
    if Together(e, a, c) {
      TwoMembers(e.paths, a, c);
    }
  }

  // The baseline knows the pairs that ever changed together, each with the sum of its counts,
  // which stays at the largest 32-bit number once it is there.
  lemma {:induction false} CountsAreSums(history: seq<Example>, a: string, c: string)
    ensures var (row, sum) := (CountRow(Baseline(history), a), PairCount(history, a, c));
      && (c in row <==> exists i :: 0 <= i < |history| && Together(history[i], a, c))
      && CountOf(row, c) == if sum <= 0xffff_ffff then sum else 0xffff_ffff
  {
    if history != [] {
      var (front, e) := (history[..|history| - 1], history[|history| - 1]);
      CountsAreSums(front, a, c);
      CountedRow(Baseline(front), e, a, c);
      assert forall i :: 0 <= i < |front| ==> history[i] == front[i];
    }
  }

  // ---- One anchor -------------------------------------------------------------------------------

  // The places in a ranking that hold another path of the record.
  function HitPlaces(ranked: seq<string>, anchor: string, expected: seq<string>): set<nat> {
    set k: nat | k < |ranked| && ranked[k] != anchor && ranked[k] in expected
  }

  lemma {:induction false} HitsAreCounted(ranked: seq<string>, anchor: string, expected: seq<string>)
    ensures Hits(ranked, anchor, expected) == |HitPlaces(ranked, anchor, expected)|
  {
    if ranked != [] {
      var (front, n) := (ranked[..|ranked| - 1], |ranked| - 1);
      HitsAreCounted(front, anchor, expected);
      var before := HitPlaces(front, anchor, expected);
      assert HitPlaces(ranked, anchor, expected) ==
        if ranked[n] != anchor && ranked[n] in expected then before + {n} else before;
    }
  }

  // The first five of a ranking, or all there are.
  predicate FirstFive(ranked: seq<Scored>, top: seq<string>) {
    && |top| <= 5 && |top| <= |ranked| && (|top| == 5 || |top| == |ranked|)
    && forall i :: 0 <= i < |top| ==> top[i] == ranked[i].path
  }

  lemma TopIsFirstFive(ranked: seq<Scored>)
    ensures FirstFive(ranked, TopPaths(ranked))
  {
  }

  // One ranking more is one more prediction if it holds anything, with as many hits as it
  // has places holding another path of the record.
  predicate OneMore(before: Counters, after: Counters, ranked: seq<string>, anchor: string, paths: seq<string>) {
    var hits := HitPlaces(ranked, anchor, paths);
    && after.recordsWithPrediction == before.recordsWithPrediction
    && after.predictionCases == before.predictionCases + (if ranked == [] then 0 else 1)
    && after.hitCases == before.hitCases + (if hits == {} then 0 else 1)
    && after.predictions == before.predictions + |ranked|
    && after.truePositives == before.truePositives + |hits|
  }

  lemma CaseIsOneMore(before: Counters, ranked: seq<string>, anchor: string, paths: seq<string>)
    ensures OneMore(before, Sum(before, Case(ranked, anchor, paths)), ranked, anchor, paths)
  {
    HitsAreCounted(ranked, anchor, paths);
  }

  lemma NextAnchor(m: Scaled, rows: Counts, anchors: seq<string>, anchor: string, paths: seq<string>)
    requires paths != []
    ensures AnchorTally(m, rows, [], paths) == Zero()
    ensures var (t, u) := (AnchorTally(m, rows, anchors, paths), AnchorTally(m, rows, anchors + [anchor], paths));
      && u.evaluable == t.evaluable && u.cases == t.cases + 1 && u.expected == t.expected + (|paths| - 1)
      && OneMore(t.candidate, u.candidate, TopPaths(RankedScores(m, [anchor])), anchor, paths)
      && OneMore(t.baseline, u.baseline, TopPaths(CountRanked(rows, anchor)), anchor, paths)
  {
    var t := AnchorTally(m, rows, anchors, paths);
    assert (anchors + [anchor])[..|anchors|] == anchors;
    CaseIsOneMore(t.candidate, TopPaths(RankedScores(m, [anchor])), anchor, paths);
    CaseIsOneMore(t.baseline, TopPaths(CountRanked(rows, anchor)), anchor, paths);
  }

  // ---- One record ---------------------------------------------------------------------------------

  // A record with two or more paths left is evaluated with each of them as an anchor, and
  // predicted if any ranking held anything.
  lemma RecordFields(m: Scaled, rows: Counts, paths: seq<string>)
    ensures var t := RecordTally(m, rows, paths);
      if |paths| < 2 then t == Zero() else
        var u := AnchorTally(m, rows, paths, paths);
        && t.evaluable == 1 && t.cases == |paths| && t.expected == |paths| * (|paths| - 1)
        && Rated(u.candidate, t.candidate) && Rated(u.baseline, t.baseline)
  {
    if |paths| >= 2 {
      CasesAndTargets(m, rows, paths, paths);
      TimesIsProduct(|paths|, |paths| - 1);
    }
  }

  predicate Rated(cases: Counters, record: Counters) {
    && record.recordsWithPrediction == (if cases.predictionCases > 0 then 1 else 0)
    && record.predictionCases == cases.predictionCases && record.hitCases == cases.hitCases
    && record.predictions == cases.predictions && record.truePositives == cases.truePositives
  }

  lemma NextCase(m: Scaled, rows: Counts, anchors: seq<string>, paths: seq<string>)
    requires paths != [] && anchors != []
    ensures var (t, u) := (AnchorTally(m, rows, anchors[..|anchors| - 1], paths), AnchorTally(m, rows, anchors, paths));
      u.evaluable == t.evaluable && u.cases == t.cases + 1 && u.expected == t.expected + (|paths| - 1)
  {
  }

  lemma {:induction false} CasesAndTargets(m: Scaled, rows: Counts, anchors: seq<string>, paths: seq<string>)
    requires paths != []
    ensures var t := AnchorTally(m, rows, anchors, paths);
      t.evaluable == 0 && t.cases == |anchors| && t.expected == Times(|anchors|, |paths| - 1)
  {
    if anchors != [] {
      CasesAndTargets(m, rows, anchors[..|anchors| - 1], paths);
      NextCase(m, rows, anchors, paths);
    }
  }

  function Times(n: nat, x: nat): nat {
    if n == 0 then 0 else Times(n - 1, x) + x
  }

  lemma {:induction false} TimesIsProduct(n: nat, x: nat)
    ensures Times(n, x) == n * x
  {
    if n > 0 {
      TimesIsProduct(n - 1, x);
    }
  }

  // ---- All records --------------------------------------------------------------------------------

  predicate Added(before: Counters, one: Counters, after: Counters) {
    && after.recordsWithPrediction == before.recordsWithPrediction + one.recordsWithPrediction
    && after.predictionCases == before.predictionCases + one.predictionCases
    && after.hitCases == before.hitCases + one.hitCases
    && after.predictions == before.predictions + one.predictions
    && after.truePositives == before.truePositives + one.truePositives
  }

  // Every counter of the evaluation is the sum of those of its records.
  lemma NextRecord(score: Example -> Tally, records: seq<Example>, e: Example)
    ensures Total(score, []) == Zero() == Tally(0, 0, 0, Counters(0, 0, 0, 0, 0), Counters(0, 0, 0, 0, 0))
    ensures var (t, u, one) := (Total(score, records), Total(score, records + [e]), score(e));
      && u.evaluable == t.evaluable + one.evaluable && u.cases == t.cases + one.cases
      && u.expected == t.expected + one.expected
      && Added(t.candidate, one.candidate, u.candidate) && Added(t.baseline, one.baseline, u.baseline)
  {
    LastStep(AddStep(score), Zero(), records, e);
  }
}
