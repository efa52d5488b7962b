// The temporal holdout: every record is predicted from strictly earlier history only.
module Holdout {
  import opened Wrappers
  import opened Sorting
  import opened Folding
  import opened Cochange
  import opened CochangeLaws

  const TOP_K := 5
  const MAX_COUNT := 0xffff_ffff

  // A stored record with its live paths; `originalCount` is the unfiltered length.
  datatype Example = Example(
    timestamp: nat, paths: seq<string>, context: seq<string>, level: string, intent: Option<string>, originalCount: nat)
  {
    predicate Normalised() {
      Distinct(paths) && Distinct(context)
    }
  }

  function LessonOf(e: Example): (l: Lesson)
    ensures l.factor <= 1.35
  {
    Lesson(e.timestamp, e.paths, e.context, e.level, IntentFactor(e.intent, None), e.originalCount)
  }

  // ---- The raw count baseline ----------------------------------------------

  type Counts = map<string, map<string, nat>>

  function CountRow(rows: Counts, anchor: string): map<string, nat> {
    if anchor in rows then rows[anchor] else map[]
  }

  function Saturating(x: nat, y: nat): nat {
    if x + y <= MAX_COUNT then x + y else MAX_COUNT
  }

  function CountOf(row: map<string, nat>, c: string): nat {
    if c in row then row[c] else 0
  }

  function Counted(row: map<string, nat>, targets: set<string>, weight: nat): map<string, nat> {
    map c | c in row.Keys + targets :: if c in targets then Saturating(CountOf(row, c), weight) else row[c]
  }

  function CountWeight(level: string): nat {
    if level == "full" then 3 else 1
  }

  function CountLearned(rows: Counts, paths: seq<string>, level: string): Counts {
    if |paths| < 2 then rows else CountedRows(rows, Elements(paths), Elements(paths), CountWeight(level))
  }

  function CountedRows(rows: Counts, anchors: set<string>, targets: set<string>, weight: nat): Counts {
    map a | a in rows.Keys + anchors :: Counted(CountRow(rows, a), if a in anchors then targets - {a} else {}, weight)
  }

  function TopPaths(ranked: seq<Scored>): (paths: seq<string>)
    ensures |paths| == if |ranked| < TOP_K then |ranked| else TOP_K
    ensures forall i :: 0 <= i < |paths| ==> paths[i] == ranked[i].path
  {
    seq(if |ranked| < TOP_K then |ranked| else TOP_K, i requires 0 <= i < |ranked| => ranked[i].path)
  }

  function CountRanked(rows: Counts, anchor: string): (ranked: seq<Scored>)
    ensures Increasing(ranked, Better)
    ensures Elements(ranked) == set c | c in CountRow(rows, anchor) :: Scored(c, CountRow(rows, anchor)[c])
  {
    BetterIsStrictTotal();
    Ascending(set c | c in CountRow(rows, anchor) :: Scored(c, CountRow(rows, anchor)[c]), Better)
  }

  class RawCountModel {
    var cochange: Counts

    constructor ()
      ensures cochange == map[]
    {
      cochange := map[];
    }

    method Learn(paths: seq<string>, level: string)
      requires Distinct(paths)
      modifies this
      ensures cochange == CountLearned(old(cochange), paths, level)
    {
      if |paths| < 2 { return; }
      var weight := CountWeight(level);
      CountedNothing(cochange, Elements(paths), weight);
      for i := 0 to |paths|
        invariant cochange == CountedRows(old(cochange), Elements(paths[..i]), Elements(paths), weight)
      {
        NextElement(paths, i);
        CountedOneMore(old(cochange), Elements(paths[..i]), paths[i], Elements(paths), weight);
        var row := CountUp(CountRow(cochange, paths[i]), paths[i], paths, weight);
        cochange := cochange[paths[i] := row];
      }
      assert paths[..|paths|] == paths;
    }
  }

  lemma CountedNothing(rows: Counts, targets: set<string>, weight: nat)
    ensures CountedRows(rows, {}, targets, weight) == rows
  {
    forall a | a in rows ensures Counted(rows[a], {}, weight) == rows[a] {}
  }

  lemma CountedOneMore(rows: Counts, anchors: set<string>, anchor: string, targets: set<string>, weight: nat)
    requires anchor !in anchors
    ensures var before := CountedRows(rows, anchors, targets, weight);
            CountedRows(rows, anchors + {anchor}, targets, weight) ==
              before[anchor := Counted(CountRow(before, anchor), targets - {anchor}, weight)]
  {
    var before := CountedRows(rows, anchors, targets, weight);
    assert CountRow(before, anchor) == CountRow(rows, anchor) by {
      if anchor in rows { assert Counted(rows[anchor], {}, weight) == rows[anchor]; }
    }
  }

  lemma CountedNext(before: map<string, nat>, targets: set<string>, c: string, weight: nat)
    requires c !in targets
    ensures var row := Counted(before, targets, weight);
            Counted(before, targets + {c}, weight) == row[c := Saturating(CountOf(row, c), weight)]
  {
  }

  lemma NextCandidate(candidates: seq<string>, anchor: string, i: nat)
    requires Distinct(candidates) && i < |candidates|
    ensures var counted := Elements(candidates[..i]) - {anchor};
            && candidates[i] !in counted
            && Elements(candidates[..i + 1]) - {anchor} ==
                 if candidates[i] == anchor then counted else counted + {candidates[i]}
  {
    assert candidates[..i + 1] == candidates[..i] + [candidates[i]];
  }

  method CountUp(before: map<string, nat>, anchor: string, candidates: seq<string>, weight: nat)
    returns (row: map<string, nat>)
    requires Distinct(candidates)
    ensures row == Counted(before, Elements(candidates) - {anchor}, weight)
  {
    row := before;
    for i := 0 to |candidates|
      invariant row == Counted(before, Elements(candidates[..i]) - {anchor}, weight)
    {
      NextCandidate(candidates, anchor, i);
      if candidates[i] != anchor {
        CountedNext(before, Elements(candidates[..i]) - {anchor}, candidates[i], weight);
        row := row[candidates[i] := Saturating(CountOf(row, candidates[i]), weight)];
      }
    }
    assert candidates[..|candidates|] == candidates;
  }

  // ---- Counters -------------------------------------------------------------

  datatype Counters = Counters(
    recordsWithPrediction: nat, predictionCases: nat, hitCases: nat, predictions: nat, truePositives: nat)

  function Sum(a: Counters, b: Counters): Counters {
    Counters(a.recordsWithPrediction + b.recordsWithPrediction, a.predictionCases + b.predictionCases,
             a.hitCases + b.hitCases, a.predictions + b.predictions, a.truePositives + b.truePositives)
  }

  function Hits(ranked: seq<string>, anchor: string, expected: seq<string>): (hits: nat)
    ensures hits <= |ranked|
  {
    if ranked == [] then 0
    else Hits(ranked[..|ranked| - 1], anchor, expected)
         + if ranked[|ranked| - 1] != anchor && ranked[|ranked| - 1] in expected then 1 else 0
  }

  // One anchor of one record, judged against one ranking.
  function Case(ranked: seq<string>, anchor: string, expected: seq<string>): Counters {
    if ranked == [] then Counters(0, 0, 0, 0, 0)
    else
      var hits := Hits(ranked, anchor, expected);
      Counters(0, 1, if hits > 0 then 1 else 0, |ranked|, hits)
  }

  method ObserveRankedCase(metrics: Counters, ranked: seq<string>, anchor: string, expected: seq<string>)
    returns (after: Counters, predicted: bool)
    ensures after == Sum(metrics, Case(ranked, anchor, expected)) && (predicted <==> ranked != [])
  {
    if ranked == [] { return metrics, false; }
    after := metrics.(predictionCases := metrics.predictionCases + 1,
                      predictions := metrics.predictions + |ranked|);
    var hits := 0;
    for i := 0 to |ranked|
      invariant hits == Hits(ranked[..i], anchor, expected)
    {
      assert ranked[..i + 1][..i] == ranked[..i];
      if ranked[i] != anchor && ranked[i] in expected {
        hits := hits + 1;
      }
    }
    assert ranked[..|ranked|] == ranked;
    after := after.(truePositives := after.truePositives + hits,
                    hitCases := after.hitCases + if hits > 0 then 1 else 0);
    predicted := true;
  }

  datatype Tally = Tally(evaluable: nat, cases: nat, expected: nat, candidate: Counters, baseline: Counters)

  function Zero(): Tally {
    Tally(0, 0, 0, Counters(0, 0, 0, 0, 0), Counters(0, 0, 0, 0, 0))
  }

  function Plus(a: Tally, b: Tally): Tally {
    Tally(a.evaluable + b.evaluable, a.cases + b.cases, a.expected + b.expected,
          Sum(a.candidate, b.candidate), Sum(a.baseline, b.baseline))
  }

  type Scaled = m: Model | m.scale > 0.0 witness Empty()

  // What the two models, as they stand, score on a list of anchors of one record.
  function AnchorTally(m: Scaled, rows: Counts, anchors: seq<string>, paths: seq<string>): Tally
    requires paths != []
  {
    if anchors == [] then Zero()
    else
      var anchor := anchors[|anchors| - 1];
      Plus(AnchorTally(m, rows, anchors[..|anchors| - 1], paths),
           Tally(0, 1, |paths| - 1, Case(TopPaths(RankedScores(m, [anchor])), anchor, paths),
                 Case(TopPaths(CountRanked(rows, anchor)), anchor, paths)))
  }

  function Flagged(c: Counters): Counters {
    c.(recordsWithPrediction := if c.predictionCases > 0 then 1 else 0)
  }

  function RecordTally(m: Scaled, rows: Counts, paths: seq<string>): Tally {
    if |paths| < 2 then Zero()
    else
      var t := AnchorTally(m, rows, paths, paths);
      Tally(1, t.cases, t.expected, Flagged(t.candidate), Flagged(t.baseline))
  }

  // ---- The reference --------------------------------------------------------

  function TrainStep(decay: DecayFactor): (Scaled, Example) -> Scaled {
    (m: Scaled, e: Example) => Taught(Decayed(m, e.timestamp, decay), LessonOf(e))
  }

  function CountStep(): (Counts, Example) -> Counts {
    (rows: Counts, e: Example) => CountLearned(rows, e.paths, e.level)
  }

  function Candidate(history: seq<Example>, decay: DecayFactor): Scaled {
    Fold<Scaled, Example>(TrainStep(decay), Empty(), history)
  }

  function Baseline(history: seq<Example>): Counts {
    Fold(CountStep(), map[], history)
  }

  function Earlier(records: seq<Example>, timestamp: nat): seq<Example> {
    if records == [] then []
    else
      var rest := Earlier(records[..|records| - 1], timestamp);
      if records[|records| - 1].timestamp < timestamp then rest + [records[|records| - 1]] else rest
  }

  // The score of one record: both models have seen the strictly earlier records only.
  function Score(records: seq<Example>, decay: DecayFactor, e: Example): Tally {
    var history := Earlier(records, e.timestamp);
    RecordTally(Decayed(Candidate(history, decay), e.timestamp, decay), Baseline(history), e.paths)
  }

  function Scoring(records: seq<Example>, decay: DecayFactor): Example -> Tally {
    (e: Example) => Score(records, decay, e)
  }

  function AddStep(score: Example -> Tally): (Tally, Example) -> Tally {
    (t: Tally, e: Example) => Plus(t, score(e))
  }

  function Total(score: Example -> Tally, records: seq<Example>): Tally {
    Fold(AddStep(score), Zero(), records)
  }

  function Reference(records: seq<Example>, decay: DecayFactor): Tally {
    Total(Scoring(records, decay), records)
  }

  lemma TotalNext(score: Example -> Tally, records: seq<Example>, i: nat)
    requires i < |records|
    ensures Total(score, records[..i + 1]) == Plus(Total(score, records[..i]), score(records[i]))
  {
    assert records[..i + 1] == records[..i] + [records[i]];
    LastStep(AddStep(score), Zero(), records[..i], records[i]);
  }

  function TimeOf(): Example -> nat {
    (e: Example) => e.timestamp
  }

  predicate SortedByTime(records: seq<Example>) {
    SortedBy(TimeOf(), records)
  }

  lemma {:induction false} EarlierIsPrefix(records: seq<Example>, n: nat, timestamp: nat)
    requires n <= |records|
    requires forall i :: 0 <= i < n ==> records[i].timestamp < timestamp
    requires forall i :: n <= i < |records| ==> records[i].timestamp >= timestamp
    ensures Earlier(records, timestamp) == records[..n]
  {
    if records != [] {
      var k := |records| - 1;
      if n == |records| {
        EarlierIsPrefix(records[..k], k, timestamp);
        assert records[..k] + [records[k]] == records[..n];
      } else {
        EarlierIsPrefix(records[..k], n, timestamp);
        assert records[..k][..n] == records[..n];
      }
    }
  }

  // ---- The evaluation loop --------------------------------------------------

  // The records come from `load`, which sorts them by time, with normalised path lists.
  method EvaluatePreparedHistory(records: seq<Example>, decay: DecayFactor) returns (evaluation: Tally)
    requires SortedByTime(records) && forall e :: e in records ==> e.Normalised()
    ensures evaluation == Reference(records, decay)
  {
    ghost var score := Scoring(records, decay);
    var candidate := new CochangeModel(decay);
    var baseline := new RawCountModel();
    evaluation := Zero();
    var index := 0;
    assert records[..0] == [];
    while index < |records|
      invariant 0 <= index <= |records|
      invariant candidate.Valid() && candidate.decay == decay && fresh(candidate) && fresh(baseline)
      invariant candidate.View() == Candidate(records[..index], decay)
      invariant baseline.cochange == Baseline(records[..index])
      invariant evaluation == Total(score, records[..index])
      invariant index == |records| || forall i :: 0 <= i < index ==> records[i].timestamp < records[index].timestamp
    {
      var end := BatchEnd(records, index);
      evaluation := EvaluateBatch(candidate, baseline, records, index, end, decay, evaluation);
      index := end;
    }
    assert records[..|records|] == records;
  }

  // Score a whole timestamp, then learn it.
  method EvaluateBatch(
    candidate: CochangeModel, baseline: RawCountModel, records: seq<Example>, index: nat, end: nat,
    decay: DecayFactor, before: Tally) returns (evaluation: Tally)
    requires candidate.Valid() && candidate.decay == decay && index < end <= |records|
    requires forall e :: e in records ==> e.Normalised()
    requires forall i :: 0 <= i < index ==> records[i].timestamp < records[index].timestamp
    requires forall i :: index <= i < |records| ==> records[i].timestamp >= records[index].timestamp
    requires forall i :: index <= i < end ==> records[i].timestamp == records[index].timestamp
    requires candidate.View() == Candidate(records[..index], decay) && baseline.cochange == Baseline(records[..index])
    requires before == Total(Scoring(records, decay), records[..index])
    modifies candidate, baseline
    ensures candidate.Valid() && candidate.View() == Candidate(records[..end], decay)
    ensures baseline.cochange == Baseline(records[..end])
    ensures evaluation == Total(Scoring(records, decay), records[..end])
  {
    candidate.DecayTo(records[index].timestamp);
    BatchScores(records, decay, index, end);
    evaluation := ScoreBatch(candidate, baseline, records, index, end, Scoring(records, decay), before);
    LearnBatch(candidate, baseline, records[index..end]);
    BatchLearned(records, decay, index, end);
  }

  // Within a batch, the reference scores with the models as they stand before it.
  lemma BatchScores(records: seq<Example>, decay: DecayFactor, index: nat, end: nat)
    requires index < end <= |records|
    requires forall i :: 0 <= i < index ==> records[i].timestamp < records[index].timestamp
    requires forall i :: index <= i < |records| ==> records[i].timestamp >= records[index].timestamp
    requires forall i :: index <= i < end ==> records[i].timestamp == records[index].timestamp
    ensures var history := records[..index];
            forall i :: index <= i < end ==>
              Scoring(records, decay)(records[i]) ==
              RecordTally(Decayed(Candidate(history, decay), records[index].timestamp, decay), Baseline(history),
                          records[i].paths)
  {
    EarlierIsPrefix(records, index, records[index].timestamp);
  }

  method BatchEnd(records: seq<Example>, index: nat) returns (end: nat)
    requires SortedByTime(records) && index < |records|
    ensures index < end <= |records|
    ensures forall i :: index <= i < end ==> records[i].timestamp == records[index].timestamp
    ensures forall i :: index <= i < |records| ==> records[i].timestamp >= records[index].timestamp
    ensures end < |records| ==> forall i :: 0 <= i < end ==> records[i].timestamp < records[end].timestamp
  {
    end := index + 1;
    while end < |records| && records[end].timestamp == records[index].timestamp
      invariant index < end <= |records|
      invariant forall i :: index <= i < end ==> records[i].timestamp == records[index].timestamp
    {
      end := end + 1;
    }
    BatchBounds(records, index, end);
  }

  lemma BatchBounds(records: seq<Example>, index: nat, end: nat)
    requires SortedByTime(records) && index < end <= |records|
    requires forall i :: index <= i < end ==> records[i].timestamp == records[index].timestamp
    requires end < |records| ==> records[end].timestamp != records[index].timestamp
    ensures forall i :: index <= i < |records| ==> records[i].timestamp >= records[index].timestamp
    ensures end < |records| ==> forall i :: 0 <= i < end ==> records[i].timestamp < records[end].timestamp
  {
    var key := TimeOf();
    assert forall i, j :: 0 <= i < j < |records| ==> key(records[i]) <= key(records[j]);
    assert forall i :: 0 <= i < |records| ==> key(records[i]) == records[i].timestamp;
    if end < |records| {
      assert key(records[index]) <= key(records[end]);
      forall i | 0 <= i < end ensures records[i].timestamp < records[end].timestamp {
        assert i < index ==> key(records[i]) <= key(records[index]);
      }
    }
  }

  // The whole batch is scored before any record of it is learned.
  method ScoreBatch(
    candidate: CochangeModel, baseline: RawCountModel, records: seq<Example>, index: nat, end: nat,
    ghost score: Example -> Tally, before: Tally) returns (evaluation: Tally)
    requires candidate.Valid() && index < end <= |records|
    requires forall i :: index <= i < end ==>
      score(records[i]) == RecordTally(candidate.View(), baseline.cochange, records[i].paths)
    requires before == Total(score, records[..index])
    ensures evaluation == Total(score, records[..end])
  {
    evaluation := before;
    for i := index to end
      invariant evaluation == Total(score, records[..i])
    {
      var t := ScoreRecord(candidate, baseline, records[i].paths);
      TotalNext(score, records, i);
      evaluation := Plus(evaluation, t);
    }
  }

  method ScoreRecord(candidate: CochangeModel, baseline: RawCountModel, paths: seq<string>) returns (t: Tally)
    requires candidate.Valid()
    ensures t == RecordTally(candidate.View(), baseline.cochange, paths)
  {
    if |paths| < 2 { return Zero(); }
    t := Zero();
    var candidateFlag, baselineFlag := false, false;
    for i := 0 to |paths|
      invariant t == AnchorTally(candidate.View(), baseline.cochange, paths[..i], paths)
      invariant candidateFlag <==> t.candidate.predictionCases > 0
      invariant baselineFlag <==> t.baseline.predictionCases > 0
    {
      var anchor := paths[i];
      assert paths[..i + 1][..i] == paths[..i];
      var c, hadCandidate :=
        ObserveRankedCase(t.candidate, TopPaths(RankedScores(candidate.View(), [anchor])), anchor, paths);
      var b, hadBaseline :=
        ObserveRankedCase(t.baseline, TopPaths(CountRanked(baseline.cochange, anchor)), anchor, paths);
      candidateFlag, baselineFlag := candidateFlag || hadCandidate, baselineFlag || hadBaseline;
      t := Tally(t.evaluable, t.cases + 1, t.expected + (|paths| - 1), c, b);
    }
    assert paths[..|paths|] == paths;
    t := t.(evaluable := 1,
            candidate := t.candidate.(recordsWithPrediction := if candidateFlag then 1 else 0),
            baseline := t.baseline.(recordsWithPrediction := if baselineFlag then 1 else 0));
  }

  method LearnExample(candidate: CochangeModel, baseline: RawCountModel, e: Example)
    requires candidate.Valid() && e.Normalised()
    modifies candidate`support, candidate`cochange, baseline
    ensures candidate.Valid() && candidate.View() == Taught(old(candidate.View()), LessonOf(e))
    ensures baseline.cochange == CountLearned(old(baseline.cochange), e.paths, e.level)
  {
    candidate.Learn(e.paths, e.level, e.originalCount);
    candidate.LearnTrajectory(e.context, e.paths, e.level, IntentFactor(e.intent, None));
    baseline.Learn(e.paths, e.level);
  }

  function TeachStep(): (Scaled, Example) -> Scaled {
    (m: Scaled, e: Example) => Taught(m, LessonOf(e))
  }

  function TaughtAll(m: Scaled, batch: seq<Example>): Scaled {
    Fold<Scaled, Example>(TeachStep(), m, batch)
  }

  function CountedAll(rows: Counts, batch: seq<Example>): Counts {
    Fold(CountStep(), rows, batch)
  }

  lemma BatchNext(m: Scaled, rows: Counts, batch: seq<Example>, i: nat)
    requires i < |batch|
    ensures TaughtAll(m, batch[..i + 1]) == Taught(TaughtAll(m, batch[..i]), LessonOf(batch[i]))
    ensures CountedAll(rows, batch[..i + 1]) ==
              CountLearned(CountedAll(rows, batch[..i]), batch[i].paths, batch[i].level)
  {
    assert batch[..i + 1] == batch[..i] + [batch[i]];
    LastStep<Scaled, Example>(TeachStep(), m, batch[..i], batch[i]);
    LastStep(CountStep(), rows, batch[..i], batch[i]);
  }

  method LearnBatch(candidate: CochangeModel, baseline: RawCountModel, batch: seq<Example>)
    requires candidate.Valid() && forall e :: e in batch ==> e.Normalised()
    modifies candidate`support, candidate`cochange, baseline
    ensures candidate.Valid() && candidate.View() == TaughtAll(old(candidate.View()), batch)
    ensures baseline.cochange == CountedAll(old(baseline.cochange), batch)
  {
    for i := 0 to |batch|
      invariant candidate.Valid()
      invariant candidate.View() == TaughtAll(old(candidate.View()), batch[..i])
      invariant baseline.cochange == CountedAll(old(baseline.cochange), batch[..i])
    {
      BatchNext(old(candidate.View()), old(baseline.cochange), batch, i);
      LearnExample(candidate, baseline, batch[i]);
    }
    assert batch[..|batch|] == batch;
  }

  function Settle(now: nat, decay: DecayFactor): Scaled -> Scaled {
    (m: Scaled) => Decayed(m, now, decay)
  }

  // A model that has reached a time does not decay to it again, so learning a batch is
  // the same as replaying its records one by one.
  lemma BatchLearned(records: seq<Example>, decay: DecayFactor, index: nat, end: nat)
    requires index < end <= |records|
    requires forall i :: index <= i < end ==> records[i].timestamp == records[index].timestamp
    ensures var m := Decayed(Candidate(records[..index], decay), records[index].timestamp, decay);
            TaughtAll(m, records[index..end]) == Candidate(records[..end], decay)
    ensures CountedAll(Baseline(records[..index]), records[index..end]) == Baseline(records[..end])
  {
    var now := records[index].timestamp;
    var step, teach, settle := TrainStep(decay), TeachStep(), Settle(now, decay);
    assert records[..end] == records[..index] + records[index..end];
    forall m: Scaled, e: Example | e in records[index..end] ensures step(m, e) == teach(settle(m), e) {
      var i :| 0 <= i < end - index && records[index..end][i] == e;
      assert e == records[index + i];
    }
    forall m: Scaled, e: Example ensures settle(teach(settle(m), e)) == teach(settle(m), e) {
      DecayOnce(m, now, decay);
      DecayOnce(Taught(Decayed(m, now, decay), LessonOf(e)), now, decay);
    }
    FoldBatch<Scaled, Example>(step, teach, settle, Empty(), records[..index], records[index..end]);
    FoldAppend(CountStep(), map[], records[..index], records[index..end]);
  }

  lemma DecayOnce(m: Scaled, now: nat, decay: DecayFactor)
    ensures Decayed(m, now, decay).last.Some? && Decayed(m, now, decay).last.value >= now
    ensures m.last.Some? && m.last.value >= now ==> Decayed(m, now, decay) == m
  {
  }
}
