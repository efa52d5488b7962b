// What the temporal holdout guarantees: no leak from later or simultaneous records, no
// dependence on the order inside a timestamp, and counters that fit together.
module HoldoutLaws {
  import opened Wrappers
  import opened Sorting
  import opened Folding
  import opened Cochange
  import opened CochangeLaws
  import opened Holdout

  // ---- No leak --------------------------------------------------------------

  lemma {:induction false} EarlierAppend(a: seq<Example>, b: seq<Example>, timestamp: nat)
    ensures Earlier(a + b, timestamp) == Earlier(a, timestamp) + Earlier(b, timestamp)
  {
    if b == [] {
      assert a + b == a;
    } else {
      assert (a + b)[..|a + b| - 1] == a + b[..|b| - 1];
      EarlierAppend(a, b[..|b| - 1], timestamp);
    }
  }

  lemma {:induction false} NoneEarlier(records: seq<Example>, timestamp: nat)
    requires forall e :: e in records ==> e.timestamp >= timestamp
    ensures Earlier(records, timestamp) == []
  {
    if records != [] {
      NoneEarlier(records[..|records| - 1], timestamp);
    }
  }

  // Whatever was verified at the same time or later cannot change a prediction.
  lemma LaterRecordsAreInvisible(records: seq<Example>, more: seq<Example>, decay: DecayFactor, e: Example)
    requires forall m :: m in more ==> m.timestamp >= e.timestamp
    ensures Score(records + more, decay, e) == Score(records, decay, e)
  {
    EarlierAppend(records, more, e.timestamp);
    NoneEarlier(more, e.timestamp);
    assert Earlier(records, e.timestamp) + [] == Earlier(records, e.timestamp);
  }

  // ---- Order inside a timestamp --------------------------------------------

  lemma RaisedCommutes(w: Weights, x: set<string>, d: real, y: set<string>, e: real)
    ensures Raised(Raised(w, x, d), y, e) == Raised(Raised(w, y, e), x, d)
  {
    var lhs, rhs := Raised(Raised(w, x, d), y, e), Raised(Raised(w, y, e), x, d);
    assert lhs.Keys == rhs.Keys;
    forall p | p in lhs ensures lhs[p] == rhs[p] {}
  }

  lemma RaisedRowsCommute(
    rows: Rows, x: set<string>, s: set<string>, d: real, y: set<string>, t: set<string>, e: real)
    ensures RaisedRows(RaisedRows(rows, x, s, d), y, t, e) == RaisedRows(RaisedRows(rows, y, t, e), x, s, d)
  {
    var lhs, rhs := RaisedRows(RaisedRows(rows, x, s, d), y, t, e), RaisedRows(RaisedRows(rows, y, t, e), x, s, d);
    assert lhs.Keys == rhs.Keys;
    forall a | a in lhs ensures lhs[a] == rhs[a] {
      var (k, l) := (if a in x then s - {a} else {}, if a in y then t - {a} else {});
      RaisedRow(rows, x, s, d, a);
      RaisedRow(rows, y, t, e, a);
      RaisedCommutes(Row(rows, a), k, d, l, e);
    }
  }

  lemma RaisedRow(rows: Rows, x: set<string>, s: set<string>, d: real, a: string)
    ensures Row(RaisedRows(rows, x, s, d), a) == Raised(Row(rows, a), if a in x then s - {a} else {}, d)
  {
  }

  // A lesson as two additive updates whose sizes depend on the model's scale alone.
  datatype Update = Update(paths: set<string>, weight: real, anchors: set<string>, targets: set<string>, edge: real)

  function Applied(m: Model, u: Update): (after: Model)
    ensures after.scale == m.scale && after.last == m.last
  {
    Bump(m, u.paths, u.weight, u.anchors, u.targets, u.edge)
  }

  function LearnUpdate(l: Lesson, scale: real): Update
    requires scale > 0.0
  {
    var paths, weight := Elements(l.paths), LevelWeight(l.level) / scale;
    Update(paths, weight, if |l.paths| < 2 then {} else paths, paths, weight / Breadth(l.originalCount))
  }

  function TrajectoryUpdate(l: Lesson, scale: real): Update
    requires scale > 0.0
  {
    if l.context == [] || l.paths == [] || l.factor <= 0.0 then Update({}, 0.0, {}, {}, 0.0)
    else
      var context, weight := Elements(l.context), TrajectoryWeight(l.level, l.factor, scale);
      Update(context, weight, context, Elements(l.paths), weight / (|l.paths| as real))
  }

  lemma TaughtIsUpdates(m: Model, l: Lesson)
    requires m.scale > 0.0
    ensures Taught(m, l) == Applied(Applied(m, LearnUpdate(l, m.scale)), TrajectoryUpdate(l, m.scale))
  {
    var m1 := Applied(m, LearnUpdate(l, m.scale));
    assert m1 == Learned(m, l.paths, l.level, l.originalCount);
    if l.context == [] || l.paths == [] || l.factor <= 0.0 {
      RaisedNothing(m1.cochange, {}, 0.0);
      assert Raised(m1.support, {}, 0.0) == m1.support;
    }
  }

  lemma UpdatesCommute(m: Model, u: Update, v: Update)
    ensures Applied(Applied(m, u), v) == Applied(Applied(m, v), u)
  {
    RaisedCommutes(m.support, u.paths, u.weight, v.paths, v.weight);
    RaisedRowsCommute(m.cochange, u.anchors, u.targets, u.edge, v.anchors, v.targets, v.edge);
  }

  lemma LessonsCommute(m: Model, x: Lesson, y: Lesson)
    requires m.scale > 0.0
    ensures Taught(Taught(m, x), y) == Taught(Taught(m, y), x)
  {
    var a, b := LearnUpdate(x, m.scale), TrajectoryUpdate(x, m.scale);
    var c, d := LearnUpdate(y, m.scale), TrajectoryUpdate(y, m.scale);
    TaughtIsUpdates(m, x);
    TaughtIsUpdates(m, y);
    TaughtIsUpdates(Taught(m, x), y);
    TaughtIsUpdates(Taught(m, y), x);
    FourUpdates(m, a, b, c, d);
  }

  lemma FourUpdates(m: Model, a: Update, b: Update, c: Update, d: Update)
    ensures Applied(Applied(Applied(Applied(m, a), b), c), d) == Applied(Applied(Applied(Applied(m, c), d), a), b)
  {
    UpdatesCommute(Applied(m, a), b, c);
    UpdatesCommute(Applied(Applied(m, a), c), b, d);
    UpdatesCommute(m, a, c);
    UpdatesCommute(Applied(m, c), a, d);
  }

  lemma CountedCommutes(row: map<string, nat>, x: set<string>, v: nat, y: set<string>, w: nat)
    requires v <= MAX_COUNT && w <= MAX_COUNT
    ensures Counted(Counted(row, x, v), y, w) == Counted(Counted(row, y, w), x, v)
  {
    var lhs, rhs := Counted(Counted(row, x, v), y, w), Counted(Counted(row, y, w), x, v);
    assert lhs.Keys == rhs.Keys;
    forall c | c in lhs ensures lhs[c] == rhs[c] {}
  }

  lemma CountsCommute(rows: Counts, x: Example, y: Example)
    ensures CountStep()(CountStep()(rows, x), y) == CountStep()(CountStep()(rows, y), x)
  {
    var (p, q) := (Elements(x.paths), Elements(y.paths));
    var (v, w) := (CountWeight(x.level), CountWeight(y.level));
    if |x.paths| >= 2 && |y.paths| >= 2 {
      CountedRowsCommute(rows, p, v, q, w);
    }
  }

  lemma CountedRowsCommute(rows: Counts, p: set<string>, v: nat, q: set<string>, w: nat)
    requires v <= MAX_COUNT && w <= MAX_COUNT
    ensures CountedRows(CountedRows(rows, p, p, v), q, q, w) == CountedRows(CountedRows(rows, q, q, w), p, p, v)
  {
    var lhs, rhs := CountedRows(CountedRows(rows, p, p, v), q, q, w), CountedRows(CountedRows(rows, q, q, w), p, p, v);
    assert lhs.Keys == rhs.Keys;
    forall a | a in lhs ensures lhs[a] == rhs[a] {
      var (k, l) := (if a in p then p - {a} else {}, if a in q then q - {a} else {});
      CountedRowOf(rows, p, v, a);
      CountedRowOf(rows, q, w, a);
      CountedCommutes(CountRow(rows, a), k, v, l, w);
    }
  }

  lemma CountedRowOf(rows: Counts, p: set<string>, v: nat, a: string)
    ensures CountRow(CountedRows(rows, p, p, v), a) == Counted(CountRow(rows, a), if a in p then p - {a} else {}, v)
  {
  }

  lemma TrainStepsCommute(decay: DecayFactor, x: Example, y: Example)
    requires x.timestamp == y.timestamp
    ensures Commute<Scaled, Example>(TrainStep(decay), x, y)
  {
    var step := TrainStep(decay);
    forall m: Scaled ensures step(step(m, x), y) == step(step(m, y), x) {
      var m0: Scaled := Decayed(m, x.timestamp, decay);
      TrainedTwice(decay, x, y, m);
      TrainedTwice(decay, y, x, m);
      LessonsCommute(m0, LessonOf(x), LessonOf(y));
    }
  }

  // Between two records of one time nothing decays.
  lemma TrainedTwice(decay: DecayFactor, x: Example, y: Example, m: Scaled)
    requires x.timestamp == y.timestamp
    ensures TrainStep(decay)(TrainStep(decay)(m, x), y) ==
              Taught(Taught(Decayed(m, x.timestamp, decay), LessonOf(x)), LessonOf(y))
  {
    var m0: Scaled := Decayed(m, x.timestamp, decay);
    DecayOnce(m, x.timestamp, decay);
    DecayOnce(Taught(m0, LessonOf(x)), x.timestamp, decay);
  }

  // Two sorted histories of the same records train the same models.
  lemma SameTraining(a: seq<Example>, b: seq<Example>, decay: DecayFactor)
    requires SortedByTime(a) && SortedByTime(b) && multiset(a) == multiset(b)
    ensures Candidate(a, decay) == Candidate(b, decay) && Baseline(a) == Baseline(b)
  {
    var key := TimeOf();
    forall x: Example, y: Example | key(x) == key(y)
      ensures Commute<Scaled, Example>(TrainStep(decay), x, y) && Commute(CountStep(), x, y)
    {
      TrainStepsCommute(decay, x, y);
      forall rows: Counts ensures CountStep()(CountStep()(rows, x), y) == CountStep()(CountStep()(rows, y), x) {
        CountsCommute(rows, x, y);
      }
    }
    FoldPermutation<Scaled, Example>(TrainStep(decay), Empty(), key, a, b);
    FoldPermutation(CountStep(), map[], key, a, b);
  }

  lemma {:induction false} EarlierMultiset(records: seq<Example>, timestamp: nat)
    ensures forall e ::
      multiset(Earlier(records, timestamp))[e] == if e.timestamp < timestamp then multiset(records)[e] else 0
  {
    if records != [] {
      var n := |records| - 1;
      EarlierMultiset(records[..n], timestamp);
      assert records == records[..n] + [records[n]];
      assert multiset(records) == multiset(records[..n]) + multiset{records[n]};
    }
  }

  lemma {:induction false} EarlierSorted(records: seq<Example>, timestamp: nat)
    requires SortedByTime(records)
    ensures SortedByTime(Earlier(records, timestamp))
    ensures forall e :: e in Earlier(records, timestamp) ==> e in records
  {
    if records != [] {
      var n := |records| - 1;
      var (init, last) := (records[..n], records[n]);
      EarlierSorted(init, timestamp);
      var (rest, key) := (Earlier(init, timestamp), TimeOf());
      forall i | 0 <= i < |rest| ensures key(rest[i]) <= key(last) {
        assert rest[i] in init;
        var j :| 0 <= j < n && records[j] == rest[i];
      }
    }
  }

  lemma SameScore(a: seq<Example>, b: seq<Example>, decay: DecayFactor, e: Example)
    requires SortedByTime(a) && SortedByTime(b) && multiset(a) == multiset(b)
    ensures Score(a, decay, e) == Score(b, decay, e)
  {
    EarlierMultiset(a, e.timestamp);
    EarlierMultiset(b, e.timestamp);
    EarlierSorted(a, e.timestamp);
    EarlierSorted(b, e.timestamp);
    assert multiset(Earlier(a, e.timestamp)) == multiset(Earlier(b, e.timestamp));
    SameTraining(Earlier(a, e.timestamp), Earlier(b, e.timestamp), decay);
  }

  lemma {:induction false} TotalAgrees(f: Example -> Tally, g: Example -> Tally, records: seq<Example>)
    requires forall e :: f(e) == g(e)
    ensures Total(f, records) == Total(g, records)
  {
    if records != [] {
      TotalAgrees(f, g, records[..|records| - 1]);
    }
  }

  function NoKey(): Example -> nat {
    (e: Example) => 0
  }

  lemma TotalPermutation(f: Example -> Tally, a: seq<Example>, b: seq<Example>)
    requires multiset(a) == multiset(b)
    ensures Total(f, a) == Total(f, b)
  {
    var step := AddStep(f);
    forall x, y ensures Commute(step, x, y) {
      forall t ensures step(step(t, x), y) == step(step(t, y), x) {
        PlusCommutes(t, f(x), f(y));
      }
    }
    FoldPermutation(AddStep(f), Zero(), NoKey(), a, b);
  }

  lemma PlusCommutes(t: Tally, a: Tally, b: Tally)
    ensures Plus(Plus(t, a), b) == Plus(Plus(t, b), a)
  {
  }

  // Permuting records inside their timestamps leaves every counter of the evaluation unchanged.
  lemma BatchOrderIsIrrelevant(a: seq<Example>, b: seq<Example>, decay: DecayFactor)
    requires SortedByTime(a) && SortedByTime(b) && multiset(a) == multiset(b)
    ensures Reference(a, decay) == Reference(b, decay)
  {
    forall e ensures Scoring(a, decay)(e) == Scoring(b, decay)(e) {
      SameScore(a, b, decay, e);
    }
    TotalAgrees(Scoring(a, decay), Scoring(b, decay), a);
    TotalPermutation(Scoring(b, decay), a, b);
  }

  // ---- Bounds ---------------------------------------------------------------

  predicate Consistent(c: Counters, t: Tally) {
    && c.hitCases <= c.predictionCases <= t.cases
    && c.truePositives <= c.predictions && c.truePositives <= t.expected
    && c.predictions <= TOP_K * c.predictionCases
    && c.recordsWithPrediction <= t.evaluable
  }

  function HitSet(ranked: seq<string>, anchor: string, expected: seq<string>): set<string> {
    set r | r in ranked && r != anchor && r in expected
  }

  lemma {:induction false} HitsAreMembers(ranked: seq<string>, anchor: string, expected: seq<string>)
    requires Distinct(ranked)
    ensures Hits(ranked, anchor, expected) == |HitSet(ranked, anchor, expected)|
  {
    if ranked != [] {
      var n := |ranked| - 1;
      var (init, last) := (ranked[..n], ranked[n]);
      HitsAreMembers(init, anchor, expected);
      assert ranked == init + [last];
      var rest := HitSet(init, anchor, expected);
      assert last !in init;
      if last != anchor && last in expected {
        assert HitSet(ranked, anchor, expected) == rest + {last};
      } else {
        assert HitSet(ranked, anchor, expected) == rest;
      }
    }
  }

  lemma CaseBounds(ranked: seq<string>, anchor: string, paths: seq<string>)
    requires Distinct(ranked) && Distinct(paths) && anchor in paths && |ranked| <= TOP_K
    ensures SoundCase(Case(ranked, anchor, paths), paths)
  {
    HitsAreMembers(ranked, anchor, paths);
    DistinctSize(paths);
    assert anchor in Elements(paths);
    SubsetSize(HitSet(ranked, anchor, paths), Elements(paths) - {anchor});
  }

  lemma TopPathsDistinct(ranked: seq<Scored>)
    requires Increasing(ranked, Better)
    requires forall s, t :: s in Elements(ranked) && t in Elements(ranked) && s.path == t.path ==> s == t
    ensures Distinct(TopPaths(ranked))
  {
    BetterIsStrictTotal();
    var top := TopPaths(ranked);
    forall i, j | 0 <= i < j < |top| ensures top[i] != top[j] {
      assert Better(ranked[i], ranked[j]);
      assert ranked[i] in Elements(ranked) && ranked[j] in Elements(ranked);
    }
  }

  lemma {:induction false} AnchorBounds(m: Scaled, rows: Counts, anchors: seq<string>, paths: seq<string>)
    requires paths != [] && Distinct(paths) && forall a :: a in anchors ==> a in paths
    ensures var t := AnchorTally(m, rows, anchors, paths);
            Consistent(t.candidate, t) && Consistent(t.baseline, t) && t.evaluable == 0
  {
    if anchors != [] {
      var anchor := anchors[|anchors| - 1];
      AnchorBounds(m, rows, anchors[..|anchors| - 1], paths);
      CandidateCase(m, anchor, paths);
      BaselineCase(rows, anchor, paths);
    }
  }

  predicate SoundCase(c: Counters, paths: seq<string>)
    requires paths != []
  {
    && c.hitCases <= c.predictionCases <= 1 && c.truePositives <= c.predictions <= TOP_K * c.predictionCases
    && c.truePositives <= |paths| - 1 && c.recordsWithPrediction == 0
  }

  lemma CandidateCase(m: Scaled, anchor: string, paths: seq<string>)
    requires anchor in paths && Distinct(paths)
    ensures SoundCase(Case(TopPaths(RankedScores(m, [anchor])), anchor, paths), paths)
  {
    TopPathsDistinct(RankedScores(m, [anchor]));
    CaseBounds(TopPaths(RankedScores(m, [anchor])), anchor, paths);
  }

  lemma BaselineCase(rows: Counts, anchor: string, paths: seq<string>)
    requires anchor in paths && Distinct(paths)
    ensures SoundCase(Case(TopPaths(CountRanked(rows, anchor)), anchor, paths), paths)
  {
    TopPathsDistinct(CountRanked(rows, anchor));
    CaseBounds(TopPaths(CountRanked(rows, anchor)), anchor, paths);
  }

  lemma RecordBounds(m: Scaled, rows: Counts, paths: seq<string>)
    requires Distinct(paths)
    ensures var t := RecordTally(m, rows, paths); Consistent(t.candidate, t) && Consistent(t.baseline, t)
  {
    if |paths| >= 2 {
      AnchorBounds(m, rows, paths, paths);
    }
  }

  lemma {:induction false} TotalBounds(f: Example -> Tally, records: seq<Example>)
    requires forall e :: e in records ==> Consistent(f(e).candidate, f(e)) && Consistent(f(e).baseline, f(e))
    ensures var t := Total(f, records); Consistent(t.candidate, t) && Consistent(t.baseline, t)
  {
    if records != [] {
      TotalBounds(f, records[..|records| - 1]);
    }
  }

  // Hits are predictions that came true, and every prediction belongs to an evaluated case.
  lemma CountersFitTogether(records: seq<Example>, decay: DecayFactor)
    requires forall e :: e in records ==> e.Normalised()
    ensures var t := Reference(records, decay); Consistent(t.candidate, t) && Consistent(t.baseline, t)
  {
    forall e | e in records
      ensures var t := Scoring(records, decay)(e); Consistent(t.candidate, t) && Consistent(t.baseline, t)
    {
      var history := Earlier(records, e.timestamp);
      RecordBounds(Decayed(Candidate(history, decay), e.timestamp, decay), Baseline(history), e.paths);
    }
    TotalBounds(Scoring(records, decay), records);
  }
}
