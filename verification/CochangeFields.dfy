// The co-change model in plain numbers: what a lesson adds, how a history of lessons fades,
// which score follows, and what is ranked.
module CochangeFields {
  import opened Wrappers
  import opened Sorting
  import opened Cochange
  import opened CochangeLaws
  import opened CochangeRefinement
  import Text

  // ---- What one lesson adds ---------------------------------------------------------------

  function Worth(l: Lesson): real {
    if l.level == "full" then 3.0 else 1.0
  }

  // Of the retrieval that led to the change, a bit less than half as much, by its intent.
  function Guidance(l: Lesson): real {
    if l.paths != [] && l.factor > 0.0 then Worth(l) * 0.45 * l.factor else 0.0
  }

  function PathGain(l: Lesson, p: string): real {
    (if p in l.paths then Worth(l) else 0.0) + (if p in l.context then Guidance(l) else 0.0)
  }

  function LearnedShare(l: Lesson): real {
    if l.originalCount <= 2 then Worth(l) else Worth(l) / ((l.originalCount - 1) as real)
  }

  // A changed path gains a share of every other one; a retrieved path, a share of every
  // changed one.
  function PairGain(l: Lesson, a: string, c: string): real {
    if a == c || c !in l.paths then 0.0 else
      (if a in l.paths then LearnedShare(l) else 0.0)
      + (if a in l.context then Guidance(l) / (|l.paths| as real) else 0.0)
  }

  lemma LearnedForm(m: Model, l: Lesson)
    requires m.scale == 1.0
    ensures var paths := Elements(l.paths);
      Learned(m, l.paths, l.level, l.originalCount) ==
        Bump(m, paths, Worth(l), if |l.paths| < 2 then {} else paths, paths, LearnedShare(l))
  {
    assert LevelWeight(l.level) / 1.0 == Worth(l);
    assert Worth(l) / Breadth(l.originalCount) == LearnedShare(l);
  }

  lemma LearnedGains(m: Model, l: Lesson, a: string, c: string)
    requires m.scale == 1.0 && a != c
    ensures var after := Learned(m, l.paths, l.level, l.originalCount);
      && Get(after.support, a) == Get(m.support, a) + (if a in l.paths then Worth(l) else 0.0)
      && Pair(after, a, c) == Pair(m, a, c) + (if a in l.paths && c in l.paths then LearnedShare(l) else 0.0)
  {
    var paths := Elements(l.paths);
    LearnedForm(m, l);
    BumpGets(m, paths, Worth(l), if |l.paths| < 2 then {} else paths, paths, LearnedShare(l));
    if a in l.paths && c in l.paths {
      TwoMembers(l.paths, a, c);
    }
  }

  lemma TrajectoryForm(m: Model, l: Lesson)
    requires m.scale == 1.0 && l.context != [] && l.paths != [] && l.factor > 0.0
    ensures var context := Elements(l.context);
      Trajectory(m, l.context, l.paths, l.level, l.factor) ==
        Bump(m, context, Guidance(l), context, Elements(l.paths), Guidance(l) / (|l.paths| as real))
  {
    assert TrajectoryWeight(l.level, l.factor, 1.0) == Guidance(l);
  }

  lemma TrajectoryGains(m: Model, l: Lesson, a: string, c: string)
    requires m.scale == 1.0 && a != c
    ensures var after := Trajectory(m, l.context, l.paths, l.level, l.factor);
      && Get(after.support, a) == Get(m.support, a) + (if a in l.context then Guidance(l) else 0.0)
      && Pair(after, a, c) ==
           Pair(m, a, c) + (if a in l.context && c in l.paths then Guidance(l) / (|l.paths| as real) else 0.0)
  {
    if l.context != [] && l.paths != [] && l.factor > 0.0 {
      TrajectoryForm(m, l);
      var context := Elements(l.context);
      BumpGets(m, context, Guidance(l), context, Elements(l.paths), Guidance(l) / (|l.paths| as real));
    }
  }

  lemma LessonGains(m: Model, l: Lesson, a: string, c: string)
    requires m.scale == 1.0 && a != c
    ensures Get(Taught(m, l).support, a) == Get(m.support, a) + PathGain(l, a)
    ensures Pair(Taught(m, l), a, c) == Pair(m, a, c) + PairGain(l, a, c)
  {
    LearnedGains(m, l, a, c);
    TrajectoryGains(Learned(m, l.paths, l.level, l.originalCount), l, a, c);
  }

  // ---- How a history fades ------------------------------------------------------------------

  // What an amount is worth after an age.
  type Fade = (real, nat) -> real

  function FadeBy(decay: DecayFactor): Fade {
    (x: real, age: nat) => x * decay(age)
  }

  // Sums fade by parts, no time changes nothing, and ages add up.
  ghost predicate Even(fade: Fade) {
    (forall x, y, age :: ByParts(fade, x, y, age)) && forall x, s, t :: InTurn(fade, x, s, t)
  }

  predicate ByParts(fade: Fade, x: real, y: real, age: nat) {
    fade(x + y, age) == fade(x, age) + fade(y, age)
  }

  predicate InTurn(fade: Fade, x: real, s: nat, t: nat) {
    fade(x, 0) == x && fade(fade(x, s), t) == fade(x, s + t)
  }

  ghost predicate Exponential(decay: DecayFactor) {
    forall s: nat, t: nat :: Compounds(decay, s, t)
  }

  predicate Compounds(decay: DecayFactor, s: nat, t: nat) {
    decay(s + t) == decay(s) * decay(t)
  }

  lemma OneOrNothing(x: real)
    requires x > 0.0 && x == x * x
    ensures x == 1.0
  {
    if x < 1.0 { ProductOrder(x, 1.0, x); } else if x > 1.0 { ProductOrder(1.0, x, x); }
  }

  lemma NoAge(decay: DecayFactor)
    requires Exponential(decay)
    ensures decay(0) == 1.0
  {
    assert Compounds(decay, 0, 0);
    OneOrNothing(decay(0));
  }

  lemma ExponentialIsEven(decay: DecayFactor)
    requires Exponential(decay)
    ensures Even(FadeBy(decay))
  {
    forall x: real, y: real, age: nat ensures ByParts(FadeBy(decay), x, y, age) {
      Distributes(x, y, decay(age));
    }
    forall x: real, s: nat, t: nat ensures InTurn(FadeBy(decay), x, s, t) {
      FadesInTurn(decay, x, s, t);
    }
  }

  lemma FadesInTurn(decay: DecayFactor, x: real, s: nat, t: nat)
    requires Exponential(decay)
    ensures InTurn(FadeBy(decay), x, s, t)
  {
    NoAge(decay);
    assert Compounds(decay, s, t);
    Associates(x, decay(s), decay(t), decay(s + t), x * decay(s));
  }

  predicate InOrder(lessons: seq<Lesson>) {
    forall i, j :: 0 <= i < j < |lessons| ==> lessons[i].timestamp <= lessons[j].timestamp
  }

  function Age(since: nat, now: nat): nat {
    if now < since then 0 else now - since
  }

  // Everything gained, each gain faded by its own age.
  function Aged(gain: Lesson -> real, lessons: seq<Lesson>, fade: Fade, now: nat): real {
    if lessons == [] then 0.0
    else
      var l := lessons[|lessons| - 1];
      Aged(gain, lessons[..|lessons| - 1], fade, now) + fade(gain(l), Age(l.timestamp, now))
  }

  lemma {:induction false} AgedLater(gain: Lesson -> real, lessons: seq<Lesson>, fade: Fade, now: nat, later: nat)
    requires Even(fade) && now <= later && forall l :: l in lessons ==> l.timestamp <= now
    ensures Aged(gain, lessons, fade, later) == fade(Aged(gain, lessons, fade, now), later - now)
  {
    if lessons == [] {
      assert ByParts(fade, 0.0, 0.0, later - now);
    } else {
      var (front, l) := (lessons[..|lessons| - 1], lessons[|lessons| - 1]);
      var young := now - l.timestamp;
      AgedLater(gain, front, fade, now, later);
      assert InTurn(fade, gain(l), young, later - now);
      assert ByParts(fade, Aged(gain, front, fade, now), fade(gain(l), young), later - now);
    }
  }

  // ---- The weights of a history ----------------------------------------------------------------

  // Learning adds what the lesson gives, and time fades what there is.
  ghost predicate Gains(taught: (Model, Lesson) -> Model, weight: Model -> real, gain: Lesson -> real) {
    forall m: Model, l: Lesson :: m.scale == 1.0 ==> GainsAt(taught, weight, gain, m, l)
  }

  predicate GainsAt(
    taught: (Model, Lesson) -> Model, weight: Model -> real, gain: Lesson -> real, m: Model, l: Lesson)
  {
    && taught(m, l).last == m.last && taught(m, l).scale == 1.0
    && weight(taught(m, l)) == weight(m) + gain(l)
  }

  ghost predicate Fades(decayed: (Model, nat) -> Model, weight: Model -> real, fade: Fade) {
    forall m: Model, now: nat :: m.scale == 1.0 && (m.last.Some? ==> m.last.value <= now) ==>
      FadesAt(decayed, weight, fade, m, now)
  }

  predicate FadesAt(decayed: (Model, nat) -> Model, weight: Model -> real, fade: Fade, m: Model, now: nat) {
    && decayed(m, now).last == Some(now) && decayed(m, now).scale == 1.0
    && weight(decayed(m, now)) == if m.last.Some? then fade(weight(m), Age(m.last.value, now)) else weight(m)
  }

  function Replayed(
    taught: (Model, Lesson) -> Model, decayed: (Model, nat) -> Model, lessons: seq<Lesson>): Model
  {
    if lessons == [] then Empty()
    else
      var l := lessons[|lessons| - 1];
      taught(decayed(Replayed(taught, decayed, lessons[..|lessons| - 1]), l.timestamp), l)
  }

  lemma {:induction false} ReplayedIsAged(
    taught: (Model, Lesson) -> Model, decayed: (Model, nat) -> Model, weight: Model -> real, gain: Lesson -> real,
    fade: Fade, lessons: seq<Lesson>)
    requires Gains(taught, weight, gain) && Fades(decayed, weight, fade) && weight(Empty()) == 0.0
    requires lessons != [] && InOrder(lessons) && Even(fade)
    ensures var (m, now) := (Replayed(taught, decayed, lessons), lessons[|lessons| - 1].timestamp);
      m.last == Some(now) && m.scale == 1.0 && weight(m) == Aged(gain, lessons, fade, now)
  {
    var (front, l) := (lessons[..|lessons| - 1], lessons[|lessons| - 1]);
    var before := Replayed(taught, decayed, front);
    if front != [] {
      ReplayedIsAged(taught, decayed, weight, gain, fade, front);
      AgedLater(gain, front, fade, front[|front| - 1].timestamp, l.timestamp);
    }
    assert FadesAt(decayed, weight, fade, before, l.timestamp);
    assert GainsAt(taught, weight, gain, decayed(before, l.timestamp), l);
    assert InTurn(fade, gain(l), 0, 0);
  }

  function PathGains(p: string): Lesson -> real {
    (l: Lesson) => PathGain(l, p)
  }

  function PairGains(a: string, c: string): Lesson -> real {
    (l: Lesson) => PairGain(l, a, c)
  }

  function SupportOf(a: string): Model -> real {
    (m: Model) => Get(m.support, a)
  }

  function PairOf(a: string, c: string): Model -> real {
    (m: Model) => Pair(m, a, c)
  }

  function Teaching(): (Model, Lesson) -> Model {
    (m: Model, l: Lesson) => if m.scale > 0.0 then Taught(m, l) else m
  }

  function Decaying(decay: DecayFactor): (Model, nat) -> Model {
    (m: Model, now: nat) => EagerDecayed(m, now, decay)
  }

  lemma {:induction false} EagerIsReplayed(lessons: seq<Lesson>, decay: DecayFactor)
    ensures EagerTrained(lessons, decay) == Replayed(Teaching(), Decaying(decay), lessons)
  {
    if lessons != [] {
      EagerIsReplayed(lessons[..|lessons| - 1], decay);
    }
  }

  lemma TeachingGains(a: string, c: string)
    requires a != c
    ensures Gains(Teaching(), SupportOf(a), PathGains(a)) && Gains(Teaching(), PairOf(a, c), PairGains(a, c))
  {
    forall m: Model, l: Lesson | m.scale == 1.0
      ensures Get(Taught(m, l).support, a) == Get(m.support, a) + PathGain(l, a)
      ensures Pair(Taught(m, l), a, c) == Pair(m, a, c) + PairGain(l, a, c)
    {
      LessonGains(m, l, a, c);
    }
  }

  lemma DecayingFadesAt(m: Model, now: nat, decay: DecayFactor, a: string, c: string)
    requires m.scale == 1.0 && (m.last.Some? ==> m.last.value <= now) && decay(0) == 1.0
    ensures FadesAt(Decaying(decay), SupportOf(a), FadeBy(decay), m, now)
    ensures FadesAt(Decaying(decay), PairOf(a, c), FadeBy(decay), m, now)
  {
    if m.last.Some? {
      MultipliedGets(m, decay(Age(m.last.value, now)));
    }
  }

  lemma DecayingFades(decay: DecayFactor, a: string, c: string)
    requires decay(0) == 1.0
    ensures Fades(Decaying(decay), SupportOf(a), FadeBy(decay)) && Fades(Decaying(decay), PairOf(a, c), FadeBy(decay))
  {
    forall m: Model, now: nat | m.scale == 1.0 && (m.last.Some? ==> m.last.value <= now)
      ensures FadesAt(Decaying(decay), SupportOf(a), FadeBy(decay), m, now)
      ensures FadesAt(Decaying(decay), PairOf(a, c), FadeBy(decay), m, now)
    {
      DecayingFadesAt(m, now, decay, a, c);
    }
  }

  lemma EagerIsAged(lessons: seq<Lesson>, decay: DecayFactor, a: string, c: string)
    requires lessons != [] && InOrder(lessons) && Exponential(decay) && a != c
    ensures var (eager, now) := (Replayed(Teaching(), Decaying(decay), lessons), lessons[|lessons| - 1].timestamp);
      && SupportOf(a)(eager) == Aged(PathGains(a), lessons, FadeBy(decay), now)
      && PairOf(a, c)(eager) == Aged(PairGains(a, c), lessons, FadeBy(decay), now)
  {
    NoAge(decay);
    ExponentialIsEven(decay);
    TeachingGains(a, c);
    DecayingFades(decay, a, c);
    ReplayedIsAged(Teaching(), Decaying(decay), SupportOf(a), PathGains(a), FadeBy(decay), lessons);
    ReplayedIsAged(Teaching(), Decaying(decay), PairOf(a, c), PairGains(a, c), FadeBy(decay), lessons);
  }

  lemma TrueWeights(m: Model, eager: Model, a: string, c: string)
    requires eager == Unscaled(m)
    ensures Get(m.support, a) * m.scale == SupportOf(a)(eager) && Pair(m, a, c) * m.scale == PairOf(a, c)(eager)
  {
    MultipliedGets(m, m.scale);
    assert Get(eager.support, a) == Get(m.support, a) * m.scale;
    assert Pair(eager, a, c) == Pair(m, a, c) * m.scale;
  }

  // The true weights are the sums of everything ever gained, each gain faded by its own age.
  predicate WeighsAged(m: Model, lessons: seq<Lesson>, decay: DecayFactor, a: string, c: string)
    requires lessons != []
  {
    var now := lessons[|lessons| - 1].timestamp;
    && Get(m.support, a) * m.scale == Aged(PathGains(a), lessons, FadeBy(decay), now)
    && Pair(m, a, c) * m.scale == Aged(PairGains(a, c), lessons, FadeBy(decay), now)
  }

  lemma LazyIsAged(m: Model, lessons: seq<Lesson>, decay: DecayFactor, a: string, c: string)
    requires Unscaled(m) == EagerTrained(lessons, decay)
    requires lessons != [] && InOrder(lessons) && Exponential(decay) && a != c
    ensures WeighsAged(m, lessons, decay, a, c)
  {
    EagerIsReplayed(lessons, decay);
    EagerIsAged(lessons, decay, a, c);
    TrueWeights(m, Replayed(Teaching(), Decaying(decay), lessons), a, c);
  }

  // So it is in every history in the order of time, until the scale is renormalised.
  lemma WeightsAreAgedSums(lessons: seq<Lesson>, decay: DecayFactor, a: string, c: string)
    requires lessons != [] && InOrder(lessons) && Exponential(decay) && NeverRenormalises(lessons, decay) && a != c
    ensures WeighsAged(Trained(lessons, decay), lessons, decay, a, c)
  {
    LazyRefinesEager(lessons, decay);
    LazyIsAged(Trained(lessons, decay), lessons, decay, a, c);
  }

  // How a recorded intent counts: for itself, for another one, for no recorded one, for no
  // requested one.
  lemma IntentExactly(intent: string, other: string)
    ensures IntentFactor(Some(intent), Some(intent)) == 1.35
    ensures intent != other ==> IntentFactor(Some(other), Some(intent)) == 0.35
    ensures IntentFactor(None, Some(intent)) == 0.55
    ensures IntentFactor(Some(other), None) == IntentFactor(None, None) == 0.60
  {
  }

  // ---- Scores -------------------------------------------------------------------------------

  predicate Stored(m: Model, a: string, c: string) {
    a in m.cochange && c in m.cochange[a] && a in m.support && c in m.support
  }

  // The whole number nearest to a thousand times the association, at most one, times the
  // confidence in the true weight; halves go up.
  predicate ScoresBy(pair: real, supports: real, scale: real, score: int)
    requires pair > 0.0 && supports > 0.0 && scale > 0.0
  {
    var weight := Product(pair, scale);
    var dice := 2.0 * pair / supports;
    var exact := (if dice > 1.0 then 1.0 else dice) * (weight / (weight + 3.0)) * 1000.0;
    exact - 0.5 < score as real <= exact + 0.5
  }

  predicate Scores(m: Model, a: string, c: string, score: int)
    requires m.scale > 0.0
  {
    if Stored(m, a, c) && m.cochange[a][c] > 0.0 && m.support[a] + m.support[c] > 0.0
    then ScoresBy(m.cochange[a][c], m.support[a] + m.support[c], m.scale, score)
    else score == 0
  }

  lemma UnitProduct(x: real, y: real)
    requires 0.0 <= x <= 1.0 && 0.0 < y <= 1.0
    ensures 0.0 <= x * y && x * y <= 1.0
  {
    ProductOrder(0.0, x, y);
    assert 0.0 * y == 0.0;
    ProductOrder(x, 1.0, y);
    assert x * y <= 1.0 * y;
  }

  lemma NearestWhole(exact: real, score: int)
    requires 0.0 <= exact <= 1000.0
    ensures 0 <= Round(exact) <= 1000
    ensures score == Round(exact) <==> exact - 0.5 < score as real <= exact + 0.5
  {
  }

  lemma ScoreIsNearest(association: real, weight: real, score: int)
    requires association >= 0.0 && weight > 0.0
    ensures score == ScoreOf(association, weight) <==>
      var exact := (if association > 1.0 then 1.0 else association) * (weight / (weight + 3.0)) * 1000.0;
      exact - 0.5 < score as real <= exact + 0.5
  {
    var (capped, confidence) := (if association > 1.0 then 1.0 else association, weight / (weight + 3.0));
    UnitQuotient(weight, weight + 3.0);
    UnitProduct(capped, confidence);
    NearestWhole(capped * confidence * 1000.0, score);
  }

  lemma PairScoreExactly(m: Model, a: string, c: string, score: int)
    requires m.scale > 0.0
    ensures score == PairScore(m, a, c) <==> Scores(m, a, c, score)
  {
    if Stored(m, a, c) && m.cochange[a][c] > 0.0 && m.support[a] + m.support[c] > 0.0 {
      QuotientOrder(2.0 * m.cochange[a][c], 2.0 * m.cochange[a][c], m.support[a] + m.support[c]);
      ScoreIsNearest(Association(m, a, c), TrueWeight(Pair(m, a, c), m.scale), score);
    }
  }

  // ---- What is ranked -----------------------------------------------------------------------

  // A candidate's score is the sum of its scores with the anchors.
  lemma {:induction false} ScoresAddUp(m: Model, xs: seq<string>, ys: seq<string>, anchor: string, c: string)
    requires m.scale > 0.0
    ensures Combined(m, [], c) == 0 && Combined(m, [anchor], c) == PairScore(m, anchor, c)
    ensures Combined(m, xs + ys, c) == Combined(m, xs, c) + Combined(m, ys, c)
  {
    assert [anchor][1..] == [];
    if xs == [] {
      assert xs + ys == ys;
    } else {
      assert (xs + ys)[1..] == xs[1..] + ys;
      ScoresAddUp(m, xs[1..], ys, anchor, c);
    }
  }

  // What may be suggested for the anchors: what is no anchor and was seen with one.
  predicate Suggested(m: Model, anchors: seq<string>, c: string) {
    c !in anchors && exists i :: 0 <= i < |anchors| && anchors[i] in m.cochange && c in m.cochange[anchors[i]]
  }

  predicate Ahead(x: Scored, y: Scored) {
    x.score > y.score || (x.score == y.score && Text.Less(x.path, y.path))
  }

  // What is suggested and scores at all is listed, at its score but at most 1000.
  predicate Listed(m: Model, anchors: seq<string>, x: Scored)
    requires m.scale > 0.0
  {
    && Suggested(m, anchors, x.path) && 0 < x.score <= 1000
    && (if Combined(m, anchors, x.path) >= 1000 then x.score == 1000 else x.score == Combined(m, anchors, x.path))
  }

  // A ranking lists that, best first and by name where scores are equal.
  ghost predicate Ranking(m: Model, anchors: seq<string>, ranked: seq<Scored>)
    requires m.scale > 0.0
  {
    && (forall i, j :: 0 <= i < j < |ranked| ==> Ahead(ranked[i], ranked[j]))
    && forall x :: x in ranked <==> Listed(m, anchors, x)
  }

  lemma SuggestedExactly(m: Model, anchors: seq<string>, c: string)
    ensures Suggested(m, anchors, c) <==> c in Candidates(m, anchors)
  {
    if c in Candidates(m, anchors) {
      var a :| a in anchors && a in m.cochange && c in m.cochange[a] && c !in anchors;
      var i :| 0 <= i < |anchors| && anchors[i] == a;
    }
  }

  lemma RankedMembers(m: Model, anchors: seq<string>, x: Scored)
    requires m.scale > 0.0
    ensures x in RankedScores(m, anchors) <==> Listed(m, anchors, x)
  {
    SuggestedExactly(m, anchors, x.path);
    assert x in RankedScores(m, anchors) <==> x in Elements(RankedScores(m, anchors));
  }

  lemma UniqueRanking(m: Model, anchors: seq<string>, ranked: seq<Scored>, scores: seq<Scored>)
    requires m.scale > 0.0 && Increasing(scores, Better) && forall x :: x in scores <==> Listed(m, anchors, x)
    ensures ranked == scores <==> Ranking(m, anchors, ranked)
  {
    if Ranking(m, anchors, ranked) {
      assert Elements(ranked) == Elements(scores);
      BetterIsStrictTotal();
      IncreasingUnique(ranked, scores, Better);
    }
  }

  // There is exactly one ranking.
  lemma RankedExactly(m: Model, anchors: seq<string>, ranked: seq<Scored>)
    requires m.scale > 0.0
    ensures ranked == RankedScores(m, anchors) <==> Ranking(m, anchors, ranked)
  {
    forall x ensures x in RankedScores(m, anchors) <==> Listed(m, anchors, x) {
      RankedMembers(m, anchors, x);
    }
    UniqueRanking(m, anchors, ranked, RankedScores(m, anchors));
  }
}
