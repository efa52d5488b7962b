// The lazily scaled model against an eager one that decays every weight at every step.
module CochangeRefinement {
  import opened Wrappers
  import opened Sorting
  import opened Cochange
  import opened CochangeLaws

  // The eager reference: scale is always one and time multiplies every weight.
  function EagerDecayed(m: Model, now: nat, decay: DecayFactor): Model {
    if m.last.None? then m.(last := Some(now))
    else if now <= m.last.value then m
    else Multiplied(m, decay(now - m.last.value)).(last := Some(now))
  }

  function EagerTrained(lessons: seq<Lesson>, decay: DecayFactor): (m: Model)
    ensures m.scale == 1.0
  {
    if lessons == [] then Empty()
    else
      var l := lessons[|lessons| - 1];
      Taught(EagerDecayed(EagerTrained(lessons[..|lessons| - 1], decay), l.timestamp, decay), l)
  }

  // The eager model that a lazy one stands for.
  function Unscaled(m: Model): Model {
    Multiplied(m, m.scale).(scale := 1.0)
  }

  ghost predicate Renormalises(m: Model, now: nat, decay: DecayFactor)
    requires m.scale > 0.0
  {
    m.last.Some? && now > m.last.value && Product(m.scale, decay(now - m.last.value)) < 0.000000000001
  }

  lemma TimesTimes(w: Weights, j: real, k: real, jk: real)
    requires jk == j * k
    ensures Times(Times(w, j), k) == Times(w, jk)
  {
    forall p | p in w ensures Times(Times(w, j), k)[p] == Times(w, jk)[p] {
      var wj := Times(w, j);
      var x := wj[p];
      assert x == w[p] * j;
      assert Times(wj, k)[p] == x * k;
      Associates(w[p], j, k, jk, x);
    }
  }

  lemma Associates(x: real, j: real, k: real, jk: real, xj: real)
    requires jk == j * k && xj == x * j
    ensures xj * k == x * jk
  {
    assert (x * j) * k == x * (j * k);
  }

  lemma TimesTimesRows(rows: Rows, j: real, k: real, jk: real)
    requires jk == j * k
    ensures TimesRows(TimesRows(rows, j), k) == TimesRows(rows, jk)
  {
    forall a | a in rows ensures Times(Times(rows[a], j), k) == Times(rows[a], jk) {
      TimesTimes(rows[a], j, k, jk);
    }
  }

  lemma LazyDecay(m: Model, now: nat, decay: DecayFactor)
    requires m.scale > 0.0 && !Renormalises(m, now, decay)
    ensures Unscaled(Decayed(m, now, decay)) == EagerDecayed(Unscaled(m), now, decay)
  {
    if m.last.Some? && now > m.last.value {
      var factor := decay(now - m.last.value);
      var scale := Product(m.scale, factor);
      TimesTimes(m.support, m.scale, factor, scale);
      TimesTimesRows(m.cochange, m.scale, factor, scale);
    }
  }

  // ---- Learning -------------------------------------------------------------

  lemma RaisedTimes(w: Weights, keys: set<string>, delta: real, k: real, kdelta: real)
    requires kdelta == delta * k
    ensures Times(Raised(w, keys, delta), k) == Raised(Times(w, k), keys, kdelta)
  {
    var lhs, rhs := Times(Raised(w, keys, delta), k), Raised(Times(w, k), keys, kdelta);
    assert lhs.Keys == rhs.Keys;
    forall p | p in lhs ensures lhs[p] == rhs[p] {
      RaisedTimesAt(w, keys, delta, k, kdelta, p);
    }
  }

  lemma RaisedTimesAt(w: Weights, keys: set<string>, delta: real, k: real, kdelta: real, p: string)
    requires kdelta == delta * k && p in w.Keys + keys
    ensures Times(Raised(w, keys, delta), k)[p] == Raised(Times(w, k), keys, kdelta)[p]
  {
    if p in keys && p in w {
      RaisedBoth(w, keys, delta, k, kdelta, p);
    } else {
      assert Raised(w, keys, delta)[p] == if p in keys then delta else w[p];
    }
  }

  lemma RaisedBoth(w: Weights, keys: set<string>, delta: real, k: real, kdelta: real, p: string)
    requires kdelta == delta * k && p in w && p in keys
    ensures Times(Raised(w, keys, delta), k)[p] == Raised(Times(w, k), keys, kdelta)[p]
  {
    assert Raised(w, keys, delta)[p] == w[p] + delta;
    assert Raised(Times(w, k), keys, kdelta)[p] == Times(w, k)[p] + kdelta;
    SumTimes(w[p], delta, Raised(w, keys, delta)[p], k, Times(w, k)[p], kdelta);
  }

  lemma SumTimes(x: real, y: real, sum: real, k: real, kx: real, ky: real)
    requires sum == x + y && kx == x * k && ky == y * k
    ensures sum * k == kx + ky
  {
    assert sum * k == (x + y) * k;
  }

  lemma Distributes(x: real, y: real, k: real)
    ensures (x + y) * k == x * k + y * k
  {
  }

  lemma RaisedRowsTimes(rows: Rows, anchors: set<string>, targets: set<string>, delta: real, k: real, kdelta: real)
    requires kdelta == delta * k
    ensures TimesRows(RaisedRows(rows, anchors, targets, delta), k) ==
              RaisedRows(TimesRows(rows, k), anchors, targets, kdelta)
  {
    var lhs := TimesRows(RaisedRows(rows, anchors, targets, delta), k);
    var rhs := RaisedRows(TimesRows(rows, k), anchors, targets, kdelta);
    assert lhs.Keys == rhs.Keys;
    forall a | a in lhs ensures lhs[a] == rhs[a] {
      var keys := if a in anchors then targets - {a} else {};
      RowTimes(rows, a, k);
      RaisedTimes(Row(rows, a), keys, delta, k, kdelta);
    }
  }

  lemma RowTimes(rows: Rows, a: string, k: real)
    ensures Row(TimesRows(rows, k), a) == Times(Row(rows, a), k)
  {
  }

  // A weight divided by the scale when stored is the true weight when unscaled.
  lemma LazyBump(
    m: Model, paths: set<string>, weight: real, anchors: set<string>, targets: set<string>, edge: real,
    trueWeight: real, trueEdge: real)
    requires trueWeight == weight * m.scale && trueEdge == edge * m.scale
    ensures Unscaled(Bump(m, paths, weight, anchors, targets, edge)) ==
      Bump(Unscaled(m), paths, trueWeight, anchors, targets, trueEdge)
  {
    RaisedTimes(m.support, paths, weight, m.scale, trueWeight);
    RaisedRowsTimes(m.cochange, anchors, targets, edge, m.scale, trueEdge);
  }

  lemma ScaledQuotient(x: real, n: real, s: real)
    requires s > 0.0 && n > 0.0
    ensures (x / s) * s == x / 1.0
    ensures ((x / s) / n) * s == (x / 1.0) / n
  {
    var q := x / s;
    assert q * s == x;
    var (e, f) := (q / n, x / n);
    assert e * n == q && f * n == x;
    assert (e * s) * n == (e * n) * s;
    SameQuotient(e * s, f, n);
  }

  lemma SameQuotient(p: real, q: real, n: real)
    requires n > 0.0 && p * n == q * n
    ensures p == q
  {
    if p < q { ProductOrder(p, q, n); } else if q < p { ProductOrder(q, p, n); }
  }

  lemma LazyLearn(m: Model, paths: seq<string>, level: string, originalCount: nat)
    requires m.scale > 0.0
    ensures Unscaled(Learned(m, paths, level, originalCount)) == Learned(Unscaled(m), paths, level, originalCount)
  {
    var k, b := LevelWeight(level), Breadth(originalCount);
    ScaledQuotient(k, b, m.scale);
    LazyBump(m, Elements(paths), k / m.scale, if |paths| < 2 then {} else Elements(paths), Elements(paths),
             (k / m.scale) / b, k / 1.0, (k / 1.0) / b);
  }

  lemma LazyTrajectory(m: Model, context: seq<string>, changed: seq<string>, level: string, factor: real)
    requires m.scale > 0.0
    ensures Unscaled(Trajectory(m, context, changed, level, factor)) ==
      Trajectory(Unscaled(m), context, changed, level, factor)
  {
    if context != [] && changed != [] && factor > 0.0 {
      var n := |changed| as real;
      ScaledQuotient(LevelWeight(level) * TRAJECTORY_WEIGHT * factor, n, m.scale);
      var (t, u) := (TrajectoryWeight(level, factor, m.scale), TrajectoryWeight(level, factor, 1.0));
      LazyBump(m, Elements(context), t, Elements(context), Elements(changed), t / n, u, u / n);
    }
  }

  lemma LazyLesson(m: Model, l: Lesson)
    requires m.scale > 0.0
    ensures Unscaled(Taught(m, l)) == Taught(Unscaled(m), l)
  {
    LazyLearn(m, l.paths, l.level, l.originalCount);
    LazyTrajectory(Learned(m, l.paths, l.level, l.originalCount), l.context, l.paths, l.level, l.factor);
  }

  // ---- Scores ---------------------------------------------------------------

  lemma AssociationCancels(m: Model, k: real, a: string, c: string)
    requires k > 0.0 && Get(m.support, a) + Get(m.support, c) > 0.0
    ensures Get(Multiplied(m, k).support, a) + Get(Multiplied(m, k).support, c) > 0.0
    ensures Association(Multiplied(m, k), a, c) == Association(m, a, c)
  {
    MultipliedGets(m, k);
    var x, d := 2.0 * Pair(m, a, c), Get(m.support, a) + Get(m.support, c);
    Distributes(Get(m.support, a), Get(m.support, c), k);
    ProductOrder(0.0, d, k);
    RatioCancels(x, d, k, 2.0 * Pair(Multiplied(m, k), a, c),
                 Get(Multiplied(m, k).support, a) + Get(Multiplied(m, k).support, c));
  }

  lemma RatioCancels(x: real, d: real, k: real, kx: real, kd: real)
    requires d > 0.0 && k > 0.0 && kx == x * k && kd == d * k && kd > 0.0
    ensures kx / kd == x / d
  {
    var q, r := x / d, kx / kd;
    assert q * d == x && r * kd == kx;
    assert q * kd == (q * d) * k;
    SameQuotient(r, q, kd);
  }

  lemma ScoreUnscaled(m: Model, a: string, c: string)
    requires m.scale > 0.0
    ensures PairScore(m, a, c) == PairScore(Unscaled(m), a, c)
  {
    if a in m.cochange && c in m.cochange[a] && a in m.support && c in m.support {
      UnscaledGets(m, a, c);
      if m.support[a] + m.support[c] > 0.0 && Pair(m, a, c) > 0.0 {
        AssociationCancels(m, m.scale, a, c);
        SameAssociation(Multiplied(m, m.scale), Unscaled(m), a, c);
        assert TrueWeight(Pair(m, a, c), m.scale) == TrueWeight(Pair(Unscaled(m), a, c), 1.0);
      }
    }
  }

  lemma SameAssociation(m: Model, n: Model, a: string, c: string)
    requires m.support == n.support && m.cochange == n.cochange && Get(m.support, a) + Get(m.support, c) > 0.0
    ensures Association(m, a, c) == Association(n, a, c)
  {
    assert Pair(m, a, c) == Pair(n, a, c);
  }

  lemma UnscaledGets(m: Model, a: string, c: string)
    requires m.scale > 0.0 && a in m.cochange && c in m.cochange[a] && a in m.support && c in m.support
    ensures var u := Unscaled(m);
            && u.cochange.Keys == m.cochange.Keys && u.cochange[a].Keys == m.cochange[a].Keys
            && u.support.Keys == m.support.Keys
            && Pair(u, a, c) == Pair(m, a, c) * m.scale
            && (Pair(u, a, c) > 0.0 <==> Pair(m, a, c) > 0.0)
            && (u.support[a] + u.support[c] > 0.0 <==> m.support[a] + m.support[c] > 0.0)
  {
    var u := Unscaled(m);
    SumSign(m.support[a], m.support[c], m.scale, u.support[a], u.support[c]);
    SameSign(Pair(m, a, c), m.scale);
  }

  lemma SumSign(x: real, y: real, k: real, kx: real, ky: real)
    requires k > 0.0 && kx == x * k && ky == y * k
    ensures kx + ky > 0.0 <==> x + y > 0.0
  {
    SumTimes(x, y, x + y, k, kx, ky);
    SameSign(x + y, k);
  }

  lemma SameSign(x: real, k: real)
    requires k > 0.0
    ensures x > 0.0 <==> x * k > 0.0
  {
    if x <= 0.0 { ProductOrder(x, 0.0, k); } else { ProductOrder(0.0, x, k); }
  }

  // ---- Refinement over runs -------------------------------------------------

  ghost predicate NeverRenormalises(lessons: seq<Lesson>, decay: DecayFactor)
  {
    forall i :: 0 <= i < |lessons| ==> !Renormalises(Trained(lessons[..i], decay), lessons[i].timestamp, decay)
  }

  lemma {:induction false} LazyRefinesEager(lessons: seq<Lesson>, decay: DecayFactor)
    requires NeverRenormalises(lessons, decay)
    ensures Unscaled(Trained(lessons, decay)) == EagerTrained(lessons, decay)
  {
    if lessons == [] {
      assert Times(map[], 1.0) == map[] && TimesRows(map[], 1.0) == map[];
    } else {
      var n := |lessons| - 1;
      var init, l := lessons[..n], lessons[n];
      assert forall i :: 0 <= i < n ==> init[..i] == lessons[..i];
      LazyRefinesEager(init, decay);
      LazyDecay(Trained(init, decay), l.timestamp, decay);
      LazyLesson(Decayed(Trained(init, decay), l.timestamp, decay), l);
    }
  }

  // Without renormalisation every pair scores what the eager model says.
  lemma LazyScoresAgree(lessons: seq<Lesson>, decay: DecayFactor, a: string, c: string)
    requires NeverRenormalises(lessons, decay)
    ensures PairScore(Trained(lessons, decay), a, c) == PairScore(EagerTrained(lessons, decay), a, c)
  {
    LazyRefinesEager(lessons, decay);
    ScoreUnscaled(Trained(lessons, decay), a, c);
  }

  // ---- Where the agreement ends ---------------------------------------------

  predicate Weightless(m: Model) {
    (forall p :: p in m.support ==> m.support[p] == 0.0)
    && forall a, c :: a in m.cochange && c in m.cochange[a] ==> m.cochange[a][c] == 0.0
  }

  // What a renormalising step leaves in the lazy model, and what decay alone would leave.
  lemma RenormalisedForm(m: Model, now: nat, decay: DecayFactor) returns (s: real, k: real)
    requires m.scale > 0.0 && Renormalises(m, now, decay)
    ensures s == Product(m.scale, decay(now - m.last.value)) && 0.0 < s < RENORMALISE_BELOW && k * s == 1.0
    ensures var lazy := Unscaled(Decayed(m, now, decay));
            lazy.support == Times(m.support, k) && lazy.cochange == TimesRows(m.cochange, k)
    ensures var eager := EagerDecayed(Unscaled(m), now, decay);
            eager.support == Times(m.support, s) && eager.cochange == TimesRows(m.cochange, s)
    ensures Decayed(m, now, decay).last == Some(now) && Decayed(m, now, decay).scale == 1.0
    ensures Decayed(m, now, decay).support == Times(m.support, k)
    ensures Decayed(m, now, decay).cochange == TimesRows(m.cochange, k)
  {
    var factor := decay(now - m.last.value);
    s := Product(m.scale, factor);
    k := 1.0 / s;
    TimesTimes(m.support, m.scale, factor, s);
    TimesTimesRows(m.cochange, m.scale, factor, s);
    TimesTimes(m.support, k, 1.0, k);
    TimesTimesRows(m.cochange, k, 1.0, k);
  }

  // A decay step keeps the lazy model faithful exactly when it does not renormalise, unless
  // there is no weight to distort: renormalisation multiplies weights it should leave alone.
  lemma DecayFaithfulExactly(m: Model, now: nat, decay: DecayFactor)
    requires m.scale > 0.0
    ensures Unscaled(Decayed(m, now, decay)) == EagerDecayed(Unscaled(m), now, decay)
       <==> !Renormalises(m, now, decay) || Weightless(m)
  {
    if Renormalises(m, now, decay) {
      var s, k := RenormalisedForm(m, now, decay);
      DistortedWeights(m.support, s, k);
      DistortedRows(m.cochange, s, k);
    } else {
      LazyDecay(m, now, decay);
    }
  }

  lemma DistortedWeights(w: Weights, s: real, k: real)
    requires 0.0 < s < 1.0 && k * s == 1.0
    ensures Times(w, k) == Times(w, s) <==> forall p :: p in w ==> w[p] == 0.0
  {
    forall p | p in w ensures Times(w, k)[p] == Times(w, s)[p] <==> w[p] == 0.0 {
      Distorted(w[p], s, k);
    }
  }

  lemma DistortedRows(rows: Rows, s: real, k: real)
    requires 0.0 < s < 1.0 && k * s == 1.0
    ensures TimesRows(rows, k) == TimesRows(rows, s) <==> forall a, c :: a in rows && c in rows[a] ==> rows[a][c] == 0.0
  {
    forall a | a in rows
      ensures TimesRows(rows, k)[a] == TimesRows(rows, s)[a] <==> forall c :: c in rows[a] ==> rows[a][c] == 0.0
    {
      DistortedWeights(rows[a], s, k);
    }
  }

  lemma Distorted(x: real, s: real, k: real)
    requires 0.0 < s < 1.0 && k * s == 1.0
    ensures x * k == x * s <==> x == 0.0
  {
    if k <= 1.0 { ProductOrder(k, 1.0, s); }
    if x > 0.0 { StrictlyAbove(x, s, k); }
    if x < 0.0 { StrictlyAbove(-x, s, k); }
  }

  lemma StrictlyAbove(x: real, s: real, k: real)
    requires x > 0.0 && s < k
    ensures x * s < x * k
  {
    ProductOrder(s, k, x);
  }

  // Renormalisation preserves every association; what it does not preserve is confidence.
  lemma RenormalisationKeepsAssociation(m: Model, now: nat, decay: DecayFactor, a: string, c: string)
    requires m.scale > 0.0 && Get(m.support, a) + Get(m.support, c) > 0.0
    ensures var after := Decayed(m, now, decay);
            Get(after.support, a) + Get(after.support, c) > 0.0 && Association(after, a, c) == Association(m, a, c)
  {
    if m.last.Some? && now > m.last.value {
      var scale := Product(m.scale, decay(now - m.last.value));
      QuotientOrder(1.0, 1.0, scale);
      AssociationCancels(m, 1.0 / scale, a, c);
    }
  }

  const HALF_LIFE_MS: nat := 2592000000
  const LONG_AGE := 41 * HALF_LIFE_MS
  const TO_THE_41: real := 2199023255552.0

  function LoneHistory(): seq<Lesson> {
    [Lesson(0, ["a", "b"], [], "full", 0.6, 2)]
  }

  // Two paths changed together once, then forgotten over 41 half-lives: the eager model
  // scores them 0, the renormalised one 1000, so the ranking does change.
  lemma RenormalisationRevives(decay: DecayFactor)
    requires decay(LONG_AGE) * TO_THE_41 == 1.0
    ensures var m := Trained(LoneHistory(), decay);
            && PairScore(EagerDecayed(Unscaled(m), LONG_AGE, decay), "a", "b") == 0
            && PairScore(Decayed(m, LONG_AGE, decay), "a", "b") == 1000
  {
    var m := OneLesson(decay);
    LoneScores(m, LONG_AGE, decay);
  }

  predicate LoneTriple(m: Model) {
    && "a" in m.support && "b" in m.support && "a" in m.cochange && "b" in m.cochange["a"]
    && m.support["a"] == m.support["b"] == m.cochange["a"]["b"] == 3.0
  }

  lemma LoneScores(m: Model, age: nat, decay: DecayFactor)
    requires LoneTriple(m) && m.last == Some(0) && m.scale == 1.0
    requires age > 0 && decay(age) * TO_THE_41 == 1.0
    ensures PairScore(EagerDecayed(Unscaled(m), age, decay), "a", "b") == 0
    ensures PairScore(Decayed(m, age, decay), "a", "b") == 1000
  {
    var s, k := RenormalisedForm(m, age, decay);
    FaintInverse(s, k, decay(age));
    TripleTimes(m.support, m.cochange, s);
    TripleTimes(m.support, m.cochange, k);
    LonePairScore(EagerDecayed(Unscaled(m), age, decay), "a", "b", 3.0 * FAINT);
    LonePairScore(Decayed(m, age, decay), "a", "b", 3.0 * TO_THE_41);
    FaintAndStrong();
  }

  const FAINT: real := 0.00000000000045474735088646411895751953125

  lemma FaintInverse(s: real, k: real, factor: real)
    requires factor * TO_THE_41 == 1.0 && s == 1.0 * factor && k * s == 1.0
    ensures s == FAINT && k == TO_THE_41
  {
  }

  lemma TripleTimes(support: Weights, rows: Rows, k: real)
    requires "a" in support && "b" in support && "a" in rows && "b" in rows["a"]
    requires support["a"] == support["b"] == rows["a"]["b"] == 3.0
    ensures Times(support, k)["a"] == Times(support, k)["b"] == TimesRows(rows, k)["a"]["b"] == 3.0 * k
  {
  }

  lemma OneLesson(decay: DecayFactor) returns (m: Model)
    ensures m == Trained(LoneHistory(), decay)
    ensures m.last == Some(0) && m.scale == 1.0 && "a" in m.cochange && "b" in m.cochange["a"]
    ensures "a" in m.support && "b" in m.support
    ensures m.support["a"] == 3.0 && m.support["b"] == 3.0 && m.cochange["a"]["b"] == 3.0
  {
    var l := Lesson(0, ["a", "b"], [], "full", 0.6, 2);
    m := Trained(LoneHistory(), decay);
    assert Trained(LoneHistory()[..0], decay) == Empty();
    assert "a"[0] != "b"[0];
    assert l.paths[0] in Elements(l.paths) && l.paths[1] in Elements(l.paths);
  }

  // Two paths that only ever changed together score by confidence alone.
  lemma LonePairScore(m: Model, a: string, c: string, x: real)
    requires m.scale == 1.0 && x > 0.0 && a in m.support && c in m.support && m.support[a] == m.support[c] == x
    requires a in m.cochange && c in m.cochange[a] && m.cochange[a][c] == x
    ensures PairScore(m, a, c) == ScoreOf(1.0, x)
  {
    SameQuotient(Association(m, a, c), 1.0, x + x);
  }

  lemma FaintAndStrong()
    ensures ScoreOf(1.0, 3.0 * FAINT) == 0 && ScoreOf(1.0, 3.0 * TO_THE_41) == 1000
  {
  }
}
