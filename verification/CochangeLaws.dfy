// Laws of the co-change model: the Dice association stays within [0, 1], the lazily
// scaled form agrees with a model that decays every weight, and where that agreement ends.
module CochangeLaws {
  import opened Wrappers
  import opened Sorting
  import opened Cochange

  // One verified change: what is learned from it at its time.
  datatype Lesson = Lesson(
    timestamp: nat, paths: seq<string>, context: seq<string>, level: string, factor: real, originalCount: nat)
  {
    // As the experience store provides it: normalised lists, possibly with dead paths filtered out.
    predicate Proper() {
      Distinct(paths) && Distinct(context) && factor <= 1.35
    }
  }

  function Taught(m: Model, l: Lesson): (after: Model)
    requires m.scale > 0.0
    ensures after.scale == m.scale && after.last == m.last
  {
    Trajectory(Learned(m, l.paths, l.level, l.originalCount), l.context, l.paths, l.level, l.factor)
  }

  function Trained(lessons: seq<Lesson>, decay: DecayFactor): (m: Model)
    ensures m.scale > 0.0
  {
    if lessons == [] then Empty()
    else
      var l := lessons[|lessons| - 1];
      Taught(Decayed(Trained(lessons[..|lessons| - 1], decay), l.timestamp, decay), l)
  }

  // ---- The Dice bound -------------------------------------------------------

  predicate NonNegative(w: Weights) {
    forall p :: p in w ==> w[p] >= 0.0
  }

  ghost predicate DiceBounded(m: Model) {
    && NonNegative(m.support) && (forall a :: a in m.cochange ==> NonNegative(m.cochange[a]))
    && forall a, c :: a != c ==> 2.0 * Pair(m, a, c) <= Get(m.support, a) + Get(m.support, c)
  }

  lemma BumpGets(m: Model, paths: set<string>, weight: real, anchors: set<string>, targets: set<string>, edge: real)
    ensures var after := Bump(m, paths, weight, anchors, targets, edge);
            && (forall p :: Get(after.support, p) == Get(m.support, p) + if p in paths then weight else 0.0)
            && (forall a, c :: Pair(after, a, c) ==
                  Pair(m, a, c) + if a in anchors && c in targets && c != a then edge else 0.0)
  {
    var after := Bump(m, paths, weight, anchors, targets, edge);
    forall a, c
      ensures Pair(after, a, c) == Pair(m, a, c) + if a in anchors && c in targets && c != a then edge else 0.0
    {
      if a in after.cochange {
        assert after.cochange[a] ==
          Raised(Row(m.cochange, a), if a in anchors then targets - {a} else {}, edge);
      }
    }
  }

  lemma BumpNonNegative(
    m: Model, paths: set<string>, weight: real, anchors: set<string>, targets: set<string>, edge: real)
    requires NonNegative(m.support) && (forall a :: a in m.cochange ==> NonNegative(m.cochange[a]))
    requires weight >= 0.0 && edge >= 0.0
    ensures var after := Bump(m, paths, weight, anchors, targets, edge);
            NonNegative(after.support) && forall a :: a in after.cochange ==> NonNegative(after.cochange[a])
  {
  }

  // Facts about exact division, stated through the product that defines it.
  lemma ProductOrder(p: real, q: real, n: real)
    requires p <= q && n > 0.0
    ensures p * n <= q * n
    ensures p < q ==> p * n < q * n
  {
  }

  lemma QuotientOrder(x: real, y: real, n: real)
    requires 0.0 <= x <= y && n > 0.0
    ensures 0.0 <= x / n <= y / n
    ensures x > 0.0 ==> x / n > 0.0
  {
    var p, q := x / n, y / n;
    assert p * n == x && q * n == y;
    if q < p { ProductOrder(q, p, n); }
    if p < 0.0 { ProductOrder(p, 0.0, n); }
  }

  lemma QuotientBelow(x: real, n: real)
    requires x >= 0.0 && n >= 1.0
    ensures 0.0 <= x / n <= x
    ensures n >= 2.0 ==> 2.0 * (x / n) <= x
  {
    var q := x / n;
    QuotientOrder(x, x, n);
    FactorBelow(q, n, x);
  }

  lemma FactorBelow(q: real, n: real, x: real)
    requires q >= 0.0 && n >= 1.0 && q * n == x
    ensures q <= x
    ensures n >= 2.0 ==> 2.0 * q <= x
  {
    ProductMonotone(q, 1.0, n);
    if n >= 2.0 { ProductMonotone(q, 2.0, n); }
  }

  lemma ProductMonotone(q: real, m: real, n: real)
    requires q >= 0.0 && m <= n
    ensures q * m <= q * n
  {
  }

  lemma UnitQuotient(x: real, d: real)
    requires 0.0 <= x <= d && d > 0.0
    ensures 0.0 <= x / d <= 1.0
  {
    QuotientOrder(x, d, d);
    assert (d / d) * d == d;
  }

  // A trajectory weight never exceeds the weight just learned for the changed paths.
  lemma TrajectoryIsLighter(level: string, factor: real, scale: real)
    requires scale > 0.0 && 0.0 < factor <= 1.35
    ensures 0.0 < TrajectoryWeight(level, factor, scale) <= LevelWeight(level) / scale
  {
    var k := LevelWeight(level);
    assert k == 1.0 || k == 3.0;
    QuotientOrder(k * TRAJECTORY_WEIGHT * factor, k, scale);
  }

  // Learning the changed paths: no pair gains more than a path does.
  lemma LearnedIsBump(m: Model, l: Lesson) returns (w: real, e: real)
    requires m.scale > 0.0
    ensures w == LevelWeight(l.level) / m.scale && 0.0 <= e <= w && (l.originalCount <= 2 ==> e == w)
    ensures Learned(m, l.paths, l.level, l.originalCount) ==
      Bump(m, Elements(l.paths), w, if |l.paths| < 2 then {} else Elements(l.paths), Elements(l.paths), e)
  {
    w := LevelWeight(l.level) / m.scale;
    e := w / Breadth(l.originalCount);
    QuotientOrder(LevelWeight(l.level), LevelWeight(l.level), m.scale);
    QuotientBelow(w, Breadth(l.originalCount));
  }

  // Learning the trajectory: a lighter weight, halved over two or more changed paths.
  lemma TrajectoryIsBump(m: Model, l: Lesson) returns (context: set<string>, t: real, e: real)
    requires m.scale > 0.0 && l.factor <= 1.35
    ensures 0.0 <= t <= LevelWeight(l.level) / m.scale && 0.0 <= e <= t && (|l.paths| >= 2 ==> 2.0 * e <= t)
    ensures context == if l.paths == [] || l.factor <= 0.0 then {} else Elements(l.context)
    ensures |l.paths| == 2 ==> 2.0 * e == t
    ensures Trajectory(m, l.context, l.paths, l.level, l.factor) ==
      Bump(m, context, t, context, Elements(l.paths), e)
  {
    if l.context == [] || l.paths == [] || l.factor <= 0.0 {
      context, t, e := {}, 0.0, 0.0;
      EmptyContext(l.context);
      QuotientOrder(LevelWeight(l.level), LevelWeight(l.level), m.scale);
      RaisedNothing(m.cochange, Elements(l.paths), 0.0);
      assert Raised(m.support, {}, 0.0) == m.support;
    } else {
      context, t := Elements(l.context), TrajectoryWeight(l.level, l.factor, m.scale);
      e := t / (|l.paths| as real);
      TrajectoryIsLighter(l.level, l.factor, m.scale);
      Shares(t, |l.paths|, e);
    }
  }

  lemma Shares(t: real, n: nat, e: real)
    requires t >= 0.0 && n >= 1 && e == t / (n as real)
    ensures 0.0 <= e <= t && (n >= 2 ==> 2.0 * e <= t) && (n == 2 ==> 2.0 * e == t)
  {
    QuotientBelow(t, n as real);
    assert n == 2 ==> e == t / 2.0;
  }

  lemma EmptyContext(s: seq<string>)
    ensures s == [] ==> Elements(s) == {}
  {
  }

  // One lesson adds to every ordered pair at most half of what it adds to the two supports.
  lemma LessonKeepsDice(m: Model, l: Lesson)
    requires m.scale > 0.0 && DiceBounded(m) && l.Proper()
    ensures DiceBounded(Taught(m, l))
  {
    var paths := Elements(l.paths);
    var w, e := LearnedIsBump(m, l);
    var m1 := Learned(m, l.paths, l.level, l.originalCount);
    var context, t, f := TrajectoryIsBump(m1, l);
    var m2 := Taught(m, l);
    var anchors := if |l.paths| < 2 then {} else paths;
    BumpNonNegative(m, paths, w, anchors, paths, e);
    BumpNonNegative(m1, context, t, context, paths, f);
    forall a, c | a != c ensures 2.0 * Pair(m2, a, c) <= Get(m2.support, a) + Get(m2.support, c) {
      assert 2.0 * Pair(m, a, c) <= Get(m.support, a) + Get(m.support, c);
      if a in paths && c in paths {
        TwoMembers(l.paths, a, c);
      }
      TwoBumpsKeepPair(m, paths, w, anchors, e, context, t, f, a, c);
    }
  }

  lemma TwoBumpsKeepPair(
    m: Model, paths: set<string>, w: real, anchors: set<string>, e: real, context: set<string>, t: real, f: real,
    a: string, c: string)
    requires a != c && 2.0 * Pair(m, a, c) <= Get(m.support, a) + Get(m.support, c)
    requires 0.0 <= e <= w && 0.0 <= t <= w && 0.0 <= f <= t && anchors <= paths
    requires a in paths && c in paths ==> 2.0 * f <= t
    ensures var m2 := Bump(Bump(m, paths, w, anchors, paths, e), context, t, context, paths, f);
            2.0 * Pair(m2, a, c) <= Get(m2.support, a) + Get(m2.support, c)
  {
    BumpGets(m, paths, w, anchors, paths, e);
    BumpGets(Bump(m, paths, w, anchors, paths, e), context, t, context, paths, f);
  }

  lemma TwoMembers(s: seq<string>, a: string, c: string)
    requires a in s && c in s && a != c
    ensures |s| >= 2
  {
    var i :| 0 <= i < |s| && s[i] == a;
    var j :| 0 <= j < |s| && s[j] == c;
  }

  lemma MultiplyKeepsDice(m: Model, k: real)
    requires DiceBounded(m) && k > 0.0
    ensures DiceBounded(Multiplied(m, k))
  {
    forall p | p in m.support ensures m.support[p] * k >= 0.0 { ProductOrder(0.0, m.support[p], k); }
    forall a, c | a in m.cochange && c in m.cochange[a] ensures m.cochange[a][c] * k >= 0.0 {
      ProductOrder(0.0, m.cochange[a][c], k);
    }
    forall a, c | a != c
      ensures 2.0 * Pair(Multiplied(m, k), a, c) <= Get(Multiplied(m, k).support, a) + Get(Multiplied(m, k).support, c)
    {
      MultipliedPair(m, k, a, c);
    }
  }

  lemma MultipliedPair(m: Model, k: real, a: string, c: string)
    requires 2.0 * Pair(m, a, c) <= Get(m.support, a) + Get(m.support, c) && k > 0.0
    ensures var after := Multiplied(m, k);
            2.0 * Pair(after, a, c) <= Get(after.support, a) + Get(after.support, c)
  {
    var after := Multiplied(m, k);
    MultipliedGets(m, k);
    ScaledSum(Pair(m, a, c), Get(m.support, a), Get(m.support, c), k,
              Pair(after, a, c), Get(after.support, a), Get(after.support, c));
  }

  lemma MultipliedGets(m: Model, k: real)
    ensures forall p :: Get(Multiplied(m, k).support, p) == Get(m.support, p) * k
    ensures forall a, c :: Pair(Multiplied(m, k), a, c) == Pair(m, a, c) * k
  {
  }

  lemma ScaledSum(x: real, y: real, z: real, k: real, kx: real, ky: real, kz: real)
    requires 2.0 * x <= y + z && k > 0.0 && kx == x * k && ky == y * k && kz == z * k
    ensures 2.0 * kx <= ky + kz
  {
    ProductOrder(2.0 * x, y + z, k);
  }

  lemma DecayKeepsDice(m: Model, now: nat, decay: DecayFactor)
    requires m.scale > 0.0 && DiceBounded(m)
    ensures DiceBounded(Decayed(m, now, decay))
  {
    if m.last.Some? && now > m.last.value {
      var scale := Product(m.scale, decay(now - m.last.value));
      if scale < RENORMALISE_BELOW {
        QuotientOrder(1.0, 1.0, scale);
        MultiplyKeepsDice(m, 1.0 / scale);
      }
    }
  }

  // Over any history of lessons and any decays, twice a pair's weight never exceeds the
  // supports of its two paths.
  lemma {:induction false} DiceBound(lessons: seq<Lesson>, decay: DecayFactor)
    requires forall l :: l in lessons ==> l.Proper()
    ensures DiceBounded(Trained(lessons, decay))
  {
    if lessons != [] {
      var init, l := lessons[..|lessons| - 1], lessons[|lessons| - 1];
      DiceBound(init, decay);
      DecayKeepsDice(Trained(init, decay), l.timestamp, decay);
      LessonKeepsDice(Decayed(Trained(init, decay), l.timestamp, decay), l);
    }
  }

  lemma BoundedAssociation(m: Model, a: string, c: string)
    requires DiceBounded(m) && a != c && Get(m.support, a) + Get(m.support, c) > 0.0
    ensures 0.0 <= Association(m, a, c) <= 1.0
  {
    UnitQuotient(2.0 * Pair(m, a, c), Get(m.support, a) + Get(m.support, c));
  }

  // So the clamp on the association never acts.
  lemma AssociationNeverClamped(lessons: seq<Lesson>, decay: DecayFactor, a: string, c: string)
    requires (forall l :: l in lessons ==> l.Proper()) && a != c
    requires Get(Trained(lessons, decay).support, a) + Get(Trained(lessons, decay).support, c) > 0.0
    ensures var association := Association(Trained(lessons, decay), a, c);
            Clamp(association, 0.0, 1.0) == association
  {
    DiceBound(lessons, decay);
    BoundedAssociation(Trained(lessons, decay), a, c);
  }

  // The bound cannot be improved: two paths that only ever change together reach it, with
  // the change's own paths as its context and any intent factor.
  lemma DiceBoundIsTight(decay: DecayFactor, level: string, factor: real)
    requires 0.0 < factor <= 1.35
    ensures var l := Lesson(0, ["a", "b"], ["a"], level, factor, 2);
            var m := Trained([l], decay);
            l.Proper() && 2.0 * Pair(m, "a", "b") == Get(m.support, "a") + Get(m.support, "b")
  {
    var l := Lesson(0, ["a", "b"], ["a"], level, factor, 2);
    assert "a"[0] != "b"[0];
    assert Trained([l][..0], decay) == Empty();
    var m := Decayed(Empty(), 0, decay);
    TightLesson(m, l);
  }

  // On an empty model such a lesson gives the pair exactly half of the two supports.
  lemma TightLesson(m: Model, l: Lesson)
    requires m.scale > 0.0 && m.support == map[] && m.cochange == map[]
    requires |l.paths| == l.originalCount == 2 && l.Proper() && l.context == [l.paths[0]] && 0.0 < l.factor
    ensures var (a, c) := (l.paths[0], l.paths[1]);
            var after := Taught(m, l);
            2.0 * Pair(after, a, c) == Get(after.support, a) + Get(after.support, c)
  {
    var w, f := LearnedIsBump(m, l);
    var context, t, e := TrajectoryIsBump(Learned(m, l.paths, l.level, 2), l);
    assert l.paths == [l.paths[0], l.paths[1]];
    TightBumps(m, l.paths[0], l.paths[1], w, t, e);
  }

  lemma TightBumps(m: Model, a: string, c: string, w: real, t: real, e: real)
    requires m.support == map[] && m.cochange == map[] && a != c && 2.0 * e == t
    ensures var paths := Elements([a, c]);
            var after := Bump(Bump(m, paths, w, paths, paths, w), Elements([a]), t, Elements([a]), paths, e);
            2.0 * Pair(after, a, c) == Get(after.support, a) + Get(after.support, c)
  {
    var paths := Elements([a, c]);
    assert a in [a, c] && c in [a, c] && a in [a] && c !in [a];
    var m1 := Bump(m, paths, w, paths, paths, w);
    BumpGets(m, paths, w, paths, paths, w);
    assert Pair(m1, a, c) == w && Get(m1.support, a) == w && Get(m1.support, c) == w;
    BumpGets(m1, Elements([a]), t, Elements([a]), paths, e);
  }
}
