// The verified co-change model: time-decayed path supports and pair weights, kept in a
// lazily scaled form. Floating point is modelled by exact reals.
module Cochange {
  import opened Wrappers
  import opened Sorting
  import Text

  const TRAJECTORY_WEIGHT: real := 0.45
  const SCORE_SCALE: real := 1000.0
  const CONFIDENCE_PRIOR: real := 3.0
  const RENORMALISE_BELOW: real := 0.000000000001

  type Weights = map<string, real>
  type Rows = map<string, Weights>

  // Stored weights are true weights divided by `scale`.
  datatype Model = Model(last: Option<nat>, support: Weights, cochange: Rows, scale: real)

  function Empty(): Model {
    Model(None, map[], map[], 1.0)
  }

  function Get(w: Weights, key: string): real {
    if key in w then w[key] else 0.0
  }

  function Row(rows: Rows, anchor: string): Weights {
    if anchor in rows then rows[anchor] else map[]
  }

  function Pair(m: Model, anchor: string, candidate: string): real {
    Get(Row(m.cochange, anchor), candidate)
  }

  // `decay` is the weight that remains after an age; the program halves it every thirty days.
  type DecayFactor = decay: nat -> real | forall age :: 0.0 < decay(age) <= 1.0 witness (age: nat) => 1.0

  function Times(w: Weights, k: real): Weights {
    map p | p in w :: w[p] * k
  }

  function TimesRows(rows: Rows, k: real): Rows {
    map a | a in rows :: Times(rows[a], k)
  }

  function Multiplied(m: Model, k: real): Model {
    m.(support := Times(m.support, k), cochange := TimesRows(m.cochange, k))
  }

  // Advancing time is one multiplication, until the scale gets too small to divide by.
  function Decayed(m: Model, now: nat, decay: DecayFactor): Model
    requires m.scale > 0.0
  {
    if m.last.None? then m.(last := Some(now))
    else if now <= m.last.value then m
    else Rescaled(m, now, Product(m.scale, decay(now - m.last.value)))
  }

  function Product(x: real, y: real): (z: real)
    requires x > 0.0 && y > 0.0
    ensures z > 0.0
  {
    x * y
  }

  function Rescaled(m: Model, now: nat, scale: real): Model
    requires scale > 0.0
  {
    if scale < RENORMALISE_BELOW then Multiplied(m, 1.0 / scale).(last := Some(now), scale := 1.0)
    else m.(last := Some(now), scale := scale)
  }

  function Raised(w: Weights, keys: set<string>, delta: real): Weights {
    map p | p in w.Keys + keys :: if p in keys then Get(w, p) + delta else w[p]
  }

  function RaisedRows(rows: Rows, anchors: set<string>, targets: set<string>, delta: real): Rows {
    map a | a in rows.Keys + anchors :: Raised(Row(rows, a), if a in anchors then targets - {a} else {}, delta)
  }

  // Every way of learning adds one weight to some supports and one to some ordered pairs.
  function Bump(m: Model, paths: set<string>, weight: real, anchors: set<string>, targets: set<string>, edge: real)
    : Model
  {
    m.(support := Raised(m.support, paths, weight), cochange := RaisedRows(m.cochange, anchors, targets, edge))
  }

  function LevelWeight(level: string): real {
    if level == "full" then 3.0 else 1.0
  }

  function Breadth(originalCount: nat): real {
    if originalCount > 1 then (originalCount - 1) as real else 1.0
  }

  function TrajectoryWeight(level: string, factor: real, scale: real): real
    requires scale > 0.0
  {
    LevelWeight(level) * TRAJECTORY_WEIGHT * factor / scale
  }

  function Learned(m: Model, paths: seq<string>, level: string, originalCount: nat): Model
    requires m.scale > 0.0
  {
    var weight := LevelWeight(level) / m.scale;
    Bump(m, Elements(paths), weight, if |paths| < 2 then {} else Elements(paths), Elements(paths),
         weight / Breadth(originalCount))
  }

  function Trajectory(m: Model, context: seq<string>, changed: seq<string>, level: string, factor: real): Model
    requires m.scale > 0.0
  {
    if context == [] || changed == [] || factor <= 0.0 then m
    else
      var weight := TrajectoryWeight(level, factor, m.scale);
      Bump(m, Elements(context), weight, Elements(context), Elements(changed), weight / (|changed| as real))
  }

  // How much a recorded retrieval intent counts for the requested one.
  function IntentFactor(recorded: Option<string>, requested: Option<string>): (factor: real)
    ensures 0.0 < factor <= 1.35
  {
    if recorded.Some? && requested.Some? then (if recorded == requested then 1.35 else 0.35)
    else if requested.Some? then 0.55
    else 0.60
  }

  // ---- Scores ---------------------------------------------------------------

  function Clamp(x: real, low: real, high: real): real {
    if x < low then low else if x > high then high else x
  }

  // Rounding half away from zero, for the non-negative values that occur here.
  function Round(x: real): int {
    (x + 0.5).Floor
  }

  function Association(m: Model, anchor: string, candidate: string): real
    requires Get(m.support, anchor) + Get(m.support, candidate) > 0.0
  {
    2.0 * Pair(m, anchor, candidate) / (Get(m.support, anchor) + Get(m.support, candidate))
  }

  function Confidence(weight: real): real
    requires weight >= 0.0
  {
    weight / (weight + CONFIDENCE_PRIOR)
  }

  // The source looks the weights up in nested maps; an absent entry scores like a zero one.
  function PairScore(m: Model, anchor: string, candidate: string): (score: nat)
    requires m.scale > 0.0
    ensures score <= 1000
  {
    if anchor !in m.cochange || candidate !in m.cochange[anchor] || anchor !in m.support || candidate !in m.support
       || Pair(m, anchor, candidate) <= 0.0 || m.support[anchor] + m.support[candidate] <= 0.0 then 0
    else ScoreOf(Association(m, anchor, candidate), TrueWeight(Pair(m, anchor, candidate), m.scale))
  }

  function TrueWeight(stored: real, scale: real): (weight: real)
    requires stored > 0.0 && scale > 0.0
    ensures weight > 0.0
  {
    Product(stored, scale)
  }

  // Weighted Dice association, shrunk by how much true weight supports it.
  function ScoreOf(association: real, weight: real): (score: nat)
    requires weight > 0.0
    ensures score <= 1000
  {
    var rounded := Round(Clamp(association, 0.0, 1.0) * Confidence(weight) * SCORE_SCALE);
    if rounded < 0 then 0 else if rounded > 1000 then 1000 else rounded
  }

  datatype Scored = Scored(path: string, score: nat)

  predicate Better(x: Scored, y: Scored) {
    x.score > y.score || (x.score == y.score && Text.Less(x.path, y.path))
  }

  lemma BetterIsStrictTotal()
    ensures StrictTotal(Better)
  {
    forall x: Scored ensures !Better(x, x) { Text.LessIrreflexive(x.path); }
    forall x: Scored, y: Scored, z: Scored | Better(x, y) && Better(y, z) ensures Better(x, z) {
      if x.score == z.score { Text.LessTransitive(x.path, y.path, z.path); }
    }
    forall x: Scored, y: Scored ensures x == y || Better(x, y) || Better(y, x) { Text.LessTotal(x.path, y.path); }
  }

  function Combined(m: Model, anchors: seq<string>, candidate: string): (score: nat)
    requires m.scale > 0.0
  {
    if anchors == [] then 0 else PairScore(m, anchors[0], candidate) + Combined(m, anchors[1..], candidate)
  }

  function Candidates(m: Model, anchors: seq<string>): set<string> {
    set a, c | a in anchors && a in m.cochange && c in m.cochange[a] && c !in anchors :: c
  }

  function Capped(score: nat): nat {
    if score > 1000 then 1000 else score
  }

  // Positive scores, best first, ties by path.
  function RankedScores(m: Model, anchors: seq<string>): (ranked: seq<Scored>)
    requires m.scale > 0.0
    ensures Increasing(ranked, Better)
    ensures Elements(ranked) ==
      set c | c in Candidates(m, anchors) && Combined(m, anchors, c) > 0 :: Scored(c, Capped(Combined(m, anchors, c)))
  {
    BetterIsStrictTotal();
    Ascending(set c | c in Candidates(m, anchors) && Combined(m, anchors, c) > 0 ::
                Scored(c, Capped(Combined(m, anchors, c))), Better)
  }

  // ---- The model object -----------------------------------------------------

  class CochangeModel {
    var last: Option<nat>
    var support: Weights
    var cochange: Rows
    var scale: real
    const decay: DecayFactor

    ghost predicate Valid()
      reads this
    {
      scale > 0.0
    }

    function View(): Model
      reads this
    {
      Model(last, support, cochange, scale)
    }

    constructor (decay: DecayFactor)
      ensures Valid() && View() == Empty() && this.decay == decay
    {
      last, support, cochange, scale, this.decay := None, map[], map[], 1.0, decay;
    }

    method DecayTo(now: nat)
      requires Valid()
      modifies this
      ensures Valid() && View() == Decayed(old(View()), now, decay)
    {
      if last.None? {
        last := Some(now);
        return;
      }
      if now <= last.value { return; }
      var factor := decay(now - last.value);
      scale := Product(scale, factor);
      last := Some(now);
      if scale < RENORMALISE_BELOW {
        Multiply(1.0 / scale);
        scale := 1.0;
      }
    }

    // The renormalisation pass over every stored weight.
    method Multiply(inverse: real)
      modifies `support, `cochange
      ensures support == Times(old(support), inverse) && cochange == TimesRows(old(cochange), inverse)
    {
      support := map p | p in support :: support[p] * inverse;
      cochange := map a | a in cochange :: (map c | c in cochange[a] :: cochange[a][c] * inverse);
    }

    method AddSupport(paths: seq<string>, weight: real)
      requires Distinct(paths)
      modifies `support
      ensures support == Raised(old(support), Elements(paths), weight)
    {
      for i := 0 to |paths|
        invariant support == Raised(old(support), Elements(paths[..i]), weight)
      {
        NextElement(paths, i);
        RaisedOne(old(support), Elements(paths[..i]), paths[i], weight);
        support := support[paths[i] := Get(support, paths[i]) + weight];
      }
      assert paths[..|paths|] == paths;
    }

    method AddRow(anchor: string, candidates: seq<string>, weight: real)
      requires Distinct(candidates)
      modifies `cochange
      ensures cochange ==
        old(cochange)[anchor := Raised(Row(old(cochange), anchor), Elements(candidates) - {anchor}, weight)]
    {
      ghost var before := Row(cochange, anchor);
      var row: Weights := if anchor in cochange then cochange[anchor] else map[];
      for i := 0 to |candidates|
        invariant row == Raised(before, Elements(candidates[..i]) - {anchor}, weight) && cochange == old(cochange)
      {
        NextElement(candidates, i);
        var targets := Elements(candidates[..i]) - {anchor};
        if candidates[i] == anchor {
          assert Elements(candidates[..i + 1]) - {anchor} == targets;
        } else {
          assert Elements(candidates[..i + 1]) - {anchor} == targets + {candidates[i]};
          RaisedOne(before, targets, candidates[i], weight);
          row := row[candidates[i] := Get(row, candidates[i]) + weight];
        }
      }
      assert candidates[..|candidates|] == candidates;
      cochange := cochange[anchor := row];
    }

    method AddRows(anchors: seq<string>, candidates: seq<string>, weight: real)
      requires Distinct(anchors) && Distinct(candidates)
      modifies `cochange
      ensures cochange == RaisedRows(old(cochange), Elements(anchors), Elements(candidates), weight)
    {
      RaisedNothing(cochange, Elements(candidates), weight);
      for i := 0 to |anchors|
        invariant cochange == RaisedRows(old(cochange), Elements(anchors[..i]), Elements(candidates), weight)
      {
        NextElement(anchors, i);
        RaisedOneMore(old(cochange), Elements(anchors[..i]), anchors[i], Elements(candidates), weight);
        AddRow(anchors[i], candidates, weight);
      }
      assert anchors[..|anchors|] == anchors;
    }

    // Callers pass normalised path lists, which hold no path twice.
    method Learn(paths: seq<string>, level: string, originalCount: nat)
      requires Valid() && Distinct(paths)
      modifies `support, `cochange
      ensures Valid() && View() == Learned(old(View()), paths, level, originalCount)
    {
      var weight := LevelWeight(level) / scale;
      RaisedNothing(cochange, Elements(paths), weight / Breadth(originalCount));
      if paths == [] {
        assert Raised(support, Elements(paths), weight) == support;
        return;
      }
      AddSupport(paths, weight);
      if |paths| < 2 { return; }
      AddRows(paths, paths, weight / Breadth(originalCount));
    }

    method LearnTrajectory(context: seq<string>, changed: seq<string>, level: string, factor: real)
      requires Valid() && Distinct(context) && Distinct(changed)
      modifies `support, `cochange
      ensures Valid() && View() == Trajectory(old(View()), context, changed, level, factor)
    {
      if context == [] || changed == [] || factor <= 0.0 { return; }
      var weight := TrajectoryWeight(level, factor, scale);
      AddSupport(context, weight);
      AddRows(context, changed, weight / (|changed| as real));
    }
  }

  lemma RaisedOne(w: Weights, keys: set<string>, key: string, delta: real)
    requires key !in keys
    ensures Raised(w, keys + {key}, delta) ==
      Raised(w, keys, delta)[key := Get(Raised(w, keys, delta), key) + delta]
  {
  }

  lemma RaisedNothing(rows: Rows, targets: set<string>, delta: real)
    ensures RaisedRows(rows, {}, targets, delta) == rows
  {
    forall a | a in rows ensures Raised(rows[a], {}, delta) == rows[a] {}
  }

  lemma RaisedOneMore(rows: Rows, anchors: set<string>, anchor: string, targets: set<string>, delta: real)
    requires anchor !in anchors
    ensures var before := RaisedRows(rows, anchors, targets, delta);
            RaisedRows(rows, anchors + {anchor}, targets, delta) ==
              before[anchor := Raised(Row(before, anchor), targets - {anchor}, delta)]
  {
    var before := RaisedRows(rows, anchors, targets, delta);
    assert Row(before, anchor) == Row(rows, anchor) by {
      if anchor in rows { assert Raised(rows[anchor], {}, delta) == rows[anchor]; }
    }
  }
}
