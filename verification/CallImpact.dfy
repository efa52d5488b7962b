// The transitive callers of changed symbols, followed breadth-first up to a cap.
module CallImpact {
  import opened Wrappers
  import opened Sorting
  import opened SoftwareGraph

  const MAX_TRANSITIVE_IMPACT_SYMBOLS: nat := 2000

  // A node as the impact analysis reads it; `name` is its qualified name, plain name or
  // title, whichever comes first.
  datatype Symbol = Symbol(kind: NodeKind, path: Option<string>, name: string)

  predicate IsCall(e: Edge) {
    e.kind.Calls? || e.kind.RuntimeCalls?
  }

  // The symbols that live in changed files; a file node is not one of them.
  function Changed(nodes: map<string, Symbol>, changedPaths: set<string>): set<string> {
    set id | id in nodes && !nodes[id].kind.File? && nodes[id].path.Some? && nodes[id].path.value in changedPaths
  }

  // Each of `path` calls the next.
  predicate Chain(edges: seq<Edge>, path: seq<string>) {
    forall i :: 0 <= i < |path| - 1 ==> Calls(edges, path[i], path[i + 1])
  }

  predicate Calls(edges: seq<Edge>, caller: string, callee: string) {
    exists i :: 0 <= i < |edges| && IsCall(edges[i]) && edges[i].from == caller && edges[i].to == callee
  }

  // `id` is one of `initial` or calls one of them through others.
  ghost predicate Reaches(edges: seq<Edge>, initial: set<string>, id: string) {
    exists path :: Witness(edges, initial, id, path)
  }

  predicate Witness(edges: seq<Edge>, initial: set<string>, id: string, path: seq<string>) {
    path != [] && path[0] == id && path[|path| - 1] in initial && Chain(edges, path)
  }

  predicate Closed(edges: seq<Edge>, s: set<string>) {
    forall i :: 0 <= i < |edges| && IsCall(edges[i]) && edges[i].to in s ==> edges[i].from in s
  }

  lemma CallerReaches(edges: seq<Edge>, initial: set<string>, k: nat)
    requires k < |edges| && IsCall(edges[k]) && Reaches(edges, initial, edges[k].to)
    ensures Reaches(edges, initial, edges[k].from)
  {
    var path :| Witness(edges, initial, edges[k].to, path);
    var longer := [edges[k].from] + path;
    assert Calls(edges, edges[k].from, edges[k].to);
    forall i | 0 <= i < |longer| - 1 ensures Calls(edges, longer[i], longer[i + 1]) {
      if i > 0 {
        assert longer[i] == path[i - 1] && longer[i + 1] == path[i];
      }
    }
    assert Witness(edges, initial, edges[k].from, longer);
  }

  // A closed set that holds the changed symbols holds everything that reaches them.
  lemma {:induction false} ClosedHoldsChains(
    edges: seq<Edge>, initial: set<string>, s: set<string>, id: string, path: seq<string>)
    requires Closed(edges, s) && initial <= s && Witness(edges, initial, id, path)
    ensures id in s
    decreases |path|
  {
    if |path| > 1 {
      var rest := path[1..];
      assert Calls(edges, path[0], path[1]);
      forall i | 0 <= i < |rest| - 1 ensures Calls(edges, rest[i], rest[i + 1]) {
        assert Calls(edges, path[i + 1], path[i + 2]);
      }
      ClosedHoldsChains(edges, initial, s, path[1], rest);
    }
  }

  // The callers of `frontier` met so far that are new, looking at the first `upto` edges.
  predicate NewCallers(edges: seq<Edge>, upto: nat, frontier: set<string>, impacted: set<string>, next: set<string>)
    requires upto <= |edges|
  {
    && next !! impacted
    && (forall i :: 0 <= i < upto && IsCall(edges[i]) && edges[i].to in frontier ==>
          edges[i].from in impacted || edges[i].from in next)
  }

  predicate CalledFrom(edges: seq<Edge>, frontier: set<string>, next: set<string>) {
    forall id :: id in next ==>
      exists i :: 0 <= i < |edges| && IsCall(edges[i]) && edges[i].to in frontier && edges[i].from == id
  }

  // One wave; it stops early once the cap is reached.
  method Callers(edges: seq<Edge>, frontier: set<string>, impacted: set<string>) returns (next: set<string>)
    requires |impacted| < MAX_TRANSITIVE_IMPACT_SYMBOLS
    ensures CalledFrom(edges, frontier, next) && next !! impacted
    ensures |impacted| + |next| <= MAX_TRANSITIVE_IMPACT_SYMBOLS
    ensures |impacted| + |next| < MAX_TRANSITIVE_IMPACT_SYMBOLS ==> NewCallers(edges, |edges|, frontier, impacted, next)
  {
    next := {};
    for k := 0 to |edges|
      invariant CalledFrom(edges, frontier, next) && NewCallers(edges, k, frontier, impacted, next)
      invariant |impacted| + |next| < MAX_TRANSITIVE_IMPACT_SYMBOLS
    {
      var edge := edges[k];
      if !IsCall(edge) || edge.to !in frontier || edge.from in impacted {
        continue;
      }
      next := next + {edge.from};
      if |impacted| + |next| >= MAX_TRANSITIVE_IMPACT_SYMBOLS {
        break;
      }
    }
  }

  // What the impacted set is: everything in it reaches a changed symbol, it holds all of
  // them and grows no further than the cap; below the cap it is the least closed set.
  ghost predicate Impact(edges: seq<Edge>, initial: set<string>, impacted: set<string>) {
    && initial <= impacted
    && (forall id {:trigger Reaches(edges, initial, id)} :: id in impacted ==> Reaches(edges, initial, id))
    && (|impacted| <= |initial| || |impacted| <= 2000)
    && (|impacted| < 2000 ==> Closed(edges, impacted))
  }

  lemma ImpactIsLeast(edges: seq<Edge>, initial: set<string>, impacted: set<string>)
    requires Impact(edges, initial, impacted)
    ensures forall s :: Closed(edges, s) && initial <= s ==> impacted <= s
    ensures |impacted| < 2000 ==> forall id :: id in impacted <==> Reaches(edges, initial, id)
  {
    forall s, id | Closed(edges, s) && initial <= s && id in impacted ensures id in s {
      assert Reaches(edges, initial, id);
      var path :| Witness(edges, initial, id, path);
      ClosedHoldsChains(edges, initial, s, id, path);
    }
    if |impacted| < MAX_TRANSITIVE_IMPACT_SYMBOLS {
      forall id | Reaches(edges, initial, id) ensures id in impacted {
        var path :| Witness(edges, initial, id, path);
        ClosedHoldsChains(edges, initial, impacted, id, path);
      }
    }
  }

  // Every call into a symbol behind the frontier comes from an impacted symbol.
  predicate ClosedBehind(edges: seq<Edge>, frontier: set<string>, impacted: set<string>) {
    forall i :: 0 <= i < |edges| && IsCall(edges[i]) && edges[i].to in impacted && edges[i].to !in frontier ==>
      edges[i].from in impacted
  }

  lemma WaveReaches(edges: seq<Edge>, initial: set<string>, frontier: set<string>, next: set<string>)
    requires CalledFrom(edges, frontier, next) && forall id :: id in frontier ==> Reaches(edges, initial, id)
    ensures forall id :: id in next ==> Reaches(edges, initial, id)
  {
    forall id | id in next ensures Reaches(edges, initial, id) {
      var i :| 0 <= i < |edges| && IsCall(edges[i]) && edges[i].to in frontier && edges[i].from == id;
      CallerReaches(edges, initial, i);
    }
  }

  method Impacted(edges: seq<Edge>, initial: set<string>) returns (impacted: set<string>)
    ensures Impact(edges, initial, impacted)
  {
    impacted := initial;
    var frontier := initial;
    forall id | id in initial ensures Reaches(edges, initial, id) {
      assert Witness(edges, initial, id, [id]);
    }
    while frontier != {} && |impacted| < MAX_TRANSITIVE_IMPACT_SYMBOLS
      invariant initial <= impacted && frontier <= impacted
      invariant forall id {:trigger Reaches(edges, initial, id)} :: id in impacted ==> Reaches(edges, initial, id)
      invariant |impacted| <= |initial| || |impacted| <= MAX_TRANSITIVE_IMPACT_SYMBOLS
      invariant |impacted| < MAX_TRANSITIVE_IMPACT_SYMBOLS ==> ClosedBehind(edges, frontier, impacted)
      decreases MAX_TRANSITIVE_IMPACT_SYMBOLS - |impacted|
    {
      var next := Callers(edges, frontier, impacted);
      WaveReaches(edges, initial, frontier, next);
      if next == {} {
        break;
      }
      assert |impacted + next| == |impacted| + |next|;
      impacted := impacted + next;
      frontier := next;
    }
  }

  predicate Located(nodes: map<string, Symbol>, id: string) {
    id in nodes && nodes[id].path.Some?
  }

  function PathsOf(nodes: map<string, Symbol>, ids: set<string>): set<string> {
    set id | id in ids && Located(nodes, id) :: nodes[id].path.value
  }

  function Label(s: Symbol): string
    requires s.path.Some?
  {
    s.path.value + "::" + s.name
  }

  function LabelsOf(nodes: map<string, Symbol>, ids: set<string>): set<string> {
    set id | id in ids && Located(nodes, id) :: Label(nodes[id])
  }

  // The paths and names of the symbols with a known place.
  method Report(nodes: map<string, Symbol>, ids: set<string>) returns (paths: set<string>, symbols: set<string>)
    ensures paths == PathsOf(nodes, ids) && symbols == LabelsOf(nodes, ids)
  {
    paths, symbols := {}, {};
    var left := ids;
    while left != {}
      invariant left <= ids
      invariant paths == PathsOf(nodes, ids - left) && symbols == LabelsOf(nodes, ids - left)
    {
      var id :| id in left;
      assert ids - (left - {id}) == (ids - left) + {id};
      left := left - {id};
      if Located(nodes, id) {
        paths := paths + {nodes[id].path.value};
        symbols := symbols + {Label(nodes[id])};
      }
    }
    assert ids - left == ids;
  }

  // The answer describes an impacted set.
  ghost predicate Describes(nodes: map<string, Symbol>, edges: seq<Edge>, initial: set<string>, paths: set<string>,
                            symbols: set<string>, callers: nat)
  {
    exists impacted :: DescribedBy(nodes, edges, initial, paths, symbols, callers, impacted)
  }

  ghost predicate DescribedBy(nodes: map<string, Symbol>, edges: seq<Edge>, initial: set<string>, paths: set<string>,
                              symbols: set<string>, callers: nat, impacted: set<string>)
  {
    && Impact(edges, initial, impacted)
    && paths == PathsOf(nodes, impacted) && symbols == LabelsOf(nodes, impacted)
    && callers == |impacted - initial|
  }

  lemma AddedCount(before: set<string>, after: set<string>)
    requires before <= after
    ensures |after| - |before| == |after - before|
  {
    assert after == before + (after - before);
  }

  method TransitiveCallImpact(nodes: map<string, Symbol>, edges: seq<Edge>, changedPaths: set<string>)
    returns (paths: set<string>, symbols: set<string>, callers: nat)
    ensures Describes(nodes, edges, Changed(nodes, changedPaths), paths, symbols, callers)
  {
    var initial := Changed(nodes, changedPaths);
    var impacted := Impacted(edges, initial);
    paths, symbols := Report(nodes, impacted);
    AddedCount(initial, impacted);
    callers := |impacted| - |initial|;
    assert DescribedBy(nodes, edges, initial, paths, symbols, callers, impacted);
  }
}
