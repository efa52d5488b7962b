// The call impact, said of the fields of symbols and edges alone.
module CallImpactFields {
  import opened Wrappers
  import opened SoftwareGraph
  import opened CallImpact

  // A symbol, not a file, that lives in a changed file.
  predicate ChangedSymbol(nodes: map<string, Symbol>, changedPaths: set<string>, id: string) {
    && id in nodes && nodes[id].kind != NodeKind.File
    && nodes[id].path.Some? && nodes[id].path.value in changedPaths
  }

  predicate CallAt(edges: seq<Edge>, i: nat, caller: string, callee: string) {
    && i < |edges| && edges[i].kind in {EdgeKind.Calls, EdgeKind.RuntimeCalls}
    && edges[i].from == caller && edges[i].to == callee
  }

  ghost predicate CallsNext(edges: seq<Edge>, caller: string, callee: string) {
    exists i: nat :: CallAt(edges, i, caller, callee)
  }

  // A path of calls from a symbol to a changed one.
  ghost predicate CallPath(
    nodes: map<string, Symbol>, edges: seq<Edge>, changedPaths: set<string>, id: string, path: seq<string>)
  {
    && path != [] && path[0] == id && ChangedSymbol(nodes, changedPaths, path[|path| - 1])
    && forall i :: 0 <= i < |path| - 1 ==> CallsNext(edges, path[i], path[i + 1])
  }

  ghost predicate Involved(nodes: map<string, Symbol>, edges: seq<Edge>, changedPaths: set<string>, id: string) {
    exists path :: CallPath(nodes, edges, changedPaths, id, path)
  }

  lemma CallsExactly(edges: seq<Edge>, caller: string, callee: string)
    ensures CallsNext(edges, caller, callee) <==> CallImpact.Calls(edges, caller, callee)
  {
    if i: nat :| CallAt(edges, i, caller, callee) {
      assert IsCall(edges[i]);
    }
    if i :| 0 <= i < |edges| && IsCall(edges[i]) && edges[i].from == caller && edges[i].to == callee {
      assert CallAt(edges, i, caller, callee);
    }
  }

  lemma PathExactly(
    nodes: map<string, Symbol>, edges: seq<Edge>, changedPaths: set<string>, id: string, path: seq<string>)
    ensures CallPath(nodes, edges, changedPaths, id, path) <==> Witness(edges, Changed(nodes, changedPaths), id, path)
  {
    forall i | 0 <= i < |path| - 1
      ensures CallsNext(edges, path[i], path[i + 1]) <==> CallImpact.Calls(edges, path[i], path[i + 1])
    {
      CallsExactly(edges, path[i], path[i + 1]);
    }
  }

  lemma InvolvedExactly(nodes: map<string, Symbol>, edges: seq<Edge>, changedPaths: set<string>, id: string)
    ensures Involved(nodes, edges, changedPaths, id) <==> Reaches(edges, Changed(nodes, changedPaths), id)
  {
    forall path ensures
      CallPath(nodes, edges, changedPaths, id, path) <==> Witness(edges, Changed(nodes, changedPaths), id, path)
    {
      PathExactly(nodes, edges, changedPaths, id, path);
    }
    if path :| Witness(edges, Changed(nodes, changedPaths), id, path) {
      assert CallPath(nodes, edges, changedPaths, id, path);
    }
    if path :| CallPath(nodes, edges, changedPaths, id, path) {
      assert Witness(edges, Changed(nodes, changedPaths), id, path);
    }
  }

  predicate LivesAt(nodes: map<string, Symbol>, id: string, path: string) {
    id in nodes && nodes[id].path == Some(path)
  }

  predicate Named(nodes: map<string, Symbol>, id: string, name: string) {
    id in nodes && nodes[id].path.Some? && name == nodes[id].path.value + "::" + nodes[id].name
  }

  lemma ReportExactly(nodes: map<string, Symbol>, impacted: set<string>)
    ensures forall p :: p in PathsOf(nodes, impacted) <==> exists id :: id in impacted && LivesAt(nodes, id, p)
    ensures forall s :: s in LabelsOf(nodes, impacted) <==> exists id :: id in impacted && Named(nodes, id, s)
  {
    forall p | p in PathsOf(nodes, impacted) ensures exists id :: id in impacted && LivesAt(nodes, id, p) {
      var id :| id in impacted && Located(nodes, id) && nodes[id].path.value == p;
      assert LivesAt(nodes, id, p);
    }
    forall s | s in LabelsOf(nodes, impacted) ensures exists id :: id in impacted && Named(nodes, id, s) {
      var id :| id in impacted && Located(nodes, id) && Label(nodes[id]) == s;
      assert Named(nodes, id, s);
    }
  }

  lemma ImpactExactly(nodes: map<string, Symbol>, edges: seq<Edge>, changedPaths: set<string>, impacted: set<string>)
    requires Impact(edges, Changed(nodes, changedPaths), impacted)
    ensures forall id :: id in impacted ==> Involved(nodes, edges, changedPaths, id)
    ensures |impacted| < 2000 ==> forall id :: Involved(nodes, edges, changedPaths, id) ==> id in impacted
  {
    var initial := Changed(nodes, changedPaths);
    ImpactIsLeast(edges, initial, impacted);
    forall id | id in impacted ensures Involved(nodes, edges, changedPaths, id) {
      assert Reaches(edges, initial, id);
      InvolvedExactly(nodes, edges, changedPaths, id);
    }
    forall id | |impacted| < 2000 && Involved(nodes, edges, changedPaths, id) ensures id in impacted {
      InvolvedExactly(nodes, edges, changedPaths, id);
    }
  }

  // The places and names reported are those of symbols involved, and of all of them as long
  // as fewer than 2000 are; the count is of those that did not change themselves.
  lemma AnswerExactly(
    nodes: map<string, Symbol>, edges: seq<Edge>, changedPaths: set<string>, paths: set<string>, symbols: set<string>,
    callers: nat, impacted: set<string>)
    requires DescribedBy(nodes, edges, Changed(nodes, changedPaths), paths, symbols, callers, impacted)
    ensures forall id :: id in impacted ==> Involved(nodes, edges, changedPaths, id)
    ensures |impacted| < 2000 ==> forall id :: Involved(nodes, edges, changedPaths, id) ==> id in impacted
    ensures forall p :: p in paths <==> exists id :: id in impacted && LivesAt(nodes, id, p)
    ensures forall s :: s in symbols <==> exists id :: id in impacted && Named(nodes, id, s)
    ensures callers == |set id | id in impacted && !ChangedSymbol(nodes, changedPaths, id)|
  {
    ImpactExactly(nodes, edges, changedPaths, impacted);
    ReportExactly(nodes, impacted);
    assert (set id | id in impacted && !ChangedSymbol(nodes, changedPaths, id)) ==
      impacted - Changed(nodes, changedPaths);
  }
}
