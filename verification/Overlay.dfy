// Overlaying provider imports on a software graph: an import adds what the graph does not
// have yet and touches nothing that is there.
module Overlay {
  import opened Wrappers
  import opened SoftwareGraph
  import Text

  datatype ImportNode = ImportNode(id: string, kind: NodeKind, title: string, rest: int)

  datatype ImportEdge = ImportEdge(from: string, to: string, kind: EdgeKind)

  // `stale` is the verdict of the freshness check against the sources.
  datatype Import = Import(provenance: Provenance, nodes: seq<ImportNode>, edges: seq<ImportEdge>, stale: bool) {
    predicate Valid() {
      && provenance.Valid()
      && !provenance.precision.Declared? && !provenance.precision.Syntax? && !provenance.precision.Mixed?
      && |nodes| <= 10000 && |edges| <= 50000
      && (forall i :: 0 <= i < |nodes| ==>
            Text.ValidId(nodes[i].id, 512) && !Text.Blank(nodes[i].title) && |nodes[i].title| <= 500)
      && (forall i, j :: 0 <= i < j < |nodes| ==> nodes[i].id != nodes[j].id)
      && (forall i :: 0 <= i < |edges| ==>
            Text.ValidId(edges[i].from, 512) && Text.ValidId(edges[i].to, 512) && edges[i].from != edges[i].to)
    }

    function NodeOf(n: ImportNode): Node {
      Node(n.id, n.kind, n.title, n.rest, provenance)
    }

    function EdgeOf(e: ImportEdge): Edge {
      Edge(e.from, e.to, e.kind, provenance)
    }

    predicate Names(id: string) {
      exists i :: 0 <= i < |nodes| && nodes[i].id == id
    }

    // A graph node is the `i`-th of the import, under the provenance of the import.
    predicate IsNode(i: nat, n: Node)
      requires i < |nodes|
    {
      && n.id == nodes[i].id && n.kind == nodes[i].kind && n.title == nodes[i].title && n.rest == nodes[i].rest
      && n.provenance == provenance
    }

    // So is a graph edge, in the direction of the import.
    predicate IsEdge(i: nat, e: Edge)
      requires i < |edges|
    {
      e.from == edges[i].from && e.to == edges[i].to && e.kind == edges[i].kind && e.provenance == provenance
    }
  }

  predicate Keeps(before: map<string, Node>, after: map<string, Node>) {
    forall id :: id in before ==> id in after && after[id] == before[id]
  }

  // The nodes of `after` that `before` does not have come from the first `count` of `m`.
  predicate NodesFrom(before: map<string, Node>, after: map<string, Node>, m: Import, count: nat)
    requires count <= |m.nodes|
  {
    && (forall id :: id in after && id !in before ==>
          exists i :: 0 <= i < count && m.nodes[i].id == id && m.IsNode(i, after[id]))
    && (forall i :: 0 <= i < count ==> m.nodes[i].id in after)
  }

  lemma NodeAdded(before: map<string, Node>, now: map<string, Node>, m: Import, i: nat)
    requires i < |m.nodes| && Keeps(before, now) && NodesFrom(before, now, m, i)
    ensures var id := m.nodes[i].id;
      var after := if id in now then now else now[id := m.NodeOf(m.nodes[i])];
      Keeps(before, after) && NodesFrom(before, after, m, i + 1)
  {
  }

  method OverlayNodes(graph: Graph, m: Import)
    requires graph.Valid() && m.Valid()
    modifies graph`nodes
    ensures graph.Valid()
    ensures Keeps(old(graph.nodes), graph.nodes) && NodesFrom(old(graph.nodes), graph.nodes, m, |m.nodes|)
  {
    for i := 0 to |m.nodes|
      invariant graph.Valid() && graph.edges == old(graph.edges)
      invariant Keeps(old(graph.nodes), graph.nodes) && NodesFrom(old(graph.nodes), graph.nodes, m, i)
    {
      NodeAdded(old(graph.nodes), graph.nodes, m, i);
      if m.nodes[i].id !in graph.nodes {
        var added := graph.AddNode(m.NodeOf(m.nodes[i]));
        assert added.Success?;
      }
    }
  }

  // Edge `i` of `m` is taken where both its ends are there and it is not.
  function WithEdge(nodes: map<string, Node>, now: seq<Edge>, m: Import, i: nat): seq<Edge>
    requires i < |m.edges|
  {
    var (e, edge) := (m.edges[i], m.EdgeOf(m.edges[i]));
    if e.from != e.to && e.from in nodes && e.to in nodes && edge !in now then now + [edge] else now
  }

  // The edges after the first `count` of `m`.
  function EdgesAfter(nodes: map<string, Node>, before: seq<Edge>, m: Import, count: nat): seq<Edge>
    requires count <= |m.edges|
  {
    if count == 0 then before else WithEdge(nodes, EdgesAfter(nodes, before, m, count - 1), m, count - 1)
  }

  lemma WithEdgeValid(nodes: map<string, Node>, now: seq<Edge>, m: Import, i: nat)
    requires i < |m.edges| && m.provenance.Valid() && ValidEdges(nodes, now)
    ensures ValidEdges(nodes, WithEdge(nodes, now, m, i))
  {
  }

  // Edge `i` of `m` stands between two nodes that are there.
  predicate Connects(nodes: map<string, Node>, m: Import, i: nat, edge: Edge)
    requires i < |m.edges|
  {
    var e := m.edges[i];
    e.from != e.to && e.from in nodes && e.to in nodes && m.IsEdge(i, edge)
  }

  lemma {:induction false} EdgesAfterExtend(nodes: map<string, Node>, before: seq<Edge>, m: Import, count: nat)
    requires count <= |m.edges|
    ensures before <= EdgesAfter(nodes, before, m, count)
  {
    if count > 0 {
      EdgesAfterExtend(nodes, before, m, count - 1);
    }
  }

  // An import adds exactly its edges between nodes that are there.
  lemma {:induction false} EdgesAfterMembers(
    nodes: map<string, Node>, before: seq<Edge>, m: Import, count: nat, edge: Edge)
    requires count <= |m.edges|
    ensures edge in EdgesAfter(nodes, before, m, count) <==>
              edge in before || exists i :: 0 <= i < count && Connects(nodes, m, i, edge)
  {
    if count > 0 {
      EdgesAfterMembers(nodes, before, m, count - 1, edge);
      if edge in EdgesAfter(nodes, before, m, count) && edge !in EdgesAfter(nodes, before, m, count - 1) {
        assert Connects(nodes, m, count - 1, edge);
      }
    }
  }

  method OverlayEdges(graph: Graph, m: Import)
    requires graph.Valid() && m.provenance.Valid()
    modifies graph`edges
    ensures graph.Valid()
    ensures graph.edges == EdgesAfter(graph.nodes, old(graph.edges), m, |m.edges|)
  {
    for i := 0 to |m.edges|
      invariant graph.Valid() && graph.edges == EdgesAfter(graph.nodes, old(graph.edges), m, i)
    {
      var e := m.edges[i];
      WithEdgeValid(graph.nodes, graph.edges, m, i);
      if e.from != e.to && e.from in graph.nodes && e.to in graph.nodes && m.EdgeOf(e) !in graph.edges {
        var added := graph.AddEdge(m.EdgeOf(e));
        assert added.Success?;
      }
    }
  }

  // Every node not of the base graph is the one the first fresh import naming it brought.
  ghost predicate FirstComes(before: map<string, Node>, after: map<string, Node>, imports: seq<Import>, count: nat)
    requires count <= |imports|
  {
    && Keeps(before, after)
    && (forall id :: id in after && id !in before ==>
          exists k :: 0 <= k < count && First(imports, k, id) && Brings(imports[k], after[id]))
    && (forall k, id :: 0 <= k < count && !imports[k].stale && imports[k].Names(id) ==> id in after)
  }

  predicate First(imports: seq<Import>, k: nat, id: string)
    requires k < |imports|
  {
    && !imports[k].stale && imports[k].Names(id)
    && forall j :: 0 <= j < k && !imports[j].stale ==> !imports[j].Names(id)
  }

  predicate Brings(m: Import, node: Node) {
    exists i :: 0 <= i < |m.nodes| && m.IsNode(i, node)
  }

  lemma NextComes(before: map<string, Node>, middle: map<string, Node>, after: map<string, Node>,
                  imports: seq<Import>, count: nat)
    requires count < |imports| && FirstComes(before, middle, imports, count) && !imports[count].stale
    requires Keeps(middle, after) && NodesFrom(middle, after, imports[count], |imports[count].nodes|)
    ensures FirstComes(before, after, imports, count + 1)
  {
    var m := imports[count];
    forall id | id in after && id !in before
      ensures exists k :: 0 <= k < count + 1 && First(imports, k, id) && Brings(imports[k], after[id])
    {
      if id in middle {
        var k :| 0 <= k < count && First(imports, k, id) && Brings(imports[k], middle[id]);
      } else {
        var i :| 0 <= i < |m.nodes| && m.nodes[i].id == id && m.IsNode(i, after[id]);
        assert First(imports, count, id) && Brings(m, after[id]);
      }
    }
    forall k, id | 0 <= k < count + 1 && !imports[k].stale && imports[k].Names(id) ensures id in after {
      if k == count {
        var i :| 0 <= i < |m.nodes| && m.nodes[i].id == id;
      }
    }
  }

  // A node of the base graph, or one named by a fresh import among the first `count`.
  predicate Known(base: map<string, Node>, imports: seq<Import>, count: nat, id: string)
    requires count <= |imports|
  {
    id in base || exists k :: 0 <= k < count && !imports[k].stale && imports[k].Names(id)
  }

  // Edge `i` of the fresh import `k` stands between nodes known once the nodes of `k` are in.
  predicate Links(base: map<string, Node>, imports: seq<Import>, k: nat, i: nat, edge: Edge)
    requires k < |imports| && i < |imports[k].edges|
  {
    var e := imports[k].edges[i];
    && !imports[k].stale && imports[k].IsEdge(i, edge) && e.from != e.to
    && Known(base, imports, k + 1, e.from) && Known(base, imports, k + 1, e.to)
  }

  predicate Joins(base: map<string, Node>, imports: seq<Import>, k: nat, edge: Edge)
    requires k < |imports|
  {
    exists i :: 0 <= i < |imports[k].edges| && Links(base, imports, k, i, edge)
  }

  // The edges are those of the base graph and, behind them, exactly the joining ones.
  ghost predicate Joined(
    base: map<string, Node>, before: seq<Edge>, after: seq<Edge>, imports: seq<Import>, count: nat)
    requires count <= |imports|
  {
    && before <= after
    && forall edge :: edge in after <==> edge in before || exists k :: 0 <= k < count && Joins(base, imports, k, edge)
  }

  lemma NodesAreKnown(before: map<string, Node>, after: map<string, Node>, imports: seq<Import>, count: nat)
    requires count <= |imports| && FirstComes(before, after, imports, count)
    ensures forall id :: id in after <==> Known(before, imports, count, id)
  {
    forall id | id in after && id !in before ensures Known(before, imports, count, id) {
      var k :| 0 <= k < count && First(imports, k, id) && Brings(imports[k], after[id]);
    }
  }

  lemma NoneJoin(base: map<string, Node>, before: seq<Edge>, now: seq<Edge>, imports: seq<Import>, count: nat)
    requires count < |imports| && imports[count].stale && Joined(base, before, now, imports, count)
    ensures Joined(base, before, now, imports, count + 1)
  {
  }

  lemma MoreJoin(
    base: map<string, Node>, nodes: map<string, Node>, before: seq<Edge>, now: seq<Edge>, imports: seq<Import>,
    count: nat)
    requires count < |imports| && !imports[count].stale && Joined(base, before, now, imports, count)
    requires FirstComes(base, nodes, imports, count + 1)
    ensures Joined(base, before, EdgesAfter(nodes, now, imports[count], |imports[count].edges|), imports, count + 1)
  {
    var m := imports[count];
    var after := EdgesAfter(nodes, now, m, |m.edges|);
    EdgesAfterExtend(nodes, now, m, |m.edges|);
    assert before <= after;
    forall edge ensures edge in after <==> edge in now || Joins(base, imports, count, edge) {
      EdgesAfterMembers(nodes, now, m, |m.edges|, edge);
      NodesAreKnown(base, nodes, imports, count + 1);
      assert forall i :: 0 <= i < |m.edges| ==> (Connects(nodes, m, i, edge) <==> Links(base, imports, count, i, edge));
    }
  }

  // A well-formed graph stays well formed under validated imports, so that neither an
  // insertion nor the check at the end can fail.
  method OverlayAll(graph: Graph, imports: seq<Import>) returns (overlayed: nat)
    requires graph.Valid() && forall i :: 0 <= i < |imports| ==> imports[i].Valid()
    modifies graph
    ensures graph.Valid()
    ensures FirstComes(old(graph.nodes), graph.nodes, imports, |imports|)
    ensures Joined(old(graph.nodes), old(graph.edges), graph.edges, imports, |imports|)
    ensures overlayed == 0 ==> graph.nodes == old(graph.nodes) && graph.edges == old(graph.edges)
  {
    overlayed := 0;
    for i := 0 to |imports|
      invariant graph.Valid() && FirstComes(old(graph.nodes), graph.nodes, imports, i)
      invariant Joined(old(graph.nodes), old(graph.edges), graph.edges, imports, i)
      invariant overlayed == 0 ==> graph.nodes == old(graph.nodes) && graph.edges == old(graph.edges)
    {
      if imports[i].stale {
        NoneJoin(old(graph.nodes), old(graph.edges), graph.edges, imports, i);
        continue;
      }
      overlayed := overlayed + 1;
      ghost var nodes := graph.nodes;
      OverlayNodes(graph, imports[i]);
      NextComes(old(graph.nodes), nodes, graph.nodes, imports, i);
      MoreJoin(old(graph.nodes), graph.nodes, old(graph.edges), graph.edges, imports, i);
      OverlayEdges(graph, imports[i]);
    }
    if overlayed > 0 {
      var checked := graph.Validate();
      assert checked.Success?;
    }
  }
}
