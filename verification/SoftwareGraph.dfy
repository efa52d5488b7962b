// The software graph: nodes under their ids and a list of edges, each with the provenance
// of the provider that reported it.
module SoftwareGraph {
  import opened Wrappers
  import Text

  datatype NodeKind = Product | Requirement | AcceptanceCriterion | Constraint | Decision | Component | Package
    | Module | File | Symbol | Function | Struct | Trait | Class | Enum | Interface | Api | Database | Queue | Config
    | Test | Verification | Risk | Evidence

  datatype EdgeKind = Contains | Defines | References | Calls | Imports | DependsOn | Implements | Extends
    | ImplementsRequirement | ConstrainedBy | TestedBy | VerifiedBy | GuardsAgainst | ProducesEvidence | RuntimeCalls
    | ConflictsWith

  datatype Precision = Declared | Syntax | Semantic | Runtime | Deterministic | Heuristic | Mixed

  datatype Provenance = Provenance(provider: string, precision: Precision, revision: string) {
    predicate Valid() {
      !Text.Blank(provider) && |provider| <= 128 && !Text.Blank(revision) && |revision| <= 256
    }
  }

  // `rest` stands for the attributes.
  datatype Node = Node(id: string, kind: NodeKind, title: string, rest: int, provenance: Provenance) {
    predicate Valid() {
      Text.ValidId(id, 512) && !Text.Blank(title) && |title| <= 500 && provenance.Valid()
    }
  }

  datatype Edge = Edge(from: string, to: string, kind: EdgeKind, provenance: Provenance)

  datatype GraphError = InvalidNode | InvalidProvenance | DuplicateNode | UnknownEndpoint | DuplicateEdge
    | InvalidSelfEdge

  // How a requested depth or limit is brought within bounds.
  function Clamp(value: nat, low: nat, high: nat): nat
    requires low <= high
  {
    if value < low then low else if value > high then high else value
  }

  // It lies between what was asked for and anything within the bounds.
  lemma ClampIsNearest(value: nat, low: nat, high: nat, x: nat)
    requires low <= x <= high
    ensures low <= Clamp(value, low, high) <= high
    ensures value <= Clamp(value, low, high) <= x || x <= Clamp(value, low, high) <= value
  {
  }

  predicate Attached(nodes: map<string, Node>, e: Edge) {
    e.from in nodes && e.to in nodes
  }

  predicate SelfEdge(e: Edge) {
    e.from == e.to && !e.kind.ConflictsWith?
  }

  // What a well-formed graph is.
  predicate ValidNodes(nodes: map<string, Node>) {
    forall id :: id in nodes ==> nodes[id].Valid()
  }

  predicate ValidEdge(nodes: map<string, Node>, e: Edge) {
    Attached(nodes, e) && e.provenance.Valid() && !SelfEdge(e)
  }

  predicate ValidEdges(nodes: map<string, Node>, edges: seq<Edge>) {
    && (forall k :: 0 <= k < |edges| ==> ValidEdge(nodes, edges[k]))
    && (forall i, j :: 0 <= i < j < |edges| ==> edges[i] != edges[j])
  }

  predicate WellFormed(nodes: map<string, Node>, edges: seq<Edge>) {
    ValidNodes(nodes) && ValidEdges(nodes, edges)
  }

  // Every node stands under its own id.
  predicate Keyed(nodes: map<string, Node>) {
    forall id :: id in nodes ==> nodes[id].id == id
  }

  // The error `validate` gives for edge `k` when the edges before it are in order.
  function EdgeFault(nodes: map<string, Node>, edges: seq<Edge>, k: nat): (fault: Option<GraphError>)
    requires k < |edges|
    ensures fault.None? <==> ValidEdge(nodes, edges[k]) && edges[k] !in edges[..k]
  {
    FaultAfter(nodes, (set e | e in edges[..k]), edges[k])
  }

  class Graph {
    var nodes: map<string, Node>
    var edges: seq<Edge>

    predicate Valid()
      reads this
    {
      WellFormed(nodes, edges) && Keyed(nodes)
    }

    constructor ()
      ensures Valid() && nodes == map[] && edges == []
    {
      nodes, edges := map[], [];
    }

    // A node whose id is taken is reported as a duplicate and replaces the old one all the
    // same.
    method AddNode(node: Node) returns (result: Result<(), GraphError>)
      modifies `nodes
      ensures result == if !node.Valid() then Failure(InvalidNode)
                        else if node.id in old(nodes) then Failure(DuplicateNode)
                        else Success(())
      ensures nodes == if node.Valid() then old(nodes)[node.id := node] else old(nodes)
      ensures old(Valid()) ==> Valid()
    {
      if !node.Valid() {
        return Failure(InvalidNode);
      }
      var taken := node.id in nodes;
      nodes := nodes[node.id := node];
      if taken {
        return Failure(DuplicateNode);
      }
      return Success(());
    }

    // An edge is accepted exactly when the graph with it is well formed.
    method AddEdge(edge: Edge) returns (result: Result<(), GraphError>)
      modifies `edges
      ensures edges == if result.Success? then old(edges) + [edge] else old(edges)
      ensures old(Valid()) ==> (result.Success? <==> WellFormed(nodes, old(edges) + [edge]))
      ensures old(Valid()) ==> Valid()
      ensures !Attached(nodes, edge) ==> result == Failure(UnknownEndpoint)
      ensures Attached(nodes, edge) && SelfEdge(edge) ==> result == Failure(InvalidSelfEdge)
      ensures Attached(nodes, edge) && !SelfEdge(edge) && edge in old(edges) ==> result == Failure(DuplicateEdge)
      ensures result == Failure(InvalidProvenance) ==> !edge.provenance.Valid() && edge !in old(edges)
    {
      AppendedEdge(nodes, edges, edge);
      if !Attached(nodes, edge) {
        return Failure(UnknownEndpoint);
      }
      if SelfEdge(edge) {
        return Failure(InvalidSelfEdge);
      }
      if edge in edges {
        return Failure(DuplicateEdge);
      }
      if !edge.provenance.Valid() {
        return Failure(InvalidProvenance);
      }
      edges := edges + [edge];
      return Success(());
    }

    // Without the duplicate scan, the graph stays well formed exactly when the caller did
    // establish that the edge is new.
    method AddEdgeAfterDedup(edge: Edge) returns (result: Result<(), GraphError>)
      modifies `edges
      ensures result.Success? <==> ValidEdge(nodes, edge)
      ensures edges == if result.Success? then old(edges) + [edge] else old(edges)
      ensures old(Valid()) && result.Success? ==> (Valid() <==> edge !in old(edges))
      ensures old(Valid()) && result.Failure? ==> Valid()
    {
      AppendedEdge(nodes, edges, edge);
      if !Attached(nodes, edge) {
        return Failure(UnknownEndpoint);
      }
      if SelfEdge(edge) {
        return Failure(InvalidSelfEdge);
      }
      if !edge.provenance.Valid() {
        return Failure(InvalidProvenance);
      }
      edges := edges + [edge];
      return Success(());
    }

    // The verdict of the one pass with its growing set of seen edges.
    method Validate() returns (result: Result<(), GraphError>)
      ensures result.Success? <==> WellFormed(nodes, edges)
      ensures result == Failure(InvalidNode) <==> !ValidNodes(nodes)
      ensures ValidNodes(nodes) && result.Failure? ==>
                exists k :: 0 <= k < |edges| && ValidEdges(nodes, edges[..k])
                            && EdgeFault(nodes, edges, k) == Some(result.error)
    {
      var ids := nodes.Keys;
      while ids != {}
        invariant ids <= nodes.Keys && forall id :: id in nodes.Keys - ids ==> nodes[id].Valid()
      {
        var id :| id in ids;
        if !nodes[id].Valid() {
          return Failure(InvalidNode);
        }
        ids := ids - {id};
      }
      var fault := FirstFault(nodes, edges);
      return if fault.Some? then Failure(fault.value) else Success(());
    }
  }

  // The pass over the edges, with its growing set of edges seen.
  method FirstFault(nodes: map<string, Node>, edges: seq<Edge>) returns (fault: Option<GraphError>)
    ensures fault.None? <==> ValidEdges(nodes, edges)
    ensures fault.Some? ==>
              exists k :: 0 <= k < |edges| && ValidEdges(nodes, edges[..k]) && EdgeFault(nodes, edges, k) == fault
  {
    var seen: set<Edge> := {};
    for k := 0 to |edges|
      invariant ValidEdges(nodes, edges[..k])
      invariant forall e :: e in seen <==> e in edges[..k]
    {
      fault := FaultAfter(nodes, seen, edges[k]);
      if fault.Some? {
        assert (set e | e in edges[..k]) == seen;
        assert EdgeFault(nodes, edges, k) == fault;
        return;
      }
      AppendedEdge(nodes, edges[..k], edges[k]);
      assert edges[..k + 1] == edges[..k] + [edges[k]];
      seen := seen + {edges[k]};
    }
    assert edges[..|edges|] == edges;
    fault := None;
  }

  function FaultAfter(nodes: map<string, Node>, seen: set<Edge>, e: Edge): Option<GraphError> {
    if !Attached(nodes, e) then Some(UnknownEndpoint)
    else if !e.provenance.Valid() then Some(InvalidProvenance)
    else if SelfEdge(e) then Some(InvalidSelfEdge)
    else if e in seen then Some(DuplicateEdge)
    else None
  }

  lemma AppendedEdge(nodes: map<string, Node>, edges: seq<Edge>, e: Edge)
    ensures ValidEdges(nodes, edges + [e]) <==> ValidEdges(nodes, edges) && ValidEdge(nodes, e) && e !in edges
  {
    var t := edges + [e];
    assert forall k :: 0 <= k < |edges| ==> t[k] == edges[k];
    assert t[|edges|] == e;
  }
}
