// Well-formed graphs and the order of their differences, said of the fields of nodes and edges.
module GraphFields {
  import opened Wrappers
  import opened Sorting
  import opened SoftwareGraph
  import opened GraphDiff
  import opened Overlay
  import Text

  // ---- Well-formed graphs -------------------------------------------------------------------

  predicate Sourced(p: Provenance) {
    Text.Says(p.provider) && |p.provider| <= 128 && Text.Says(p.revision) && |p.revision| <= 256
  }

  predicate Presentable(n: Node) {
    Text.Name(n.id, 512) && Text.Says(n.title) && |n.title| <= 500 && Sourced(n.provenance)
  }

  // An edge between two nodes that are there, not from a node to itself unless it says that
  // the node conflicts with itself.
  predicate Proper(nodes: map<string, Node>, e: Edge) {
    e.from in nodes && e.to in nodes && Sourced(e.provenance) && (e.from == e.to ==> e.kind == ConflictsWith)
  }

  lemma WellFormedExactly(nodes: map<string, Node>, edges: seq<Edge>)
    ensures WellFormed(nodes, edges) <==>
              && (forall id :: id in nodes ==> Presentable(nodes[id]))
              && (forall i :: 0 <= i < |edges| ==> Proper(nodes, edges[i]))
              && (forall i, j :: 0 <= i < j < |edges| ==> edges[i] != edges[j])
  {
    forall id | id in nodes ensures nodes[id].Valid() <==> Presentable(nodes[id]) {
      NodeExactly(nodes[id]);
    }
    forall i | 0 <= i < |edges| ensures ValidEdge(nodes, edges[i]) <==> Proper(nodes, edges[i]) {
      EdgeExactly(nodes, edges[i]);
    }
  }

  lemma NodeExactly(n: Node)
    ensures n.Valid() <==> Presentable(n)
  {
    Text.NameIsValidId(n.id, 512);
    Text.SaysIsNotBlank(n.title);
    SourcedExactly(n.provenance);
  }

  lemma SourcedExactly(p: Provenance)
    ensures p.Valid() <==> Sourced(p)
  {
    Text.SaysIsNotBlank(p.provider);
    Text.SaysIsNotBlank(p.revision);
  }

  lemma EdgeExactly(nodes: map<string, Node>, e: Edge)
    ensures ValidEdge(nodes, e) <==> Proper(nodes, e)
  {
    SourcedExactly(e.provenance);
  }

  // Of several faults of one edge the check reports unknown ends first, then a bad
  // provenance, then a bad self edge, and a repetition last.
  lemma FaultExactly(nodes: map<string, Node>, edges: seq<Edge>, k: nat)
    requires k < |edges|
    ensures var (e, fault) := (edges[k], EdgeFault(nodes, edges, k));
      && (fault == Some(UnknownEndpoint) <==> !(e.from in nodes && e.to in nodes))
      && (fault == Some(InvalidProvenance) <==> e.from in nodes && e.to in nodes && !Sourced(e.provenance))
      && (fault == Some(InvalidSelfEdge) <==>
            e.from in nodes && e.to == e.from && Sourced(e.provenance) && e.kind != ConflictsWith)
      && (fault == Some(DuplicateEdge) <==> Proper(nodes, e) && exists i :: 0 <= i < k && edges[i] == e)
  {
    EdgeExactly(nodes, edges[k]);
    if edges[k] in edges[..k] {
      var i :| 0 <= i < k && edges[..k][i] == edges[k];
      assert edges[i] == edges[k];
    }
    if i :| 0 <= i < k && edges[i] == edges[k] {
      assert edges[..k][i] == edges[k];
    }
  }

  // An import names its source and tells how it knows; its nodes are apart, and its edges lead
  // from one node to another.
  ghost predicate Importable(m: Import) {
    && Sourced(m.provenance) && m.provenance.precision in {Semantic, Precision.Runtime, Deterministic, Heuristic}
    && |m.nodes| <= 10000 && |m.edges| <= 50000
    && (forall i :: 0 <= i < |m.nodes| ==>
          Text.Name(m.nodes[i].id, 512) && Text.Says(m.nodes[i].title) && |m.nodes[i].title| <= 500)
    && (forall i, j :: 0 <= i < j < |m.nodes| ==> m.nodes[i].id != m.nodes[j].id)
    && forall i :: 0 <= i < |m.edges| ==>
         Text.Name(m.edges[i].from, 512) && Text.Name(m.edges[i].to, 512) && m.edges[i].from != m.edges[i].to
  }

  lemma ImportExactly(m: Import)
    ensures m.Valid() <==> Importable(m)
  {
    SourcedExactly(m.provenance);
    forall i | 0 <= i < |m.nodes|
      ensures Text.Name(m.nodes[i].id, 512) <==> Text.ValidId(m.nodes[i].id, 512)
      ensures Text.Says(m.nodes[i].title) <==> !Text.Blank(m.nodes[i].title)
    {
      Text.NameIsValidId(m.nodes[i].id, 512);
      Text.SaysIsNotBlank(m.nodes[i].title);
    }
    forall i | 0 <= i < |m.edges|
      ensures Text.Name(m.edges[i].from, 512) <==> Text.ValidId(m.edges[i].from, 512)
      ensures Text.Name(m.edges[i].to, 512) <==> Text.ValidId(m.edges[i].to, 512)
    {
      Text.NameIsValidId(m.edges[i].from, 512);
      Text.NameIsValidId(m.edges[i].to, 512);
    }
  }

  // ---- The order of edges ------------------------------------------------------------------

  // The edges a difference compares with each other.
  lemma SameGroupExactly(a: Edge, b: Edge)
    ensures IdentityOf(a) == IdentityOf(b) <==>
              && a.from == b.from && a.to == b.to && a.kind == b.kind
              && a.provenance.provider == b.provenance.provider && a.provenance.precision == b.provenance.precision
  {
  }

  // The kinds in the order of their names.
  const KINDS: seq<EdgeKind> := [
    Calls, ConflictsWith, ConstrainedBy, Contains, Defines, DependsOn, EdgeKind.Extends, GuardsAgainst, Implements,
    ImplementsRequirement, Imports, ProducesEvidence, References, RuntimeCalls, TestedBy, VerifiedBy
  ]

  function Place(kind: EdgeKind): (at: nat)
    ensures at < |KINDS| && KINDS[at] == kind
  {
    match kind
    case Calls => 0
    case ConflictsWith => 1
    case ConstrainedBy => 2
    case Contains => 3
    case Defines => 4
    case DependsOn => 5
    case Extends => 6
    case GuardsAgainst => 7
    case Implements => 8
    case ImplementsRequirement => 9
    case Imports => 10
    case ProducesEvidence => 11
    case References => 12
    case RuntimeCalls => 13
    case TestedBy => 14
    case VerifiedBy => 15
  }

  // The names themselves, and where each parts from the next.
  const NAMES: seq<string> := [
    "Calls", "ConflictsWith", "ConstrainedBy", "Contains", "Defines", "DependsOn", "Extends", "GuardsAgainst",
    "Implements", "ImplementsRequirement", "Imports", "ProducesEvidence", "References", "RuntimeCalls", "TestedBy",
    "VerifiedBy"
  ]
  const PARTS: seq<nat> := [1, 3, 3, 0, 2, 0, 0, 0, 10, 3, 0, 0, 1, 0, 0]

  lemma NamesPart(i: nat)
    requires i < 15
    ensures Text.PartAt(NAMES[i], NAMES[i + 1], PARTS[i])
  {
    assert forall k :: 0 <= k < PARTS[i] ==> NAMES[i][k] == NAMES[i + 1][k];
  }

  lemma {:induction false} NamesAscend(i: nat, j: nat)
    requires i < j < 16
    ensures Text.Less(NAMES[i], NAMES[j])
  {
    NamesPart(j - 1);
    Text.LessIsLexical(NAMES[j - 1], NAMES[j]);
    if i < j - 1 {
      NamesAscend(i, j - 1);
      Text.LessTransitive(NAMES[i], NAMES[j - 1], NAMES[j]);
    }
  }

  lemma NameAt(kind: EdgeKind)
    ensures SortName(kind) == NAMES[Place(kind)]
  {
  }

  lemma KindsExactly(a: EdgeKind, b: EdgeKind)
    ensures Text.Less(SortName(a), SortName(b)) <==> Place(a) < Place(b)
    ensures SortName(a) == SortName(b) <==> a == b
  {
    NameAt(a);
    NameAt(b);
    var (i, j) := (Place(a), Place(b));
    NamesApart(i, j);
    assert i == j ==> a == KINDS[i] == b;
  }

  lemma NamesApart(i: nat, j: nat)
    requires i < 16 && j < 16
    ensures Text.Less(NAMES[i], NAMES[j]) <==> i < j
    ensures NAMES[i] == NAMES[j] <==> i == j
  {
    Text.LessIrreflexive(NAMES[i]);
    if i < j {
      NamesAscend(i, j);
    } else if j < i {
      NamesAscend(j, i);
      Text.LessAsymmetric(NAMES[j], NAMES[i]);
    }
  }

  // By start, then by end, then by the name of the kind, then by provider and revision.
  predicate SortsBefore(a: Edge, b: Edge) {
    var (p, q) := (a.provenance, b.provenance);
    || Text.Less(a.from, b.from)
    || (a.from == b.from && Text.Less(a.to, b.to))
    || (a.from == b.from && a.to == b.to && Place(a.kind) < Place(b.kind))
    || (a.from == b.from && a.to == b.to && a.kind == b.kind && Text.Less(p.provider, q.provider))
    || (a.from == b.from && a.to == b.to && a.kind == b.kind && p.provider == q.provider
        && Text.Less(p.revision, q.revision))
  }

  lemma FieldsStep(a: seq<string>, b: seq<string>)
    requires |a| == |b| > 0
    ensures FieldsBefore(a, b) <==> Text.Less(a[0], b[0]) || (a[0] == b[0] && FieldsBefore(a[1..], b[1..]))
  {
  }

  lemma BeforeExactly(a: Edge, b: Edge)
    ensures Before(a, b) <==> SortsBefore(a, b)
  {
    var (s, t) := (SortFields(a), SortFields(b));
    KindsExactly(a.kind, b.kind);
    FieldsStep(s, t);
    FieldsStep(s[1..], t[1..]);
    FieldsStep(s[2..], t[2..]);
    FieldsStep(s[3..], t[3..]);
    FieldsStep(s[4..], t[4..]);
    assert s[5..] == [] && t[5..] == [];
    assert s[1..][1..] == s[2..] && s[2..][1..] == s[3..] && s[3..][1..] == s[4..] && s[4..][1..] == s[5..];
    assert t[1..][1..] == t[2..] && t[2..][1..] == t[3..] && t[3..][1..] == t[4..] && t[4..][1..] == t[5..];
  }
}
