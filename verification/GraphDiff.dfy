// The difference of two stored graphs. Edges are compared group by group; within a group
// only the revision can differ.
module GraphDiff {
  import opened Wrappers
  import opened Sorting
  import opened SoftwareGraph
  import Text

  datatype Change<T> = Change(before: T, after: T)

  datatype Identity = Identity(from: string, to: string, kind: EdgeKind, provider: string, precision: Precision)

  datatype NodeDelta = NodeDelta(added: seq<Node>, removed: seq<Node>, changed: seq<Change<Node>>)

  datatype EdgeDelta = EdgeDelta(added: seq<Edge>, removed: seq<Edge>, changed: seq<Change<Edge>>)

  function IdentityOf(e: Edge): Identity {
    Identity(e.from, e.to, e.kind, e.provenance.provider, e.provenance.precision)
  }

  // Identity and revision are all there is to an edge.
  lemma IdentityAndRevision(a: Edge, b: Edge)
    ensures a == b <==> IdentityOf(a) == IdentityOf(b) && a.provenance.revision == b.provenance.revision
  {
  }

  // ---- Edge order ------------------------------------------------------------------

  function SortName(kind: EdgeKind): string {
    match kind
    case Contains => "Contains"
    case Defines => "Defines"
    case References => "References"
    case Calls => "Calls"
    case Imports => "Imports"
    case DependsOn => "DependsOn"
    case Implements => "Implements"
    case Extends => "Extends"
    case ImplementsRequirement => "ImplementsRequirement"
    case ConstrainedBy => "ConstrainedBy"
    case TestedBy => "TestedBy"
    case VerifiedBy => "VerifiedBy"
    case GuardsAgainst => "GuardsAgainst"
    case ProducesEvidence => "ProducesEvidence"
    case RuntimeCalls => "RuntimeCalls"
    case ConflictsWith => "ConflictsWith"
  }

  // The fields compared, in order; precision is not among them.
  function SortFields(e: Edge): seq<string> {
    [e.from, e.to, SortName(e.kind), e.provenance.provider, e.provenance.revision]
  }

  predicate FieldsBefore(a: seq<string>, b: seq<string>) {
    a != [] && b != [] && (Text.Less(a[0], b[0]) || (a[0] == b[0] && FieldsBefore(a[1..], b[1..])))
  }

  predicate Before(a: Edge, b: Edge) {
    FieldsBefore(SortFields(a), SortFields(b))
  }

  lemma {:induction false} FieldsIrreflexive(a: seq<string>)
    ensures !FieldsBefore(a, a)
  {
    if a != [] {
      Text.LessIrreflexive(a[0]);
      FieldsIrreflexive(a[1..]);
    }
  }

  lemma {:induction false} FieldsTransitive(a: seq<string>, b: seq<string>, c: seq<string>)
    requires FieldsBefore(a, b) && FieldsBefore(b, c)
    ensures FieldsBefore(a, c)
  {
    Text.LessIrreflexive(a[0]);
    if a[0] == b[0] && b[0] == c[0] {
      FieldsTransitive(a[1..], b[1..], c[1..]);
    } else if a[0] != b[0] && b[0] != c[0] {
      Text.LessTransitive(a[0], b[0], c[0]);
    }
  }

  lemma {:induction false} FieldsTotal(a: seq<string>, b: seq<string>)
    requires |a| == |b|
    ensures a == b || FieldsBefore(a, b) || FieldsBefore(b, a)
  {
    if a != [] {
      Text.LessTotal(a[0], b[0]);
      if a[0] == b[0] {
        FieldsTotal(a[1..], b[1..]);
        assert a == [a[0]] + a[1..] && b == [b[0]] + b[1..];
      }
    }
  }

  lemma BeforeIsWeakOrder()
    ensures WeakOrder(Before)
  {
    forall a: Edge ensures !Before(a, a) {
      FieldsIrreflexive(SortFields(a));
    }
    forall a: Edge, b: Edge, c: Edge | Before(a, b) && Before(b, c) ensures Before(a, c) {
      FieldsTransitive(SortFields(a), SortFields(b), SortFields(c));
    }
    forall a: Edge, b: Edge, c: Edge | Before(a, c) ensures Before(a, b) || Before(b, c) {
      FieldsTotal(SortFields(a), SortFields(b));
      if FieldsBefore(SortFields(b), SortFields(a)) {
        FieldsTransitive(SortFields(b), SortFields(a), SortFields(c));
      }
    }
  }

  // ---- One group -------------------------------------------------------------------

  function Group(edges: seq<Edge>, id: Identity): seq<Edge> {
    Select(edges, (e: Edge) => IdentityOf(e) == id)
  }

  // The edges of `ours` whose revision `theirs` does not have, in order.
  function Unmatched(ours: seq<Edge>, theirs: seq<Edge>): seq<Edge> {
    Sorted(Select(ours, (e: Edge) => !HasRevision(theirs, e.provenance.revision)), Before)
  }

  predicate HasRevision(edges: seq<Edge>, revision: string) {
    exists i :: 0 <= i < |edges| && edges[i].provenance.revision == revision
  }

  function Pairs<T>(a: seq<T>, b: seq<T>): (pairs: seq<Change<T>>)
    requires |a| == |b|
  {
    seq(|a|, i requires 0 <= i < |a| => Change(a[i], b[i]))
  }

  function BeforeOf<T>(c: Change<T>): T {
    c.before
  }

  function AfterOf<T>(c: Change<T>): T {
    c.after
  }

  function Befores<T>(changes: seq<Change<T>>): seq<T> {
    Image(changes, BeforeOf)
  }

  function Afters<T>(changes: seq<Change<T>>): seq<T> {
    Image(changes, AfterOf)
  }

  function Min(a: nat, b: nat): nat {
    if a < b then a else b
  }

  // `diff_edge_group`: the revisions only one side has are paired off in order as changes;
  // what is left over on one side was removed or added.
  function GroupDelta(before: seq<Edge>, after: seq<Edge>): EdgeDelta {
    var (gone, come) := (Unmatched(before, after), Unmatched(after, before));
    var paired := Min(|gone|, |come|);
    EdgeDelta(come[paired..], gone[paired..], Pairs(gone[..paired], come[..paired]))
  }

  // ---- Accounting --------------------------------------------------------------------

  // How often `e` went from the one list on the way to the other.
  function Lost(from: seq<Edge>, to: seq<Edge>, e: Edge): nat {
    if e in to then 0 else multiset(from)[e]
  }

  function Out(d: EdgeDelta): multiset<Edge> {
    multiset(d.removed) + multiset(Befores(d.changed))
  }

  function In(d: EdgeDelta): multiset<Edge> {
    multiset(d.added) + multiset(Afters(d.changed))
  }

  // What a delta that covers the groups in `done` owes to the two lists.
  ghost predicate Accounts(from: seq<Edge>, to: seq<Edge>, done: set<Identity>, d: EdgeDelta) {
    && (forall e :: Out(d)[e] == if IdentityOf(e) in done then Lost(from, to, e) else 0)
    && (forall e :: In(d)[e] == if IdentityOf(e) in done then Lost(to, from, e) else 0)
  }

  // `b` has the later revision of the two.
  predicate Later(a: Edge, b: Edge) {
    Text.Less(a.provenance.revision, b.provenance.revision)
  }

  // Of two changes of a group, the one from the earlier revision leads to no later one.
  predicate InStep(changed: seq<Change<Edge>>) {
    forall c, e :: c in changed && e in changed ==> !Crossing(c, e)
  }

  predicate Crossing(c: Change<Edge>, e: Change<Edge>) {
    IdentityOf(c.before) == IdentityOf(e.before) && Later(c.before, e.before) && Later(e.after, c.after)
  }

  // What is left over of a group stands behind everything that was paired.
  predicate Behind(changed: seq<Change<Edge>>, side: Change<Edge> -> Edge, rest: seq<Edge>) {
    forall c, r :: c in changed && r in rest ==> !(IdentityOf(side(c)) == IdentityOf(r) && Later(r, side(c)))
  }

  // A group pairs revisions in their order.
  predicate Orderly(d: EdgeDelta) {
    InStep(d.changed) && Behind(d.changed, AfterOf, d.added) && Behind(d.changed, BeforeOf, d.removed)
  }

  // A change stays within a group, and no group both gains and loses edges.
  predicate OneSided(done: set<Identity>, d: EdgeDelta) {
    && Orderly(d)
    && (forall c :: c in d.changed ==> IdentityOf(c.before) in done)
    && (forall c :: c in d.changed ==> IdentityOf(c.before) == IdentityOf(c.after))
    && (forall a :: a in d.added ==> IdentityOf(a) in done)
    && (forall r :: r in d.removed ==> IdentityOf(r) in done)
    && (forall a, r :: a in d.added && r in d.removed ==> IdentityOf(a) != IdentityOf(r))
  }

  function Join(a: EdgeDelta, b: EdgeDelta): EdgeDelta {
    EdgeDelta(a.added + b.added, a.removed + b.removed, a.changed + b.changed)
  }

  lemma GroupMembers(edges: seq<Edge>, id: Identity)
    ensures forall e :: multiset(Group(edges, id))[e] == if IdentityOf(e) == id then multiset(edges)[e] else 0
    ensures forall e :: e in Group(edges, id) <==> e in edges && IdentityOf(e) == id
  {
    forall e ensures multiset(Group(edges, id))[e] == if IdentityOf(e) == id then multiset(edges)[e] else 0 {
      SelectCount(edges, (e: Edge) => IdentityOf(e) == id, e);
    }
    forall e ensures e in Group(edges, id) <==> e in edges && IdentityOf(e) == id {
      assert e in Group(edges, id) <==> e in multiset(Group(edges, id));
      assert e in edges <==> e in multiset(edges);
    }
  }

  lemma RevisionHeld(edges: seq<Edge>, e: Edge)
    ensures HasRevision(Group(edges, IdentityOf(e)), e.provenance.revision) <==> e in edges
  {
    var group := Group(edges, IdentityOf(e));
    GroupMembers(edges, IdentityOf(e));
    if i :| 0 <= i < |group| && group[i].provenance.revision == e.provenance.revision {
      assert group[i] in group;
      IdentityAndRevision(group[i], e);
    }
    if e in edges {
      var i :| 0 <= i < |group| && group[i] == e;
    }
  }

  lemma UnmatchedCount(from: seq<Edge>, to: seq<Edge>, id: Identity, e: Edge)
    ensures multiset(Unmatched(Group(from, id), Group(to, id)))[e] ==
              if IdentityOf(e) == id then Lost(from, to, e) else 0
  {
    var (ours, theirs) := (Group(from, id), Group(to, id));
    var p := (x: Edge) => !HasRevision(theirs, x.provenance.revision);
    GroupMembers(from, id);
    SortedContents(Select(ours, p), Before);
    SelectCount(ours, p, e);
    RevisionHeld(to, e);
  }

  lemma GroupTurnover(before: seq<Edge>, after: seq<Edge>)
    ensures var d := GroupDelta(before, after);
      Out(d) == multiset(Unmatched(before, after)) && In(d) == multiset(Unmatched(after, before))
  {
    Turnover(Unmatched(before, after), Unmatched(after, before));
  }

  lemma Turnover(gone: seq<Edge>, come: seq<Edge>)
    ensures var paired := Min(|gone|, |come|);
      var d := EdgeDelta(come[paired..], gone[paired..], Pairs(gone[..paired], come[..paired]));
      Out(d) == multiset(gone) && In(d) == multiset(come)
  {
    var paired := Min(|gone|, |come|);
    var pairs := Pairs(gone[..paired], come[..paired]);
    assert Befores(pairs) == gone[..paired] && Afters(pairs) == come[..paired];
    assert gone[..paired] + gone[paired..] == gone && come[..paired] + come[paired..] == come;
  }

  lemma GroupAccounts(from: seq<Edge>, to: seq<Edge>, id: Identity)
    ensures Accounts(from, to, {id}, GroupDelta(Group(from, id), Group(to, id)))
  {
    var d := GroupDelta(Group(from, id), Group(to, id));
    GroupTurnover(Group(from, id), Group(to, id));
    forall e ensures Out(d)[e] == if IdentityOf(e) in {id} then Lost(from, to, e) else 0 {
      UnmatchedCount(from, to, id, e);
    }
    forall e ensures In(d)[e] == if IdentityOf(e) in {id} then Lost(to, from, e) else 0 {
      UnmatchedCount(to, from, id, e);
    }
  }

  lemma UnmatchedIdentity(from: seq<Edge>, to: seq<Edge>, id: Identity)
    ensures forall i :: 0 <= i < |Unmatched(Group(from, id), Group(to, id))| ==>
              IdentityOf(Unmatched(Group(from, id), Group(to, id))[i]) == id
  {
    var list := Unmatched(Group(from, id), Group(to, id));
    forall i | 0 <= i < |list| ensures IdentityOf(list[i]) == id {
      UnmatchedCount(from, to, id, list[i]);
      assert list[i] in multiset(list);
    }
  }

  lemma {:induction false} LaterInGroup(a: Edge, b: Edge)
    requires IdentityOf(a) == IdentityOf(b)
    ensures Before(a, b) <==> Later(a, b)
  {
    Text.LessIrreflexive(a.from);
    Text.LessIrreflexive(a.to);
    Text.LessIrreflexive(SortName(a.kind));
    Text.LessIrreflexive(a.provenance.provider);
    FieldsTail(SortFields(a), SortFields(b));
    FieldsTail(SortFields(a)[1..], SortFields(b)[1..]);
    FieldsTail(SortFields(a)[2..], SortFields(b)[2..]);
    FieldsTail(SortFields(a)[3..], SortFields(b)[3..]);
    assert SortFields(a)[4..] == [a.provenance.revision] && SortFields(b)[4..] == [b.provenance.revision];
  }

  lemma FieldsTail(a: seq<string>, b: seq<string>)
    requires a != [] && b != [] && a[0] == b[0] && !Text.Less(a[0], b[0])
    ensures FieldsBefore(a, b) <==> FieldsBefore(a[1..], b[1..])
  {
  }

  // The `i`-th of a group in order and the `j`-th of it.
  lemma OrderedGroup(list: seq<Edge>, id: Identity, i: nat, j: nat)
    requires i < |list| && j < |list| && NonDescending(list, Before)
    requires forall k :: 0 <= k < |list| ==> IdentityOf(list[k]) == id
    ensures Later(list[i], list[j]) ==> i < j
  {
    LaterInGroup(list[i], list[j]);
    if i == j {
      FieldsIrreflexive(SortFields(list[i]));
    }
  }

  lemma UnmatchedOrdered(ours: seq<Edge>, theirs: seq<Edge>)
    ensures NonDescending(Unmatched(ours, theirs), Before)
  {
    BeforeIsWeakOrder();
    SortedOrder(Select(ours, (e: Edge) => !HasRevision(theirs, e.provenance.revision)), Before);
  }

  predicate AllOf(list: seq<Edge>, id: Identity) {
    NonDescending(list, Before) && forall k :: 0 <= k < |list| ==> IdentityOf(list[k]) == id
  }

  lemma PairsInStep(gone: seq<Edge>, come: seq<Edge>, id: Identity)
    requires |gone| == |come| && AllOf(gone, id) && AllOf(come, id)
    ensures InStep(Pairs(gone, come))
  {
    var changed := Pairs(gone, come);
    forall c, e | c in changed && e in changed ensures !Crossing(c, e) {
      var i :| 0 <= i < |changed| && changed[i] == c;
      var j :| 0 <= j < |changed| && changed[j] == e;
      OrderedGroup(gone, id, i, j);
      OrderedGroup(come, id, j, i);
    }
  }

  lemma RestBehind(changed: seq<Change<Edge>>, side: Change<Edge> -> Edge, list: seq<Edge>, id: Identity)
    requires AllOf(list, id) && |changed| <= |list| && forall i :: 0 <= i < |changed| ==> side(changed[i]) == list[i]
    ensures Behind(changed, side, list[|changed|..])
  {
    var rest := list[|changed|..];
    forall c, r | c in changed && r in rest ensures !Later(r, side(c)) {
      var i :| 0 <= i < |changed| && changed[i] == c;
      var j :| 0 <= j < |rest| && rest[j] == r;
      OrderedGroup(list, id, |changed| + j, i);
    }
  }

  lemma PairsOrderly(gone: seq<Edge>, come: seq<Edge>, paired: nat, id: Identity)
    requires paired <= |gone| && paired <= |come| && AllOf(gone, id) && AllOf(come, id)
    ensures Orderly(EdgeDelta(come[paired..], gone[paired..], Pairs(gone[..paired], come[..paired])))
  {
    var changed := Pairs(gone[..paired], come[..paired]);
    PairsInStep(gone[..paired], come[..paired], id);
    RestBehind(changed, AfterOf, come, id);
    RestBehind(changed, BeforeOf, gone, id);
  }

  lemma GroupOneSided(from: seq<Edge>, to: seq<Edge>, id: Identity)
    ensures OneSided({id}, GroupDelta(Group(from, id), Group(to, id)))
  {
    var (gone, come) := (Unmatched(Group(from, id), Group(to, id)), Unmatched(Group(to, id), Group(from, id)));
    UnmatchedIdentity(from, to, id);
    UnmatchedIdentity(to, from, id);
    UnmatchedOrdered(Group(from, id), Group(to, id));
    UnmatchedOrdered(Group(to, id), Group(from, id));
    PairsOrderly(gone, come, Min(|gone|, |come|), id);
  }

  lemma JoinAccounts(from: seq<Edge>, to: seq<Edge>, a: set<Identity>, b: set<Identity>, d: EdgeDelta, g: EdgeDelta)
    requires Accounts(from, to, a, d) && Accounts(from, to, b, g) && a !! b
    ensures Accounts(from, to, a + b, Join(d, g))
  {
    assert Befores(d.changed + g.changed) == Befores(d.changed) + Befores(g.changed);
    assert Afters(d.changed + g.changed) == Afters(d.changed) + Afters(g.changed);
    assert Out(Join(d, g)) == Out(d) + Out(g);
    assert In(Join(d, g)) == In(d) + In(g);
  }

  lemma JoinOneSided(a: set<Identity>, b: set<Identity>, d: EdgeDelta, g: EdgeDelta)
    requires OneSided(a, d) && OneSided(b, g) && a !! b
    ensures OneSided(a + b, Join(d, g))
  {
  }

  // ---- All edges -----------------------------------------------------------------------

  function Identities(edges: seq<Edge>): set<Identity> {
    set e | e in edges :: IdentityOf(e)
  }

  // What the full list of edge differences says.
  ghost predicate EdgesCompared(from: seq<Edge>, to: seq<Edge>, d: EdgeDelta) {
    && (forall e :: Out(d)[e] == Lost(from, to, e))
    && (forall e :: In(d)[e] == Lost(to, from, e))
    && OneSided(Identities(from) + Identities(to), d)
  }

  method GroupedEdges(edges: seq<Edge>) returns (groups: map<Identity, seq<Edge>>)
    ensures Grouped(groups, edges)
  {
    groups := map[];
    for i := 0 to |edges|
      invariant groups.Keys == Identities(edges[..i])
      invariant forall id :: id in groups ==> groups[id] == Group(edges[..i], id)
    {
      var e := edges[i];
      var id := IdentityOf(e);
      assert edges[..i + 1] == edges[..i] + [e];
      GroupOfNone(edges[..i], id);
      groups := groups[id := (if id in groups then groups[id] else []) + [e]];
    }
    assert edges[..|edges|] == edges;
  }

  lemma GroupOfNone(edges: seq<Edge>, id: Identity)
    ensures id !in Identities(edges) ==> Group(edges, id) == []
  {
    GroupMembers(edges, id);
    if Group(edges, id) != [] {
      assert Group(edges, id)[0] in edges;
    }
  }

  lemma JoinGroup(from: seq<Edge>, to: seq<Edge>, done: set<Identity>, d: EdgeDelta, id: Identity, g: EdgeDelta)
    requires Accounts(from, to, done, d) && OneSided(done, d) && id !in done
    requires Accounts(from, to, {id}, g) && OneSided({id}, g)
    ensures Accounts(from, to, done + {id}, Join(d, g)) && OneSided(done + {id}, Join(d, g))
  {
    JoinAccounts(from, to, done, {id}, d, g);
    JoinOneSided(done, {id}, d, g);
  }

  // A group only the new list has is added as it stands.
  lemma AddedGroup(from: seq<Edge>, to: seq<Edge>, id: Identity)
    requires id !in Identities(from)
    ensures Accounts(from, to, {id}, EdgeDelta(Group(to, id), [], []))
    ensures OneSided({id}, EdgeDelta(Group(to, id), [], []))
  {
    GroupMembers(to, id);
    var d := EdgeDelta(Group(to, id), [], []);
    forall e ensures Out(d)[e] == if IdentityOf(e) in {id} then Lost(from, to, e) else 0 {
      assert IdentityOf(e) == id ==> e !in from;
    }
    forall e ensures In(d)[e] == if IdentityOf(e) in {id} then Lost(to, from, e) else 0 {
      assert IdentityOf(e) == id ==> e !in from;
    }
  }

  predicate ChangeBefore(a: Change<Edge>, b: Change<Edge>) {
    Before(a.before, b.before)
  }

  function SortedDelta(d: EdgeDelta): EdgeDelta {
    EdgeDelta(Sorted(d.added, Before), Sorted(d.removed, Before), Sorted(d.changed, ChangeBefore))
  }

  lemma SortedDeltaOrdered(d: EdgeDelta)
    ensures NonDescending(SortedDelta(d).added, Before) && NonDescending(SortedDelta(d).removed, Before)
    ensures NonDescending(Befores(SortedDelta(d).changed), Before)
  {
    BeforeIsWeakOrder();
    SortedOrder(d.added, Before);
    SortedOrder(d.removed, Before);
    ChangeBeforeIsWeakOrder();
    SortedOrder(d.changed, ChangeBefore);
    var (t, u) := (SortedDelta(d).changed, Befores(SortedDelta(d).changed));
    forall i, j | 0 <= i < j < |u| ensures !Before(u[j], u[i]) {
      assert !ChangeBefore(t[j], t[i]);
    }
  }

  lemma ChangeBeforeIsWeakOrder()
    ensures WeakOrder(ChangeBefore)
  {
    BeforeIsWeakOrder();
    forall a: Change<Edge>, b: Change<Edge>, c: Change<Edge> | ChangeBefore(a, c)
      ensures ChangeBefore(a, b) || ChangeBefore(b, c)
    {
      assert Before(a.before, b.before) || Before(b.before, c.before);
    }
    forall a: Change<Edge>, b: Change<Edge>, c: Change<Edge> | ChangeBefore(a, b) && ChangeBefore(b, c)
      ensures ChangeBefore(a, c)
    {
      assert Before(a.before, c.before);
    }
  }

  // Sorting at the end moves nothing between the lists.
  lemma SortedTurnover(d: EdgeDelta)
    ensures Out(SortedDelta(d)) == Out(d) && In(SortedDelta(d)) == In(d)
  {
    SortedContents(d.added, Before);
    SortedContents(d.removed, Before);
    SortedContents(d.changed, ChangeBefore);
    ImagePermutation(SortedDelta(d).changed, d.changed, BeforeOf);
    ImagePermutation(SortedDelta(d).changed, d.changed, AfterOf);
    assert multiset(Befores(SortedDelta(d).changed)) == multiset(Befores(d.changed));
    assert multiset(Afters(SortedDelta(d).changed)) == multiset(Afters(d.changed));
  }

  lemma SortedOrderly(d: EdgeDelta)
    requires Orderly(d)
    ensures Orderly(SortedDelta(d))
  {
    SortedMembers(d.added, Before);
    SortedMembers(d.removed, Before);
    SortedMembers(d.changed, ChangeBefore);
  }

  lemma SortedOneSided(done: set<Identity>, d: EdgeDelta)
    requires OneSided(done, d)
    ensures OneSided(done, SortedDelta(d))
  {
    SortedOrderly(d);
    SortedMembers(d.added, Before);
    SortedMembers(d.removed, Before);
    SortedMembers(d.changed, ChangeBefore);
  }

  lemma AllAccounted(from: seq<Edge>, to: seq<Edge>, d: EdgeDelta)
    requires var done := Identities(from) + Identities(to); Accounts(from, to, done, d) && OneSided(done, d)
    ensures EdgesCompared(from, to, d)
  {
    var done := Identities(from) + Identities(to);
    forall e ensures Out(d)[e] == Lost(from, to, e) {
      assert e in from ==> IdentityOf(e) in Identities(from);
    }
    forall e ensures In(d)[e] == Lost(to, from, e) {
      assert e in to ==> IdentityOf(e) in Identities(to);
    }
  }

  ghost predicate Covers(from: seq<Edge>, to: seq<Edge>, done: set<Identity>, d: EdgeDelta) {
    Accounts(from, to, done, d) && OneSided(done, d)
  }

  predicate Grouped(groups: map<Identity, seq<Edge>>, edges: seq<Edge>) {
    groups.Keys == Identities(edges) && forall id :: id in groups ==> groups[id] == Group(edges, id)
  }

  function GroupAt(groups: map<Identity, seq<Edge>>, id: Identity): seq<Edge> {
    if id in groups then groups[id] else []
  }

  lemma CoverOld(from: seq<Edge>, to: seq<Edge>, toGroups: map<Identity, seq<Edge>>, done: set<Identity>,
                 d: EdgeDelta, id: Identity)
    requires Covers(from, to, done, d) && id !in done && Grouped(toGroups, to)
    ensures Covers(from, to, done + {id}, Join(d, GroupDelta(Group(from, id), GroupAt(toGroups, id))))
  {
    GroupOfNone(to, id);
    GroupAccounts(from, to, id);
    GroupOneSided(from, to, id);
    JoinGroup(from, to, done, d, id, GroupDelta(Group(from, id), Group(to, id)));
  }

  lemma CoverNew(from: seq<Edge>, to: seq<Edge>, toGroups: map<Identity, seq<Edge>>, done: set<Identity>,
                 d: EdgeDelta, id: Identity)
    requires Covers(from, to, done, d) && id !in done && Grouped(toGroups, to)
    requires id !in Identities(from) && id in toGroups
    ensures Covers(from, to, done + {id}, Join(d, EdgeDelta(toGroups[id], [], [])))
  {
    AddedGroup(from, to, id);
    JoinGroup(from, to, done, d, id, EdgeDelta(Group(to, id), [], []));
  }

  ghost function Cover(from: seq<Edge>, to: seq<Edge>): (set<Identity>, EdgeDelta) -> bool {
    (done: set<Identity>, d: EdgeDelta) => Covers(from, to, done, d)
  }

  // Each group met extends what is covered.
  ghost predicate Extends(fromGroups: map<Identity, seq<Edge>>, toGroups: map<Identity, seq<Edge>>,
                          covers: (set<Identity>, EdgeDelta) -> bool)
  {
    && (forall done, d, id :: covers(done, d) && id in fromGroups && id !in done ==>
          covers(done + {id}, Join(d, GroupDelta(fromGroups[id], GroupAt(toGroups, id)))))
    && (forall done, d, id :: covers(done, d) && id in toGroups && id !in fromGroups && id !in done ==>
          covers(done + {id}, Join(d, EdgeDelta(toGroups[id], [], []))))
  }

  lemma CoverExtends(from: seq<Edge>, to: seq<Edge>, fromGroups: map<Identity, seq<Edge>>,
                     toGroups: map<Identity, seq<Edge>>)
    requires Grouped(fromGroups, from) && Grouped(toGroups, to)
    ensures Extends(fromGroups, toGroups, Cover(from, to))
    ensures Cover(from, to)({}, EdgeDelta([], [], []))
  {
    ghost var covers := Cover(from, to);
    forall done, d, id | covers(done, d) && id in fromGroups && id !in done
      ensures covers(done + {id}, Join(d, GroupDelta(fromGroups[id], GroupAt(toGroups, id))))
    {
      CoverOld(from, to, toGroups, done, d, id);
    }
    forall done, d, id | covers(done, d) && id in toGroups && id !in fromGroups && id !in done
      ensures covers(done + {id}, Join(d, EdgeDelta(toGroups[id], [], [])))
    {
      CoverNew(from, to, toGroups, done, d, id);
    }
  }

  // The groups of the old list, in any order, and then those the old list did not have.
  method DiffGroups(fromGroups: map<Identity, seq<Edge>>, toGroups: map<Identity, seq<Edge>>,
                    ghost covers: (set<Identity>, EdgeDelta) -> bool)
    returns (d: EdgeDelta)
    requires covers({}, EdgeDelta([], [], [])) && Extends(fromGroups, toGroups, covers)
    ensures covers(fromGroups.Keys + toGroups.Keys, d)
  {
    d := EdgeDelta([], [], []);
    var rest := toGroups;
    ghost var done: set<Identity> := {};
    var left := fromGroups.Keys;
    while left != {}
      invariant left <= fromGroups.Keys && done == fromGroups.Keys - left
      invariant rest == toGroups - done && covers(done, d)
    {
      var id :| id in left;
      var after := GroupAt(rest, id);
      assert after == GroupAt(toGroups, id);
      rest := rest - {id};
      d := Join(d, GroupDelta(fromGroups[id], after));
      left := left - {id};
      done := done + {id};
    }
    left := rest.Keys;
    while left != {}
      invariant left <= rest.Keys && rest == toGroups - fromGroups.Keys
      invariant done == fromGroups.Keys + (rest.Keys - left) && covers(done, d)
    {
      var id :| id in left;
      d := Join(d, EdgeDelta(rest[id], [], []));
      left := left - {id};
      done := done + {id};
    }
    assert done == fromGroups.Keys + toGroups.Keys;
  }

  method DiffEdges(from: seq<Edge>, to: seq<Edge>) returns (d: EdgeDelta)
    ensures EdgesCompared(from, to, d)
    ensures NonDescending(d.added, Before) && NonDescending(d.removed, Before)
    ensures NonDescending(Befores(d.changed), Before)
  {
    var fromGroups := GroupedEdges(from);
    var toGroups := GroupedEdges(to);
    CoverExtends(from, to, fromGroups, toGroups);
    d := DiffGroups(fromGroups, toGroups, Cover(from, to));
    SortedCompared(from, to, d);
    d := SortedDelta(d);
  }

  lemma SortedCompared(from: seq<Edge>, to: seq<Edge>, d: EdgeDelta)
    requires Cover(from, to)(Identities(from) + Identities(to), d)
    ensures EdgesCompared(from, to, SortedDelta(d))
    ensures NonDescending(SortedDelta(d).added, Before) && NonDescending(SortedDelta(d).removed, Before)
    ensures NonDescending(Befores(SortedDelta(d).changed), Before)
  {
    AllAccounted(from, to, d);
    SortedTurnover(d);
    SortedOneSided(Identities(from) + Identities(to), d);
    SortedDeltaOrdered(d);
  }

  // ---- The edge patch -------------------------------------------------------------------

  function PatchedEdges(from: seq<Edge>, d: EdgeDelta): multiset<Edge> {
    multiset(from) - Out(d) + In(d)
  }

  // Taking out what the delta takes out and putting in what it puts in yields the new edges
  // exactly when every edge both graphs have occurs equally often in both.
  lemma EdgePatchExactly(from: seq<Edge>, to: seq<Edge>, d: EdgeDelta)
    requires EdgesCompared(from, to, d)
    ensures PatchedEdges(from, d) == multiset(to) <==>
            forall e :: e in from && e in to ==> multiset(from)[e] == multiset(to)[e]
  {
    forall e ensures PatchedEdges(from, d)[e] ==
                       if e in from && e in to then multiset(from)[e] else multiset(to)[e]
    {
      assert e in from <==> e in multiset(from);
      assert e in to <==> e in multiset(to);
      assert Out(d)[e] == Lost(from, to, e) && In(d)[e] == Lost(to, from, e);
    }
    if forall e :: e in from && e in to ==> multiset(from)[e] == multiset(to)[e] {
      forall e ensures PatchedEdges(from, d)[e] == multiset(to)[e] {
      }
    } else {
      var e :| e in from && e in to && multiset(from)[e] != multiset(to)[e];
      assert PatchedEdges(from, d)[e] != multiset(to)[e];
    }
  }

  // On well-formed graphs it always does, and the old edges hold all that is taken out.
  lemma EdgePatch(
    fromNodes: map<string, Node>, from: seq<Edge>, toNodes: map<string, Node>, to: seq<Edge>, d: EdgeDelta)
    requires ValidEdges(fromNodes, from) && ValidEdges(toNodes, to) && EdgesCompared(from, to, d)
    ensures PatchedEdges(from, d) == multiset(to) && Out(d) <= multiset(from) && In(d) <= multiset(to)
  {
    SameCounts(from, to);
    EdgePatchExactly(from, to, d);
    forall e ensures Out(d)[e] <= multiset(from)[e] && In(d)[e] <= multiset(to)[e] {
      assert Out(d)[e] == Lost(from, to, e) && In(d)[e] == Lost(to, from, e);
    }
  }

  lemma SameCounts(from: seq<Edge>, to: seq<Edge>)
    requires Distinct(from) && Distinct(to)
    ensures forall e :: e in from && e in to ==> multiset(from)[e] == multiset(to)[e]
  {
    forall e | e in from && e in to ensures multiset(from)[e] == multiset(to)[e] {
      DistinctCount(from, e);
      DistinctCount(to, e);
    }
  }

  lemma {:induction false} DistinctCount(s: seq<Edge>, e: Edge)
    requires Distinct(s)
    ensures multiset(s)[e] == if e in s then 1 else 0
  {
    if s != [] {
      var (front, last) := (s[..|s| - 1], s[|s| - 1]);
      assert s == front + [last];
      DistinctCount(front, e);
      assert forall i :: 0 <= i < |front| ==> front[i] == s[i] && s[i] != last;
    }
  }

  // ---- Nodes ---------------------------------------------------------------------------

  predicate ById(a: Node, b: Node) {
    Text.Less(a.id, b.id)
  }

  function At(nodes: map<string, Node>, id: string): Option<Node> {
    if id in nodes then Some(nodes[id]) else None
  }

  // Exactly the nodes of `ours` whose id `theirs` does not have.
  ghost predicate OnlyNodes(ours: map<string, Node>, theirs: map<string, Node>, list: seq<Node>) {
    Increasing(list, ById) && forall n :: n in list <==> At(ours, n.id) == Some(n) && n.id !in theirs
  }

  predicate Differs(from: map<string, Node>, to: map<string, Node>, c: Change<Node>) {
    At(from, c.before.id) == Some(c.before) && At(to, c.before.id) == Some(c.after) && c.before != c.after
  }

  predicate ChangeById(a: Change<Node>, b: Change<Node>) {
    ById(a.before, b.before)
  }

  // Exactly the ids both graphs have with different nodes.
  ghost predicate ChangedNodes(from: map<string, Node>, to: map<string, Node>, list: seq<Change<Node>>) {
    Increasing(list, ChangeById) && forall c :: c in list <==> Differs(from, to, c)
  }

  // What the node differences say of graphs whose nodes stand under their own ids.
  ghost predicate NodesCompared(from: map<string, Node>, to: map<string, Node>, d: NodeDelta) {
    OnlyNodes(to, from, d.added) && OnlyNodes(from, to, d.removed) && ChangedNodes(from, to, d.changed)
  }

  lemma AppendedIncreasing<T(!new)>(s: seq<T>, x: T, less: (T, T) -> bool)
    requires Increasing(s, less) && forall y :: y in s ==> less(y, x)
    ensures Increasing(s + [x], less)
  {
  }

  // The nodes of `ours` under `ids` that `theirs` does not have.
  function Missing(ours: map<string, Node>, theirs: map<string, Node>, ids: seq<string>): seq<Node>
    requires forall i :: 0 <= i < |ids| ==> ids[i] in ours
  {
    if ids == [] then [] else
      var (front, id) := (ids[..|ids| - 1], ids[|ids| - 1]);
      Missing(ours, theirs, front) + (if id in theirs then [] else [ours[id]])
  }

  lemma {:induction false} MissingHolds(ours: map<string, Node>, theirs: map<string, Node>, ids: seq<string>)
    requires Keyed(ours) && Increasing(ids, Text.Less) && forall i :: 0 <= i < |ids| ==> ids[i] in ours
    ensures Increasing(Missing(ours, theirs, ids), ById)
    ensures forall n :: n in Missing(ours, theirs, ids) <==> n.id in ids && At(ours, n.id) == Some(n) && n.id !in theirs
  {
    if ids != [] {
      var (front, id) := (ids[..|ids| - 1], ids[|ids| - 1]);
      assert ids == front + [id];
      MissingHolds(ours, theirs, front);
      if id !in theirs {
        AppendedIncreasing(Missing(ours, theirs, front), ours[id], ById);
      }
    }
  }

  // The keys of a `BTreeMap`, in order.
  function IdsOf(nodes: map<string, Node>): (ids: seq<string>)
    ensures Increasing(ids, Text.Less)
    ensures forall id :: id in ids <==> id in nodes
    ensures forall i :: 0 <= i < |ids| ==> ids[i] in nodes
  {
    Text.LessIsStrictTotal();
    var ids := Ascending(nodes.Keys, Text.Less);
    assert forall id :: id in ids <==> id in Elements(ids);
    ids
  }

  method OnlyIn(ours: map<string, Node>, theirs: map<string, Node>, ids: seq<string>) returns (list: seq<Node>)
    requires forall i :: 0 <= i < |ids| ==> ids[i] in ours
    ensures list == Missing(ours, theirs, ids)
  {
    list := [];
    for i := 0 to |ids|
      invariant list == Missing(ours, theirs, ids[..i])
    {
      assert ids[..i + 1][..i] == ids[..i];
      if ids[i] !in theirs {
        list := list + [ours[ids[i]]];
      }
    }
    assert ids[..|ids|] == ids;
  }

  function Changes(from: map<string, Node>, to: map<string, Node>, ids: seq<string>): seq<Change<Node>>
    requires forall i :: 0 <= i < |ids| ==> ids[i] in to
  {
    if ids == [] then [] else
      var (front, id) := (ids[..|ids| - 1], ids[|ids| - 1]);
      Changes(from, to, front) + (if id in from && from[id] != to[id] then [Change(from[id], to[id])] else [])
  }

  lemma {:induction false} ChangesHold(from: map<string, Node>, to: map<string, Node>, ids: seq<string>)
    requires Keyed(from) && Increasing(ids, Text.Less) && forall i :: 0 <= i < |ids| ==> ids[i] in to
    ensures Increasing(Changes(from, to, ids), ChangeById)
    ensures forall c :: c in Changes(from, to, ids) <==> c.before.id in ids && Differs(from, to, c)
  {
    if ids != [] {
      var (front, id) := (ids[..|ids| - 1], ids[|ids| - 1]);
      assert ids == front + [id];
      ChangesHold(from, to, front);
      if id in from && from[id] != to[id] {
        AppendedIncreasing(Changes(from, to, front), Change(from[id], to[id]), ChangeById);
      }
    }
  }

  method ChangedIn(from: map<string, Node>, to: map<string, Node>, ids: seq<string>) returns (list: seq<Change<Node>>)
    requires forall i :: 0 <= i < |ids| ==> ids[i] in to
    ensures list == Changes(from, to, ids)
  {
    list := [];
    for i := 0 to |ids|
      invariant list == Changes(from, to, ids[..i])
    {
      assert ids[..i + 1][..i] == ids[..i];
      if ids[i] in from && from[ids[i]] != to[ids[i]] {
        list := list + [Change(from[ids[i]], to[ids[i]])];
      }
    }
    assert ids[..|ids|] == ids;
  }

  lemma MissingIsOnly(ours: map<string, Node>, theirs: map<string, Node>)
    requires Keyed(ours)
    ensures OnlyNodes(ours, theirs, Missing(ours, theirs, IdsOf(ours)))
  {
    var ids := IdsOf(ours);
    MissingHolds(ours, theirs, ids);
    assert forall n: Node :: n.id in ids <==> n.id in ours;
  }

  lemma ChangesAreChanged(from: map<string, Node>, to: map<string, Node>)
    requires Keyed(from)
    ensures ChangedNodes(from, to, Changes(from, to, IdsOf(to)))
  {
    var ids := IdsOf(to);
    ChangesHold(from, to, ids);
    assert forall c: Change<Node> :: c.before.id in ids <==> c.before.id in to;
  }

  method DiffNodes(from: map<string, Node>, to: map<string, Node>) returns (d: NodeDelta)
    ensures Keyed(from) && Keyed(to) ==> NodesCompared(from, to, d)
  {
    var added := OnlyIn(to, from, IdsOf(to));
    var changed := ChangedIn(from, to, IdsOf(to));
    var removed := OnlyIn(from, to, IdsOf(from));
    d := NodeDelta(added, removed, changed);
    if Keyed(from) && Keyed(to) {
      MissingIsOnly(to, from);
      MissingIsOnly(from, to);
      ChangesAreChanged(from, to);
    }
  }

  // ---- The node patch -------------------------------------------------------------------

  function Put(nodes: map<string, Node>, list: seq<Node>): map<string, Node> {
    if list == [] then nodes else Put(nodes, list[..|list| - 1])[list[|list| - 1].id := list[|list| - 1]]
  }

  function Taken(list: seq<Node>): set<string> {
    set n | n in list :: n.id
  }

  function PatchedNodes(from: map<string, Node>, d: NodeDelta): map<string, Node> {
    Put(Put(from - Taken(d.removed) - Taken(Befores(d.changed)), Afters(d.changed)), d.added)
  }

  lemma {:induction false} PutAt(nodes: map<string, Node>, list: seq<Node>, id: string)
    ensures id !in Taken(list) ==> At(Put(nodes, list), id) == At(nodes, id)
    ensures id in Taken(list) ==> exists n :: n in list && n.id == id && At(Put(nodes, list), id) == Some(n)
  {
    if list != [] {
      var (front, last) := (list[..|list| - 1], list[|list| - 1]);
      assert list == front + [last];
      PutAt(nodes, front, id);
      assert Taken(list) == Taken(front) + {last.id};
    }
  }

  // Taking out the removed and the old versions, and putting in the new versions and the
  // added, yields the new nodes.
  lemma NodePatch(from: map<string, Node>, to: map<string, Node>, d: NodeDelta)
    requires Keyed(from) && Keyed(to) && NodesCompared(from, to, d)
    ensures PatchedNodes(from, d) == to
  {
    forall id ensures At(PatchedNodes(from, d), id) == At(to, id) {
      NodePatchAt(from, to, d, id);
    }
    var patched := PatchedNodes(from, d);
    forall id ensures id in patched <==> id in to {
      assert At(patched, id) == At(to, id);
    }
    forall id | id in patched ensures patched[id] == to[id] {
      assert At(patched, id) == At(to, id);
    }
  }

  lemma NodePatchAt(from: map<string, Node>, to: map<string, Node>, d: NodeDelta, id: string)
    requires Keyed(from) && Keyed(to) && NodesCompared(from, to, d)
    ensures At(PatchedNodes(from, d), id) == At(to, id)
  {
    var kept := from - Taken(d.removed) - Taken(Befores(d.changed));
    PutAt(kept, Afters(d.changed), id);
    PutAt(Put(kept, Afters(d.changed)), d.added, id);
    ChangedIds(from, to, d, id);
    if id in to && id !in from {
      assert to[id] in d.added && id in Taken(d.added);
    } else if id in from && id !in to {
      assert from[id] in d.removed && id in Taken(d.removed);
    }
  }

  // The ids that the two halves of the changes mention, and the only version put in.
  lemma ChangedIds(from: map<string, Node>, to: map<string, Node>, d: NodeDelta, id: string)
    requires Keyed(from) && Keyed(to) && NodesCompared(from, to, d)
    ensures id in Taken(Befores(d.changed)) <==> id in from && id in to && from[id] != to[id]
    ensures id in Taken(Afters(d.changed)) <==> id in from && id in to && from[id] != to[id]
    ensures forall n :: n in Afters(d.changed) && n.id == id ==> id in to && n == to[id]
  {
    forall n | n in Befores(d.changed) ensures n.id in to && At(from, n.id) == Some(n) && At(to, n.id) != Some(n) {
      var i :| 0 <= i < |d.changed| && d.changed[i].before == n;
      assert d.changed[i] in d.changed;
    }
    forall n | n in Afters(d.changed) ensures n.id in from && At(to, n.id) == Some(n) && At(from, n.id) != Some(n) {
      var i :| 0 <= i < |d.changed| && d.changed[i].after == n;
      assert d.changed[i] in d.changed;
    }
    if id in from && id in to && from[id] != to[id] {
      var c := Change(from[id], to[id]);
      assert c in d.changed;
      var i :| 0 <= i < |d.changed| && d.changed[i] == c;
      assert Befores(d.changed)[i] == c.before && Afters(d.changed)[i] == c.after;
    }
  }

  // ---- The result ---------------------------------------------------------------------

  datatype Counts = Counts(added: nat, removed: nat, changed: nat)

  datatype Result = Result(nodeCounts: Counts, edgeCounts: Counts, nodes: NodeDelta, edges: EdgeDelta, truncated: bool)

  function Cut<T>(s: seq<T>, limit: nat): (cut: seq<T>)
    ensures cut <= s && |cut| <= limit && (cut == s || |cut| == limit)
  {
    if |s| <= limit then s else s[..limit]
  }

  // `nodes` and `edges` are the whole difference of the two graphs.
  ghost predicate Whole(fromNodes: map<string, Node>, from: seq<Edge>, toNodes: map<string, Node>, to: seq<Edge>,
                        nodes: NodeDelta, edges: EdgeDelta)
  {
    && (Keyed(fromNodes) && Keyed(toNodes) ==> NodesCompared(fromNodes, toNodes, nodes))
    && EdgesCompared(from, to, edges)
  }

  // The counts are those of the whole difference; the lists are cut, and the result says so
  // exactly when one of them is.
  predicate Shows(r: Result, nodes: NodeDelta, edges: EdgeDelta, limit: nat) {
    && r.nodeCounts == Counts(|nodes.added|, |nodes.removed|, |nodes.changed|)
    && r.edgeCounts == Counts(|edges.added|, |edges.removed|, |edges.changed|)
    && r.nodes == NodeDelta(Cut(nodes.added, limit), Cut(nodes.removed, limit), Cut(nodes.changed, limit))
    && r.edges == EdgeDelta(Cut(edges.added, limit), Cut(edges.removed, limit), Cut(edges.changed, limit))
    && (r.truncated <==> r.nodes != nodes || r.edges != edges)
  }

  ghost predicate ShowsDifference(
    fromNodes: map<string, Node>, from: seq<Edge>, toNodes: map<string, Node>, to: seq<Edge>,
    r: Result, limit: nat)
  {
    exists nodes, edges :: Whole(fromNodes, from, toNodes, to, nodes, edges) && Shows(r, nodes, edges, limit)
  }

  method Diff(fromNodes: map<string, Node>, from: seq<Edge>, toNodes: map<string, Node>, to: seq<Edge>, limit: nat)
    returns (r: Result)
    ensures ShowsDifference(fromNodes, from, toNodes, to, r, Clamp(limit, 1, 200))
  {
    var n := DiffNodes(fromNodes, toNodes);
    var e := DiffEdges(from, to);
    var cut := Clamp(limit, 1, 200);
    var cutNodes := NodeDelta(Cut(n.added, cut), Cut(n.removed, cut), Cut(n.changed, cut));
    var cutEdges := EdgeDelta(Cut(e.added, cut), Cut(e.removed, cut), Cut(e.changed, cut));
    var truncated :=
      || |n.added| > |cutNodes.added| || |n.removed| > |cutNodes.removed| || |n.changed| > |cutNodes.changed|
      || |e.added| > |cutEdges.added| || |e.removed| > |cutEdges.removed| || |e.changed| > |cutEdges.changed|;
    r := Result(Counts(|n.added|, |n.removed|, |n.changed|), Counts(|e.added|, |e.removed|, |e.changed|),
                cutNodes, cutEdges, truncated);
    assert Shows(r, n, e, cut);
    assert Whole(fromNodes, from, toNodes, to, n, e);
  }

  // What is shown of well-formed graphs, if nothing was cut, is a patch.
  lemma UntruncatedDiffIsPatch(fromNodes: map<string, Node>, from: seq<Edge>, toNodes: map<string, Node>, to: seq<Edge>,
                               r: Result, limit: nat)
    requires ShowsDifference(fromNodes, from, toNodes, to, r, limit) && !r.truncated
    requires WellFormed(fromNodes, from) && WellFormed(toNodes, to) && Keyed(fromNodes) && Keyed(toNodes)
    ensures PatchedNodes(fromNodes, r.nodes) == toNodes && PatchedEdges(from, r.edges) == multiset(to)
  {
    var nodes, edges :| Whole(fromNodes, from, toNodes, to, nodes, edges) && Shows(r, nodes, edges, limit);
    NodePatch(fromNodes, toNodes, nodes);
    EdgePatch(fromNodes, from, toNodes, to, edges);
  }
}
