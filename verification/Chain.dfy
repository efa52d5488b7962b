// The bounded code chain query: a breadth-first search from a few root symbols, which
// may visit a node again once it is reached from the other side. Here are the search steps
// and what every step keeps.
module Chain {
  import opened Wrappers
  import opened Sorting
  import opened Folding
  import opened SoftwareGraph

  // What `edge_keys` tells edges apart by.
  function KeyOf(e: Edge): (string, string, EdgeKind) {
    (e.from, e.to, e.kind)
  }

  datatype Mode = CallChain | Impact | All

  // What a search runs on. `roots` are the resolved root ids, `depth` and `limit` are the
  // clamped inputs.
  datatype Scope = Scope(nodes: map<string, NodeKind>, edges: seq<Edge>, mode: Mode, roots: set<string>,
                         depth: nat, limit: nat)
  {
    predicate CodeNode(id: string) {
      id in nodes && CodeKind(nodes[id])
    }

    predicate Valid() {
      && (forall r :: r in roots ==> CodeNode(r))
      && |roots| <= limit
      && 0 < depth
    }
  }

  predicate CodeKind(kind: NodeKind) {
    || kind.Package? || kind.Module? || kind.File? || kind.Symbol? || kind.Function? || kind.Struct?
    || kind.Trait? || kind.Class? || kind.Enum? || kind.Interface? || kind.Api? || kind.Test?
  }

  predicate EdgeAllowed(mode: Mode, kind: EdgeKind) {
    match mode
    case CallChain => kind.Calls? || kind.RuntimeCalls?
    case Impact => Dependency(kind)
    case All => kind.Contains? || kind.Defines? || Dependency(kind)
  }

  predicate Dependency(kind: EdgeKind) {
    || kind.References? || kind.Calls? || kind.Imports? || kind.DependsOn? || kind.Implements? || kind.Extends?
    || kind.RuntimeCalls?
  }

  // A package, module or file given as root opens onto what it contains or defines.
  predicate OpensRoot(c: Scope, id: string, edge: Edge) {
    && id in c.roots
    && !c.mode.All?
    && id in c.nodes
    && (c.nodes[id].Package? || c.nodes[id].Module? || c.nodes[id].File?)
    && (edge.kind.Contains? || edge.kind.Defines?)
    && edge.from == id
  }

  // ---- Walks: what a search result is measured against -----------------------------

  // An edge travelled one way or the other.
  datatype Hop = Hop(edge: Edge, forward: bool) {
    function Start(): string {
      if forward then edge.from else edge.to
    }

    function End(): string {
      if forward then edge.to else edge.from
    }
  }

  predicate Opening(c: Scope, h: Hop) {
    h.forward && OpensRoot(c, h.edge.from, h.edge)
  }

  predicate Passable(c: Scope, h: Hop) {
    && h.edge in c.edges
    && (EdgeAllowed(c.mode, h.edge.kind) || Opening(c, h))
    && c.CodeNode(h.End())
  }

  // `path` leads from some root to `id`.
  predicate Walk(c: Scope, path: seq<Hop>, id: string) {
    if path == [] then id in c.roots else
      var last := path[|path| - 1];
      Passable(c, last) && last.End() == id && Walk(c, path[..|path| - 1], last.Start())
  }

  // How much of `path` opens its root.
  function Opened(c: Scope, path: seq<Hop>): (count: nat)
    ensures count <= |path|
  {
    if path != [] && Opening(c, path[0]) then 1 else 0
  }

  // Once its root is opened, `path` sets out to side `branch`, callers or callees, and in a
  // call chain keeps to it. Branch 0 has not set out yet.
  predicate OneWay(c: Scope, path: seq<Hop>, branch: int) {
    var start := Opened(c, path);
    if branch == 0 then |path| == start
    else
      && |path| > start && path[start].forward == (branch > 0)
      && (c.mode.CallChain? ==> forall i :: start <= i < |path| ==> path[i].forward == (branch > 0))
  }

  ghost predicate WalkOf(c: Scope, id: string, length: nat) {
    exists path :: Walk(c, path, id) && |path| == length
  }

  ghost predicate OneWayWithin(c: Scope, id: string, branch: int, bound: nat) {
    exists path :: Walk(c, path, id) && OneWay(c, path, branch) && |path| <= bound
  }

  lemma WalkExtends(c: Scope, path: seq<Hop>, id: string, h: Hop)
    requires Walk(c, path, id) && Passable(c, h) && h.Start() == id
    ensures Walk(c, path + [h], h.End())
  {
    assert (path + [h])[..|path|] == path;
  }

  // ---- The search ------------------------------------------------------------

  datatype Entry = Entry(distance: nat, upstream: bool, downstream: bool)

  // Reached by opening a root, if it is no root itself.
  predicate Unmarked(e: Entry) {
    !e.upstream && !e.downstream
  }

  datatype Visit = Visit(id: string, branch: int)

  // The nodes found so far and the visits still to make.
  datatype Front = Front(state: map<string, Entry>, queue: seq<Visit>)

  // The edges reported so far, the keys of all edges seen, and whether anything was cut off.
  datatype Report = Report(edges: seq<Edge>, keys: set<(string, string, EdgeKind)>, truncated: bool)

  datatype Search = Search(front: Front, report: Report)

  // The hop that leaves `id` along `edge`, unless the search ignores the edge.
  function HopFrom(c: Scope, id: string, branch: int, edge: Edge): Option<Hop> {
    if !OpensRoot(c, id, edge) && !EdgeAllowed(c.mode, edge.kind) then None
    else if edge.from != id && edge.to != id then None
    else
      var h := Hop(edge, edge.from == id);
      if c.mode.CallChain? && branch != 0 && (if h.forward then 1 else -1) != branch then None
      else if !c.CodeNode(h.End()) then None
      else Some(h)
  }

  function NextBranch(c: Scope, branch: int, h: Hop): int {
    if Opening(c, h) then 0 else if branch == 0 then (if h.forward then 1 else -1) else branch
  }

  // An edge is reported once, while there is room.
  function Record(limit: nat, r: Report, edge: Edge): Report {
    if KeyOf(edge) in r.keys then r
    else if |r.edges| >= 3 * limit then Report(r.edges, r.keys + {KeyOf(edge)}, true)
    else Report(r.edges + [edge], r.keys + {KeyOf(edge)}, r.truncated)
  }

  // The first sight of an edge that finds no room for it does not follow it either.
  predicate Dropped(limit: nat, r: Report, edge: Edge) {
    KeyOf(edge) !in r.keys && |r.edges| >= 3 * limit
  }

  function Reach(roots: set<string>, limit: nat, f: Front, id: string, branch: int, distance: nat): Front {
    if id in roots then f
    else if id in f.state then
      var entry := f.state[id];
      var up := branch < 0;
      var down := branch > 0;
      var branchAdded := (up && !entry.upstream) || (down && !entry.downstream);
      Front(f.state[id := Entry(entry.distance, entry.upstream || up, entry.downstream || down)],
            if branchAdded && distance <= entry.distance then f.queue + [Visit(id, branch)] else f.queue)
    else if |f.state| >= limit then f
    else Front(f.state[id := Entry(distance, branch < 0, branch > 0)], f.queue + [Visit(id, branch)])
  }

  predicate Missed(roots: set<string>, limit: nat, f: Front, id: string) {
    id !in roots && id !in f.state && |f.state| >= limit
  }

  function DistanceOf(state: map<string, Entry>, id: string): nat {
    if id in state then state[id].distance else 0
  }

  // What is done for one edge of the visited node.
  function Follow(c: Scope, s: Search, visit: Visit, edge: Edge): Search {
    match HopFrom(c, visit.id, visit.branch, edge)
    case None => s
    case Some(h) =>
      var report := Record(c.limit, s.report, edge);
      if Dropped(c.limit, s.report, edge) then Search(s.front, report)
      else
        var distance := DistanceOf(s.front.state, visit.id) + 1;
        Search(Reach(c.roots, c.limit, s.front, h.End(), NextBranch(c, visit.branch, h), distance),
               report.(truncated := report.truncated || Missed(c.roots, c.limit, s.front, h.End())))
  }

  // ---- Incidence -----------------------------------------------------------------

  // The edges at `id` among the first `upto`, in order; a loop is listed from both ends.
  function Incident(edges: seq<Edge>, id: string, upto: nat): (list: seq<Edge>)
    requires upto <= |edges|
    ensures forall e :: e in list <==> (e in edges[..upto] && (e.from == id || e.to == id))
  {
    if upto == 0 then [] else
      var e := edges[upto - 1];
      assert edges[..upto] == edges[..upto - 1] + [e];
      Incident(edges, id, upto - 1) + (if e.from == id then [e] else []) + (if e.to == id then [e] else [])
  }

  function At(adjacency: map<string, seq<Edge>>, id: string): seq<Edge> {
    if id in adjacency then adjacency[id] else []
  }

  // The index built once answers what a scan of all edges would.
  method Index(edges: seq<Edge>) returns (adjacency: map<string, seq<Edge>>)
    ensures forall id :: At(adjacency, id) == Incident(edges, id, |edges|)
  {
    adjacency := map[];
    for i := 0 to |edges|
      invariant forall id :: At(adjacency, id) == Incident(edges, id, i)
    {
      var e := edges[i];
      adjacency := adjacency[e.from := At(adjacency, e.from) + [e]];
      adjacency := adjacency[e.to := At(adjacency, e.to) + [e]];
    }
  }

  // ---- What every step of the search keeps ------------------------------------------------

  predicate Bounded(c: Scope, state: map<string, Entry>) {
    && |state| <= c.limit
    && (forall r :: r in c.roots ==> r in state && state[r].distance == 0)
  }

  ghost predicate Located(c: Scope, state: map<string, Entry>) {
    forall id {:trigger Reported(c, id, state[id])} :: id in state ==> Reported(c, id, state[id])
  }

  // What a reported entry means.
  ghost predicate Reported(c: Scope, id: string, entry: Entry) {
    && c.CodeNode(id)
    && entry.distance <= c.depth
    && WalkOf(c, id, entry.distance)
    && (entry.upstream ==> OneWayWithin(c, id, -1, c.depth))
    && (entry.downstream ==> OneWayWithin(c, id, 1, c.depth))
    && (!entry.upstream && !entry.downstream ==> OneWayWithin(c, id, 0, c.depth))
  }

  ghost predicate Queued(c: Scope, f: Front) {
    forall i {:trigger Waiting(c, f.state, f.queue[i])} :: 0 <= i < |f.queue| ==> Waiting(c, f.state, f.queue[i])
  }

  ghost predicate Waiting(c: Scope, state: map<string, Entry>, v: Visit) {
    && v.id in state
    && -1 <= v.branch <= 1
    && (v.id in c.roots ==> v.branch == 0)
    && OneWayWithin(c, v.id, v.branch, state[v.id].distance)
  }

  // Breadth-first order around distance `d`: waiting nodes are at distance d or d + 1, in
  // that order, and nothing is further out.
  predicate Ordered(f: Front, d: nat) {
    && (forall i :: 0 <= i < |f.queue| ==> f.queue[i].id in f.state && d <= f.state[f.queue[i].id].distance)
    && (forall i, j :: 0 <= i < j < |f.queue| && f.queue[i].id in f.state && f.queue[j].id in f.state ==>
          f.state[f.queue[i].id].distance <= f.state[f.queue[j].id].distance)
    && (forall id :: id in f.state ==> f.state[id].distance <= d + 1)
  }

  // The edges reported are distinct and seen; and while nothing was cut off, each edge seen
  // is among them.
  predicate Recorded(limit: nat, r: Report) {
    && |r.edges| <= 3 * limit
    && (forall i, j :: 0 <= i < j < |r.edges| ==> KeyOf(r.edges[i]) != KeyOf(r.edges[j]))
    && (forall i :: 0 <= i < |r.edges| ==> KeyOf(r.edges[i]) in r.keys)
    && (!r.truncated ==> forall k :: k in r.keys ==> exists i :: 0 <= i < |r.edges| && KeyOf(r.edges[i]) == k)
  }

  // An edge of the graph that leads out of a node found short of the depth.
  ghost predicate Leads(c: Scope, state: map<string, Entry>, h: Hop) {
    Passable(c, h) && h.Start() in state && state[h.Start()].distance < c.depth
  }

  ghost predicate Leading(c: Scope, state: map<string, Entry>, edges: seq<Edge>) {
    forall i :: 0 <= i < |edges| ==> Leads(c, state, Hop(edges[i], true)) || Leads(c, state, Hop(edges[i], false))
  }

  // Distances stay, and marks are never taken back.
  predicate Keeps(before: map<string, Entry>, after: map<string, Entry>) {
    forall id :: id in before ==>
      && id in after && after[id].distance == before[id].distance
      && (before[id].upstream ==> after[id].upstream) && (before[id].downstream ==> after[id].downstream)
  }

  // Nothing is forgotten.
  predicate Grows(s: Search, t: Search) {
    && Keeps(s.front.state, t.front.state)
    && s.report.keys <= t.report.keys
    && (s.report.truncated ==> t.report.truncated)
  }

  lemma ReachBounded(c: Scope, f: Front, id: string, branch: int, distance: nat)
    requires Bounded(c, f.state)
    ensures Bounded(c, Reach(c.roots, c.limit, f, id, branch, distance).state)
  {
    var g := Reach(c.roots, c.limit, f, id, branch, distance);
    if id in f.state {
      assert g.state.Keys == f.state.Keys;
    } else if g != f {
      assert g.state.Keys == f.state.Keys + {id};
    }
  }

  lemma ReachKeeps(roots: set<string>, limit: nat, f: Front, id: string, branch: int, distance: nat)
    ensures var g := Reach(roots, limit, f, id, branch, distance);
      Keeps(f.state, g.state) && f.queue <= g.queue
      && (forall n :: n in g.state && n !in f.state ==> n == id && g.queue == f.queue + [Visit(id, branch)])
  {
  }

  lemma ReachLocates(c: Scope, f: Front, id: string, branch: int, distance: nat)
    requires Located(c, f.state) && c.CodeNode(id) && distance <= c.depth && WalkOf(c, id, distance)
    requires -1 <= branch <= 1 && OneWayWithin(c, id, branch, c.depth)
    ensures Located(c, Reach(c.roots, c.limit, f, id, branch, distance).state)
  {
    var g := Reach(c.roots, c.limit, f, id, branch, distance);
    forall n | n in g.state ensures Reported(c, n, g.state[n]) {
      if n != id || g == f {
        assert n in f.state && g.state[n] == f.state[n];
        assert Reported(c, n, f.state[n]);
      } else if n in f.state {
        assert Reported(c, id, f.state[id]);
      }
    }
  }

  lemma ReachQueues(c: Scope, f: Front, id: string, branch: int, distance: nat)
    requires Queued(c, f) && -1 <= branch <= 1
    requires OneWayWithin(c, id, branch, distance)
    ensures Queued(c, Reach(c.roots, c.limit, f, id, branch, distance))
  {
    var g := Reach(c.roots, c.limit, f, id, branch, distance);
    ReachKeeps(c.roots, c.limit, f, id, branch, distance);
    forall i | 0 <= i < |g.queue| ensures Waiting(c, g.state, g.queue[i]) {
      if i < |f.queue| {
        assert g.queue[i] == f.queue[i] && Waiting(c, f.state, f.queue[i]);
      } else {
        assert g.queue[i] == Visit(id, branch);
        OneWayWeakens(c, id, branch, distance, g.state[id].distance);
      }
    }
  }

  lemma ReachOrders(roots: set<string>, limit: nat, f: Front, id: string, branch: int, distance: nat)
    requires distance > 0 && Ordered(f, distance - 1)
    ensures Ordered(Reach(roots, limit, f, id, branch, distance), distance - 1)
  {
    var g := Reach(roots, limit, f, id, branch, distance);
    ReachKeeps(roots, limit, f, id, branch, distance);
    assert forall i :: 0 <= i < |f.queue| ==> g.queue[i] == f.queue[i];
    if g.queue != f.queue {
      assert g.queue == f.queue + [Visit(id, branch)] && g.state[id].distance == distance;
    }
  }

  lemma RecordRecords(limit: nat, r: Report, edge: Edge)
    requires Recorded(limit, r)
    ensures Recorded(limit, Record(limit, r, edge))
  {
    var t := Record(limit, r, edge);
    if !t.truncated {
      forall k | k in t.keys ensures exists i :: 0 <= i < |t.edges| && KeyOf(t.edges[i]) == k {
        if k in r.keys {
          var i :| 0 <= i < |r.edges| && KeyOf(r.edges[i]) == k;
          assert KeyOf(t.edges[i]) == k;
        } else {
          assert KeyOf(t.edges[|r.edges|]) == k;
        }
      }
    }
  }

  lemma RecordLeads(c: Scope, state: map<string, Entry>, r: Report, h: Hop)
    requires Leading(c, state, r.edges) && Leads(c, state, h)
    ensures Leading(c, state, Record(c.limit, r, h.edge).edges)
  {
    assert h == Hop(h.edge, h.forward);
  }

  lemma LeadingKeeps(c: Scope, before: map<string, Entry>, after: map<string, Entry>, edges: seq<Edge>)
    requires Leading(c, before, edges) && Keeps(before, after)
    ensures Leading(c, after, edges)
  {
    forall i | 0 <= i < |edges| ensures Leads(c, after, Hop(edges[i], true)) || Leads(c, after, Hop(edges[i], false)) {
      if Leads(c, before, Hop(edges[i], true)) {
        assert Leads(c, after, Hop(edges[i], true));
      }
    }
  }

  // What one edge shows about the node at its other end.
  lemma HopReports(c: Scope, id: string, entry: Entry, branch: int, h: Hop)
    requires Reported(c, id, entry) && h.edge in c.edges && HopFrom(c, id, branch, h.edge) == Some(h)
    ensures c.CodeNode(h.End()) && WalkOf(c, h.End(), entry.distance + 1) && Passable(c, h) && h.Start() == id
  {
    var path :| Walk(c, path, id) && |path| == entry.distance;
    WalkExtends(c, path, id, h);
  }

  lemma OneWayExtends(c: Scope, id: string, branch: int, h: Hop, bound: nat)
    requires OneWayWithin(c, id, branch, bound) && -1 <= branch <= 1
    requires id in c.roots ==> branch == 0
    requires h.edge in c.edges && HopFrom(c, id, branch, h.edge) == Some(h)
    ensures OneWayWithin(c, h.End(), NextBranch(c, branch, h), bound + 1)
  {
    if Opening(c, h) {
      assert Walk(c, [], id);
      WalkExtends(c, [], id, h);
      assert [] + [h] == [h];
      assert OneWay(c, [h], 0);
    } else {
      var path :| Walk(c, path, id) && OneWay(c, path, branch) && |path| <= bound;
      WalkExtends(c, path, id, h);
      OneWayLonger(c, path, branch, h);
    }
  }

  lemma OneWayLonger(c: Scope, path: seq<Hop>, branch: int, h: Hop)
    requires OneWay(c, path, branch) && -1 <= branch <= 1 && !Opening(c, h)
    requires c.mode.CallChain? && branch != 0 ==> (if h.forward then 1 else -1) == branch
    ensures OneWay(c, path + [h], NextBranch(c, branch, h))
  {
    assert Opened(c, path + [h]) == Opened(c, path);
  }

  lemma OneWayWeakens(c: Scope, id: string, branch: int, bound: nat, looser: nat)
    requires OneWayWithin(c, id, branch, bound) && bound <= looser
    ensures OneWayWithin(c, id, branch, looser)
  {
  }

  // The invariant of the search, at distance `d`.
  ghost predicate Invariants(c: Scope, s: Search, d: nat) {
    && Bounded(c, s.front.state)
    && Located(c, s.front.state)
    && Queued(c, s.front)
    && Ordered(s.front, d)
    && Recorded(c.limit, s.report)
    && Leading(c, s.front.state, s.report.edges)
  }

  lemma FollowGrows(c: Scope, s: Search, visit: Visit, edge: Edge)
    ensures var t := Follow(c, s, visit, edge);
      Grows(s, t) && s.front.queue <= t.front.queue
      && (forall n :: n in t.front.state && n !in s.front.state ==>
            && t.front.queue != [] && t.front.queue[|t.front.queue| - 1].id == n
            && (Unmarked(t.front.state[n]) ==> Visit(n, 0) in t.front.queue))
  {
    match HopFrom(c, visit.id, visit.branch, edge)
    case None =>
    case Some(h) =>
      ReachKeeps(c.roots, c.limit, s.front, h.End(), NextBranch(c, visit.branch, h),
                 DistanceOf(s.front.state, visit.id) + 1);
  }

  lemma FollowReportKeeps(c: Scope, s: Search, visit: Visit, edge: Edge)
    requires Recorded(c.limit, s.report) && Leading(c, s.front.state, s.report.edges)
    requires edge in c.edges && visit.id in s.front.state && s.front.state[visit.id].distance < c.depth
    ensures var t := Follow(c, s, visit, edge);
      Recorded(c.limit, t.report) && Leading(c, t.front.state, t.report.edges)
  {
    match HopFrom(c, visit.id, visit.branch, edge)
    case None =>
    case Some(h) =>
      RecordRecords(c.limit, s.report, edge);
      RecordLeads(c, s.front.state, s.report, h);
      FollowGrows(c, s, visit, edge);
      LeadingKeeps(c, s.front.state, Follow(c, s, visit, edge).front.state, Record(c.limit, s.report, edge).edges);
  }

  lemma HopArrives(c: Scope, visit: Visit, state: map<string, Entry>, h: Hop)
    requires Waiting(c, state, visit) && Reported(c, visit.id, state[visit.id]) && state[visit.id].distance < c.depth
    requires h.edge in c.edges && HopFrom(c, visit.id, visit.branch, h.edge) == Some(h)
    ensures var (branch, distance) := (NextBranch(c, visit.branch, h), state[visit.id].distance + 1);
      && c.CodeNode(h.End()) && WalkOf(c, h.End(), distance) && -1 <= branch <= 1
      && OneWayWithin(c, h.End(), branch, distance) && OneWayWithin(c, h.End(), branch, c.depth)
  {
    var (branch, distance) := (NextBranch(c, visit.branch, h), state[visit.id].distance);
    HopReports(c, visit.id, state[visit.id], visit.branch, h);
    OneWayExtends(c, visit.id, visit.branch, h, distance);
    OneWayWeakens(c, h.End(), branch, distance + 1, c.depth);
  }

  // Either nothing is reached or the node at the other end is.
  lemma FollowFront(c: Scope, s: Search, visit: Visit, edge: Edge)
    ensures var (hop, f) := (HopFrom(c, visit.id, visit.branch, edge), Follow(c, s, visit, edge).front);
      || f == s.front
      || (hop.Some? && f == Reach(c.roots, c.limit, s.front, hop.value.End(), NextBranch(c, visit.branch, hop.value),
                                  DistanceOf(s.front.state, visit.id) + 1))
  {
  }

  ghost predicate FrontHolds(c: Scope, f: Front, d: nat) {
    Bounded(c, f.state) && Located(c, f.state) && Queued(c, f) && Ordered(f, d)
  }

  // Whatever is reached is reached by a walk, one hop behind the node that was visited.
  lemma FollowArrives(c: Scope, s: Search, visit: Visit, edge: Edge, d: nat) returns (id: string, branch: int)
    requires Located(c, s.front.state) && edge in c.edges && Waiting(c, s.front.state, visit)
    requires s.front.state[visit.id].distance == d < c.depth && Follow(c, s, visit, edge).front != s.front
    ensures c.CodeNode(id) && WalkOf(c, id, d + 1) && -1 <= branch <= 1
    ensures OneWayWithin(c, id, branch, d + 1) && OneWayWithin(c, id, branch, c.depth)
    ensures Follow(c, s, visit, edge).front == Reach(c.roots, c.limit, s.front, id, branch, d + 1)
  {
    FollowFront(c, s, visit, edge);
    var h := HopFrom(c, visit.id, visit.branch, edge).value;
    assert Reported(c, visit.id, s.front.state[visit.id]);
    HopArrives(c, visit, s.front.state, h);
    id, branch := h.End(), NextBranch(c, visit.branch, h);
  }

  lemma FollowFrontKeeps(c: Scope, s: Search, visit: Visit, edge: Edge, d: nat)
    requires FrontHolds(c, s.front, d) && edge in c.edges && Waiting(c, s.front.state, visit)
    requires s.front.state[visit.id].distance == d < c.depth
    ensures FrontHolds(c, Follow(c, s, visit, edge).front, d)
  {
    if Follow(c, s, visit, edge).front != s.front {
      var id, branch := FollowArrives(c, s, visit, edge, d);
      ReachFrontKeeps(c, s.front, id, branch, d);
    }
  }

  lemma FollowKeeps(c: Scope, s: Search, visit: Visit, edge: Edge, d: nat)
    requires Invariants(c, s, d) && edge in c.edges && Waiting(c, s.front.state, visit)
    requires s.front.state[visit.id].distance == d < c.depth
    ensures Invariants(c, Follow(c, s, visit, edge), d)
  {
    FollowReportKeeps(c, s, visit, edge);
    FollowFrontKeeps(c, s, visit, edge, d);
  }

  lemma ReachFrontKeeps(c: Scope, f: Front, id: string, branch: int, d: nat)
    requires FrontHolds(c, f, d)
    requires c.CodeNode(id) && d < c.depth && WalkOf(c, id, d + 1) && -1 <= branch <= 1
    requires OneWayWithin(c, id, branch, d + 1) && OneWayWithin(c, id, branch, c.depth)
    ensures var g := Reach(c.roots, c.limit, f, id, branch, d + 1);
      FrontHolds(c, g, d) && Keeps(f.state, g.state)
  {
    ReachBounded(c, f, id, branch, d + 1);
    ReachLocates(c, f, id, branch, d + 1);
    ReachQueues(c, f, id, branch, d + 1);
    ReachOrders(c.roots, c.limit, f, id, branch, d + 1);
    ReachKeeps(c.roots, c.limit, f, id, branch, d + 1);
  }

  // ---- Termination ---------------------------------------------------------------

  function Ups(state: map<string, Entry>): set<string> {
    set id | id in state && state[id].upstream
  }

  function Downs(state: map<string, Entry>): set<string> {
    set id | id in state && state[id].downstream
  }

  // Each node is found once and marked at most once from either side.
  function Progress(state: map<string, Entry>): nat {
    |state.Keys| + |Ups(state)| + |Downs(state)|
  }

  lemma ProgressBounded(state: map<string, Entry>)
    ensures Progress(state) <= 3 * |state|
  {
    SubsetSize(Ups(state), state.Keys);
    SubsetSize(Downs(state), state.Keys);
    assert |state.Keys| == |state|;
  }

  lemma ProgressStep(before: map<string, Entry>, after: map<string, Entry>)
    requires before.Keys <= after.Keys && Ups(before) <= Ups(after) && Downs(before) <= Downs(after)
    ensures Progress(before) <= Progress(after)
    ensures before.Keys != after.Keys || Ups(before) != Ups(after) || Downs(before) != Downs(after) ==>
              Progress(before) < Progress(after)
  {
    SubsetSize(before.Keys, after.Keys);
    SubsetSize(Ups(before), Ups(after));
    SubsetSize(Downs(before), Downs(after));
  }

  // A node waits again only if the search has learnt something.
  lemma ReachProgresses(roots: set<string>, limit: nat, f: Front, id: string, branch: int, distance: nat)
    ensures var g := Reach(roots, limit, f, id, branch, distance);
      Progress(g.state) > Progress(f.state) || (Progress(g.state) == Progress(f.state) && g.queue == f.queue)
  {
    var g := Reach(roots, limit, f, id, branch, distance);
    ProgressStep(f.state, g.state);
    if g.queue != f.queue {
      assert id in g.state.Keys;
      if id in f.state && g.state[id].upstream && !f.state[id].upstream {
        assert id in Ups(g.state) && id !in Ups(f.state);
      } else if id in f.state {
        assert id in Downs(g.state) && id !in Downs(f.state);
      }
    }
  }

  lemma FollowProgresses(c: Scope, s: Search, visit: Visit, edge: Edge)
    ensures Later(s.front, Follow(c, s, visit, edge).front)
  {
    match HopFrom(c, visit.id, visit.branch, edge)
    case None =>
    case Some(h) =>
      ReachProgresses(c.roots, c.limit, s.front, h.End(), NextBranch(c, visit.branch, h),
                      DistanceOf(s.front.state, visit.id) + 1);
  }

  predicate Later(f: Front, g: Front) {
    Progress(g.state) > Progress(f.state) || (Progress(g.state) == Progress(f.state) && g.queue == f.queue)
  }
}
