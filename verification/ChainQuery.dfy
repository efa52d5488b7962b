// The chain query as a whole: what its answer promises about walks through the graph.
module ChainQuery {
  import opened Wrappers
  import opened Sorting
  import opened Folding
  import opened SoftwareGraph
  import opened Chain

  // ---- What a visit leaves behind ---------------------------------------------------------

  // A visit that was made, or that still waits.
  predicate Known(made: set<Visit>, queue: seq<Visit>, v: Visit) {
    v in made || v in queue
  }

  predicate Marked(e: Entry, branch: int) {
    (branch < 0 ==> e.upstream) && (branch > 0 ==> e.downstream)
  }

  // A node reached from distance `d` to side `branch` is no further out than one hop and marked
  // from that side; and where it is just one hop further out it is visited for that side.
  predicate Arrived(c: Scope, f: Front, made: set<Visit>, id: string, branch: int, d: nat) {
    id in c.roots
    || (id in f.state && f.state[id].distance <= d + 1 && Marked(f.state[id], branch)
        && (f.state[id].distance == d + 1 && branch != 0 ==> Known(made, f.queue, Visit(id, branch))))
  }

  // Whatever one edge leads visit `v` to has been reached.
  predicate Followed(c: Scope, s: Search, made: set<Visit>, v: Visit, edge: Edge) {
    s.report.truncated ||
    match HopFrom(c, v.id, v.branch, edge)
    case None => true
    case Some(h) =>
      && KeyOf(edge) in s.report.keys && v.id in s.front.state
      && Arrived(c, s.front, made, h.End(), NextBranch(c, v.branch, h), s.front.state[v.id].distance)
  }

  predicate Expanded(c: Scope, s: Search, made: set<Visit>, v: Visit) {
    forall e :: e in c.edges ==> Followed(c, s, made, v, e)
  }

  predicate Waits(queue: seq<Visit>, id: string) {
    exists i :: 0 <= i < |queue| && queue[i].id == id
  }

  predicate Called(made: set<Visit>, queue: seq<Visit>, id: string) {
    Waits(queue, id) || exists v :: v in made && v.id == id
  }

  // The visits made so far are expanded, and no node was left out.
  predicate Settled(c: Scope, s: Search, made: set<Visit>) {
    && (forall v :: v in made ==>
          v.id in s.front.state && (s.front.state[v.id].distance >= c.depth || Expanded(c, s, made, v)))
    && (forall id :: id in s.front.state ==>
          && Called(made, s.front.queue, id)
          && (Unmarked(s.front.state[id]) || id in c.roots ==> Known(made, s.front.queue, Visit(id, 0))))
  }

  // Nodes one hop further out than `d` are visited for every side they are marked from.
  predicate Tight(f: Front, made: set<Visit>, d: nat) {
    forall id :: id in f.state && f.state[id].distance == d + 1 ==>
      && (f.state[id].upstream ==> Known(made, f.queue, Visit(id, -1)))
      && (f.state[id].downstream ==> Known(made, f.queue, Visit(id, 1)))
  }

  lemma ReachArrives(c: Scope, f: Front, made: set<Visit>, id: string, branch: int, d: nat)
    requires -1 <= branch <= 1 && Tight(f, made, d)
    requires forall n :: n in f.state ==> f.state[n].distance <= d + 1
    ensures var g := Reach(c.roots, c.limit, f, id, branch, d + 1);
      && Tight(g, made, d)
      && (Missed(c.roots, c.limit, f, id) || Arrived(c, g, made, id, branch, d))
  {
    var g := Reach(c.roots, c.limit, f, id, branch, d + 1);
    ReachKeeps(c.roots, c.limit, f, id, branch, d + 1);
    forall v | v in f.queue ensures v in g.queue {
      var i :| 0 <= i < |f.queue| && f.queue[i] == v;
      assert g.queue[i] == v;
    }
    assert g.queue != f.queue ==> g.queue[|f.queue|] == Visit(id, branch) && Visit(id, branch) in g.queue;
  }

  lemma FollowFollows(c: Scope, s: Search, made: set<Visit>, visit: Visit, edge: Edge, d: nat)
    requires visit.id in s.front.state && s.front.state[visit.id].distance == d && -1 <= visit.branch <= 1
    requires Ordered(s.front, d) && Tight(s.front, made, d)
    ensures Followed(c, Follow(c, s, visit, edge), made, visit, edge)
    ensures Tight(Follow(c, s, visit, edge).front, made, d)
  {
    FollowGrows(c, s, visit, edge);
    match HopFrom(c, visit.id, visit.branch, edge)
    case None =>
    case Some(h) => ReachArrives(c, s.front, made, h.End(), NextBranch(c, visit.branch, h), d);
  }

  // What is known stays known.
  ghost predicate KnowsMore(made: set<Visit>, queue: seq<Visit>, more: set<Visit>, longer: seq<Visit>) {
    forall v :: Known(made, queue, v) ==> Known(more, longer, v)
  }

  lemma LongerKnowsMore(made: set<Visit>, queue: seq<Visit>, longer: seq<Visit>)
    requires queue <= longer
    ensures KnowsMore(made, queue, made, longer)
  {
    forall v | v in queue ensures v in longer {
      var i :| 0 <= i < |queue| && queue[i] == v;
      assert longer[i] == v;
    }
  }

  lemma FollowedGrows(c: Scope, s: Search, t: Search, made: set<Visit>, more: set<Visit>, v: Visit, edge: Edge)
    requires Grows(s, t) && KnowsMore(made, s.front.queue, more, t.front.queue) && Followed(c, s, made, v, edge)
    ensures Followed(c, t, more, v, edge)
  {
  }

  lemma ExpandedGrows(c: Scope, s: Search, t: Search, made: set<Visit>, more: set<Visit>, v: Visit)
    requires Grows(s, t) && KnowsMore(made, s.front.queue, more, t.front.queue) && Expanded(c, s, made, v)
    ensures Expanded(c, t, more, v)
  {
    forall e | e in c.edges ensures Followed(c, t, more, v, e) {
      FollowedGrows(c, s, t, made, more, v, e);
    }
  }

  // ---- Completeness outside call chains ---------------------------------------------------

  // The search is over, everything was visited and nothing was cut off.
  ghost predicate Finished(c: Scope, s: Search, made: set<Visit>) {
    && Bounded(c, s.front.state) && Recorded(c.limit, s.report) && Settled(c, s, made)
    && s.front.queue == [] && !s.report.truncated
  }

  predicate Found(state: map<string, Entry>, id: string, next: string) {
    id in state && next in state && state[next].distance <= state[id].distance + 1
  }

  // Once the queue is empty, every walk short enough ends at a node found no further out.
  lemma {:induction false} WalksAreFound(c: Scope, s: Search, made: set<Visit>, path: seq<Hop>, id: string)
    requires Finished(c, s, made) && !c.mode.CallChain?
    requires Walk(c, path, id) && |path| <= c.depth
    ensures id in s.front.state && s.front.state[id].distance <= |path|
  {
    if path != [] {
      var n := |path| - 1;
      var (h, from) := (path[n], path[n].Start());
      WalksAreFound(c, s, made, path[..n], from);
      HopIsFollowed(c, s, made, h);
    }
  }

  lemma HopIsFollowed(c: Scope, s: Search, made: set<Visit>, h: Hop)
    requires Finished(c, s, made) && !c.mode.CallChain? && Leads(c, s.front.state, h)
    ensures KeyOf(h.edge) in s.report.keys && Found(s.front.state, h.Start(), h.End())
  {
    assert Called(made, [], h.Start());
    var v :| v in made && v.id == h.Start();
    assert Expanded(c, s, made, v) && Followed(c, s, made, v, h.edge);
  }

  // ---- Answers -----------------------------------------------------------------------

  // Something was cut off only where there was no more room, for edges or for nodes.
  predicate Honest(c: Scope, s: Search) {
    s.report.truncated ==> |s.report.edges| >= 3 * c.limit || |s.front.state| >= c.limit
  }

  lemma FollowIsHonest(c: Scope, s: Search, visit: Visit, edge: Edge)
    requires Honest(c, s)
    ensures Honest(c, Follow(c, s, visit, edge))
  {
    var t := Follow(c, s, visit, edge);
    FollowGrows(c, s, visit, edge);
    SubsetSize(s.front.state.Keys, t.front.state.Keys);
    assert |s.front.state.Keys| == |s.front.state| && |t.front.state.Keys| == |t.front.state|;
  }

  // Once the report is full, an edge that was not seen before leads nowhere, and the answer
  // says that something was cut off exactly if the mode would have followed the edge.
  lemma FullReportStops(c: Scope, s: Search, visit: Visit, e: Edge)
    requires (e.from, e.to, e.kind) !in s.report.keys && |s.report.edges| >= 3 * c.limit
    ensures var t := Follow(c, s, visit, e);
      && t.front == s.front && t.report.edges == s.report.edges
      && (t.report.truncated <==> s.report.truncated || HopFrom(c, visit.id, visit.branch, e).Some?)
  {
  }

  // Bounded, and everything reported is witnessed.
  ghost predicate Sound(c: Scope, s: Search) {
    && Honest(c, s)
    && Bounded(c, s.front.state)
    && Located(c, s.front.state)
    && Recorded(c.limit, s.report)
    && Leading(c, s.front.state, s.report.edges)
  }

  // Every walk within the depth ends at a reported node, at most as far out as the walk is
  // long, and every edge such a node leads along is reported.
  ghost predicate Complete(c: Scope, s: Search) {
    && (forall path, id :: Walk(c, path, id) && |path| <= c.depth ==> NoFurther(s.front.state, id, |path|))
    && (forall h :: Leads(c, s.front.state, h) ==> Shown(s.report.edges, KeyOf(h.edge)))
  }

  predicate NoFurther(state: map<string, Entry>, id: string, length: nat) {
    id in state && state[id].distance <= length
  }

  predicate Shown(edges: seq<Edge>, key: (string, string, EdgeKind)) {
    exists i :: 0 <= i < |edges| && KeyOf(edges[i]) == key
  }

  // A sound and complete answer is exactly the nodes within `depth` hops, at their shortest
  // distances.
  lemma CompleteAnswerIsExact(c: Scope, s: Search, id: string)
    requires Sound(c, s) && Complete(c, s)
    ensures id in s.front.state <==> exists path :: Walk(c, path, id) && |path| <= c.depth
    ensures id in s.front.state ==> WalkOf(c, id, s.front.state[id].distance)
    ensures id in s.front.state ==> forall path :: Walk(c, path, id) ==> s.front.state[id].distance <= |path|
  {
    if id in s.front.state {
      assert Reported(c, id, s.front.state[id]);
      forall path | Walk(c, path, id) ensures s.front.state[id].distance <= |path| {
        if |path| <= c.depth {
          assert NoFurther(s.front.state, id, |path|);
        }
      }
    }
    if path :| Walk(c, path, id) && |path| <= c.depth {
      assert NoFurther(s.front.state, id, |path|);
    }
  }

  lemma FinishedSearchIsComplete(c: Scope, s: Search, made: set<Visit>)
    requires Finished(c, s, made) && !c.mode.CallChain?
    ensures Complete(c, s)
  {
    forall path, id | Walk(c, path, id) && |path| <= c.depth ensures NoFurther(s.front.state, id, |path|) {
      WalksAreFound(c, s, made, path, id);
    }
    forall h | Leads(c, s.front.state, h) ensures Shown(s.report.edges, KeyOf(h.edge)) {
      HopIsFollowed(c, s, made, h);
    }
  }

  // ---- Which nodes and edges a query is about ------------------------------------------------

  const CODE_KINDS: set<NodeKind> := {
    NodeKind.Package, NodeKind.Module, NodeKind.File, NodeKind.Symbol, NodeKind.Function, NodeKind.Struct,
    NodeKind.Trait, NodeKind.Class, NodeKind.Enum, NodeKind.Interface, NodeKind.Api, NodeKind.Test
  }
  const CALL_KINDS: set<EdgeKind> := {EdgeKind.Calls, EdgeKind.RuntimeCalls}
  const DEPENDENCY_KINDS: set<EdgeKind> := CALL_KINDS + {
    EdgeKind.References, EdgeKind.Imports, EdgeKind.DependsOn, EdgeKind.Implements, EdgeKind.Extends
  }
  const STRUCTURE_KINDS: set<EdgeKind> := {EdgeKind.Contains, EdgeKind.Defines}
  const CONTAINER_KINDS: set<NodeKind> := {NodeKind.Package, NodeKind.Module, NodeKind.File}

  predicate IsCode(c: Scope, id: string) {
    id in c.nodes && c.nodes[id] in CODE_KINDS
  }

  function KindsOf(mode: Mode): set<EdgeKind> {
    match mode
    case CallChain => CALL_KINDS
    case Impact => DEPENDENCY_KINDS
    case All => DEPENDENCY_KINDS + STRUCTURE_KINDS
  }

  // What a root that is a package, module or file holds.
  predicate HeldByRoot(c: Scope, e: Edge) {
    && e in c.edges && e.kind in STRUCTURE_KINDS && e.from in c.roots && IsCode(c, e.to)
    && e.from in c.nodes && c.nodes[e.from] in CONTAINER_KINDS
  }

  // An edge that a query follows from its end `near` to its end `far`.
  predicate Followable(c: Scope, e: Edge, near: string, far: string) {
    && e in c.edges && IsCode(c, far)
    && ((e.kind in KindsOf(c.mode) && ((e.from == near && e.to == far) || (e.to == near && e.from == far)))
        || (!c.mode.All? && HeldByRoot(c, e) && e.from == near && e.to == far))
  }

  lemma FollowableIsPassable(c: Scope, e: Edge, near: string, far: string)
    ensures Followable(c, e, near, far) <==>
              exists h: Hop :: h.edge == e && Passable(c, h) && h.Start() == near && h.End() == far
  {
    var (down, up) := (Hop(e, true), Hop(e, false));
    if Followable(c, e, near, far) {
      assert if e.from == near && e.to == far then Passable(c, down) && down.Start() == near && down.End() == far
             else Passable(c, up) && up.Start() == near && up.End() == far;
    }
  }

  // The mode follows the edge from a node that the answer has short of the depth.
  ghost predicate OfItsMode(c: Scope, state: map<string, Entry>, e: Edge) {
    exists near, far :: Followable(c, e, near, far) && near in state && state[near].distance < c.depth
  }

  lemma LeadsIsOfItsMode(c: Scope, state: map<string, Entry>, h: Hop)
    requires Leads(c, state, h)
    ensures OfItsMode(c, state, h.edge)
  {
    FollowableIsPassable(c, h.edge, h.Start(), h.End());
    assert Followable(c, h.edge, h.Start(), h.End());
  }

  // Everything an answer holds is code within the depth, and every edge of it is one that the
  // mode follows.
  lemma AnswerIsAboutItsMode(c: Scope, s: Search)
    requires Sound(c, s)
    ensures forall id :: id in s.front.state ==> IsCode(c, id) && s.front.state[id].distance <= c.depth
    ensures forall i :: 0 <= i < |s.report.edges| ==> OfItsMode(c, s.front.state, s.report.edges[i])
  {
    forall id | id in s.front.state ensures IsCode(c, id) && s.front.state[id].distance <= c.depth {
      assert Reported(c, id, s.front.state[id]);
    }
    forall i | 0 <= i < |s.report.edges| ensures OfItsMode(c, s.front.state, s.report.edges[i]) {
      var forward := Leads(c, s.front.state, Hop(s.report.edges[i], true));
      LeadsIsOfItsMode(c, s.front.state, Hop(s.report.edges[i], forward));
    }
  }

  // And a complete answer leaves out no edge the mode follows, nor the node it leads to.
  lemma FollowedToTheDepth(c: Scope, s: Search, e: Edge, near: string, far: string)
    requires Sound(c, s) && Complete(c, s) && Followable(c, e, near, far)
    requires near in s.front.state && s.front.state[near].distance < c.depth
    ensures Shown(s.report.edges, (e.from, e.to, e.kind))
    ensures far in s.front.state && s.front.state[far].distance <= s.front.state[near].distance + 1
  {
    FollowableIsPassable(c, e, near, far);
    var h: Hop :| h.edge == e && Passable(c, h) && h.Start() == near && h.End() == far;
    assert Leads(c, s.front.state, h) && Reported(c, near, s.front.state[near]);
    var path :| Walk(c, path, near) && |path| == s.front.state[near].distance;
    WalkExtends(c, path, near, h);
    assert Walk(c, path + [h], far) && |path + [h]| <= c.depth;
    assert NoFurther(s.front.state, far, |path + [h]|);
  }

  // ---- Call chains ---------------------------------------------------------------------

  // Looking down, a call leads from the caller to the callee; looking up, the other way.
  function Near(e: Edge, down: bool): string {
    if down then e.from else e.to
  }

  function Far(e: Edge, down: bool): string {
    if down then e.to else e.from
  }

  // What a kind of edge the mode follows joins to a root is marked from the side of the edge.
  ghost predicate SidesMarked(c: Scope, state: map<string, Entry>) {
    forall e, down :: SetsOut(c, e, down) ==>
      && Far(e, down) in state && state[Far(e, down)].distance <= 1
      && if down then state[Far(e, down)].downstream else state[Far(e, down)].upstream
  }

  predicate SetsOut(c: Scope, e: Edge, down: bool) {
    && e in c.edges && e.kind in KindsOf(c.mode) && Near(e, down) in c.roots
    && IsCode(c, Far(e, down)) && Far(e, down) !in c.roots
  }

  lemma RootsMarkSides(c: Scope, s: Search, made: set<Visit>)
    requires Finished(c, s, made) && 0 < c.depth
    ensures SidesMarked(c, s.front.state)
  {
    forall e, down | SetsOut(c, e, down)
      ensures Far(e, down) in s.front.state && s.front.state[Far(e, down)].distance <= 1
      ensures if down then s.front.state[Far(e, down)].downstream else s.front.state[Far(e, down)].upstream
    {
      var v := Visit(Near(e, down), 0);
      assert v in made && Expanded(c, s, made, v) && Followed(c, s, made, v, e);
      assert HopFrom(c, v.id, 0, e) == Some(Hop(e, down));
    }
  }

  // A call between two different symbols, to one that is code.
  predicate CallTo(c: Scope, e: Edge, id: string, down: bool) {
    e in c.edges && e.kind in CALL_KINDS && e.from != e.to && Far(e, down) == id && IsCode(c, id)
  }

  // `path` leads to `id` by calls to one side, from a root or from what a root holds, and the
  // answer has every node of it as far out as it stands on the path.
  predicate Traced(c: Scope, state: map<string, Entry>, path: seq<Edge>, id: string, down: bool) {
    if path == [] then id in c.roots else
      var (front, last) := (path[..|path| - 1], path[|path| - 1]);
      && id in state && state[id].distance == |path|
      && if CallTo(c, last, id, down) then Traced(c, state, front, Near(last, down), down)
         else |path| == 1 && HeldByRoot(c, last) && last.to == id && Unmarked(state[id])
  }

  // The next call on that side is shown, and leads to a root or to a node that is no further
  // out and marked from that side.
  predicate CallShown(c: Scope, s: Search, e: Edge, id: string, distance: nat, down: bool) {
    && Shown(s.report.edges, (e.from, e.to, e.kind))
    && (id in c.roots
        || (id in s.front.state && s.front.state[id].distance <= distance
            && if down then s.front.state[id].downstream else s.front.state[id].upstream))
  }

  predicate HoldingShown(c: Scope, s: Search, e: Edge) {
    && Shown(s.report.edges, (e.from, e.to, e.kind))
    && e.to in s.front.state && s.front.state[e.to].distance <= 1
  }

  // Callers of callers and callees of callees are followed to the depth, from every node that
  // the answer has at its place on a path of calls to that side.
  ghost predicate FollowsCalls(c: Scope, s: Search) {
    && (forall path, near, e, id, down {:trigger Traced(c, s.front.state, path, near, down), CallTo(c, e, id, down)} ::
          (Traced(c, s.front.state, path, near, down) && |path| < c.depth
           && CallTo(c, e, id, down) && Near(e, down) == near) ==> CallShown(c, s, e, id, |path| + 1, down))
    && (forall e :: HeldByRoot(c, e) ==> HoldingShown(c, s, e))
  }

  function Side(down: bool): int {
    if down then 1 else -1
  }

  lemma KindsAgree(c: Scope, e: Edge, id: string)
    ensures IsCode(c, id) <==> c.CodeNode(id)
    ensures c.mode.CallChain? ==> (e.kind in CALL_KINDS <==> EdgeAllowed(c.mode, e.kind))
    ensures c.mode.CallChain? && e in c.edges && IsCode(c, e.to) ==> (HeldByRoot(c, e) <==> OpensRoot(c, e.from, e))
  {
  }

  // A visit that has not set out to the other side follows a call to this one.
  lemma CallIsFollowed(c: Scope, s: Search, made: set<Visit>, v: Visit, e: Edge, id: string, down: bool)
    requires Finished(c, s, made) && c.mode.CallChain? && v in made && (v.branch == 0 || v.branch == Side(down))
    requires CallTo(c, e, id, down) && Near(e, down) == v.id && s.front.state[v.id].distance < c.depth
    ensures CallShown(c, s, e, id, s.front.state[v.id].distance + 1, down)
    ensures Arrived(c, s.front, made, id, Side(down), s.front.state[v.id].distance)
  {
    KindsAgree(c, e, id);
    assert Expanded(c, s, made, v) && Followed(c, s, made, v, e);
    assert HopFrom(c, v.id, v.branch, e) == Some(Hop(e, down));
  }

  lemma {:induction false} TracedIsVisited(
    c: Scope, s: Search, made: set<Visit>, path: seq<Edge>, id: string, down: bool) returns (v: Visit)
    requires Finished(c, s, made) && c.mode.CallChain?
    requires Traced(c, s.front.state, path, id, down) && |path| <= c.depth
    ensures v in made && v.id == id && (v.branch == 0 || v.branch == Side(down))
    ensures s.front.state[id].distance == |path|
  {
    if path == [] {
      v := Visit(id, 0);
    } else {
      var (front, last) := (path[..|path| - 1], path[|path| - 1]);
      if CallTo(c, last, id, down) {
        var near := TracedIsVisited(c, s, made, front, Near(last, down), down);
        CallIsFollowed(c, s, made, near, last, id, down);
        v := Visit(id, Side(down));
      } else {
        v := Visit(id, 0);
      }
    }
  }

  lemma HoldingIsShown(c: Scope, s: Search, made: set<Visit>, e: Edge)
    requires Finished(c, s, made) && c.mode.CallChain? && 0 < c.depth && HeldByRoot(c, e)
    ensures HoldingShown(c, s, e)
  {
    KindsAgree(c, e, e.to);
    assert Visit(e.from, 0) in made;
    assert Expanded(c, s, made, Visit(e.from, 0)) && Followed(c, s, made, Visit(e.from, 0), e);
    assert HopFrom(c, e.from, 0, e) == Some(Hop(e, true));
  }

  // What an uncut call-chain answer promises.
  lemma FinishedSearchFollowsCalls(c: Scope, s: Search, made: set<Visit>)
    requires Finished(c, s, made) && c.mode.CallChain? && 0 < c.depth
    ensures FollowsCalls(c, s)
  {
    forall path, near, e, id, down |
      Traced(c, s.front.state, path, near, down) && |path| < c.depth && CallTo(c, e, id, down) && Near(e, down) == near
      ensures CallShown(c, s, e, id, |path| + 1, down)
    {
      var v := TracedIsVisited(c, s, made, path, near, down);
      CallIsFollowed(c, s, made, v, e, id, down);
    }
    forall e | HeldByRoot(c, e) ensures HoldingShown(c, s, e) {
      HoldingIsShown(c, s, made, e);
    }
  }

  // ---- Exactly what a call chain finds ----------------------------------------------------

  // As `Traced`, from any node a root holds, marked or not.
  predicate Placed(c: Scope, state: map<string, Entry>, path: seq<Edge>, id: string, down: bool) {
    if path == [] then id in c.roots else
      var (front, last) := (path[..|path| - 1], path[|path| - 1]);
      && id in state && state[id].distance == |path|
      && if CallTo(c, last, id, down) then Placed(c, state, front, Near(last, down), down)
         else |path| == 1 && HeldByRoot(c, last) && last.to == id
  }

  ghost predicate InPlace(c: Scope, state: map<string, Entry>, id: string, down: bool) {
    exists path :: Placed(c, state, path, id, down)
  }

  // A visit to a side is to a node in place on that side, any other to a node on either.
  ghost predicate Justified(c: Scope, state: map<string, Entry>, v: Visit) {
    && (v.branch >= 0 ==> InPlace(c, state, v.id, true))
    && (v.branch <= 0 ==> InPlace(c, state, v.id, false))
  }

  ghost predicate AllJustified(c: Scope, f: Front) {
    && (forall v :: v in f.queue ==> Justified(c, f.state, v))
    && (forall id :: id in f.state ==> InPlace(c, f.state, id, true) || InPlace(c, f.state, id, false))
  }

  lemma {:induction false} PlacedStays(
    c: Scope, before: map<string, Entry>, after: map<string, Entry>, path: seq<Edge>, id: string, down: bool)
    requires Keeps(before, after) && Placed(c, before, path, id, down)
    ensures Placed(c, after, path, id, down)
  {
    if path != [] && CallTo(c, path[|path| - 1], id, down) {
      PlacedStays(c, before, after, path[..|path| - 1], Near(path[|path| - 1], down), down);
    }
  }

  lemma InPlaceStays(c: Scope, before: map<string, Entry>, after: map<string, Entry>, id: string, down: bool)
    requires Keeps(before, after) && InPlace(c, before, id, down)
    ensures InPlace(c, after, id, down)
  {
    var path :| Placed(c, before, path, id, down);
    PlacedStays(c, before, after, path, id, down);
  }

  lemma JustifiedStays(c: Scope, before: map<string, Entry>, after: map<string, Entry>, v: Visit)
    requires Keeps(before, after) && Justified(c, before, v)
    ensures Justified(c, after, v)
  {
    if v.branch >= 0 {
      InPlaceStays(c, before, after, v.id, true);
    }
    if v.branch <= 0 {
      InPlaceStays(c, before, after, v.id, false);
    }
  }

  // The node at the end of a hop is in place on the side the hop is made to, if it is just one
  // hop further out.
  lemma CallPlaces(c: Scope, state: map<string, Entry>, near: string, e: Edge, id: string, down: bool)
    requires Bounded(c, state) && InPlace(c, state, near, down) && CallTo(c, e, id, down) && Near(e, down) == near
    requires near in state && id in state && state[id].distance == state[near].distance + 1
    ensures InPlace(c, state, id, down)
  {
    var path :| Placed(c, state, path, near, down);
    assert (path + [e])[..|path|] == path;
    assert Placed(c, state, path + [e], id, down);
  }

  lemma HoldingPlaces(c: Scope, state: map<string, Entry>, e: Edge, down: bool)
    requires HeldByRoot(c, e) && e.to in state && state[e.to].distance == 1
    ensures InPlace(c, state, e.to, down)
  {
    assert !CallTo(c, e, e.to, down);
    assert Placed(c, state, [e], e.to, down);
  }

  lemma HopPlaces(c: Scope, state: map<string, Entry>, visit: Visit, h: Hop)
    requires c.mode.CallChain? && Bounded(c, state) && Justified(c, state, visit) && -1 <= visit.branch <= 1
    requires h.edge in c.edges && HopFrom(c, visit.id, visit.branch, h.edge) == Some(h)
    requires visit.id in state && h.End() in state && h.End() !in c.roots
    requires state[h.End()].distance == state[visit.id].distance + 1
    ensures Justified(c, state, Visit(h.End(), NextBranch(c, visit.branch, h)))
  {
    var e := h.edge;
    KindsAgree(c, e, h.End());
    if Opening(c, h) {
      HoldingPlaces(c, state, e, true);
      HoldingPlaces(c, state, e, false);
    } else {
      assert e.from != e.to;
      CallPlaces(c, state, visit.id, e, h.End(), h.forward);
    }
  }

  lemma ReachJustifies(c: Scope, f: Front, visit: Visit, h: Hop, d: nat)
    requires c.mode.CallChain? && Bounded(c, f.state) && AllJustified(c, f)
    requires Justified(c, f.state, visit) && -1 <= visit.branch <= 1
    requires visit.id in f.state && f.state[visit.id].distance == d
    requires forall id :: id in f.state ==> f.state[id].distance <= d + 1
    requires h.edge in c.edges && HopFrom(c, visit.id, visit.branch, h.edge) == Some(h)
    ensures AllJustified(c, Reach(c.roots, c.limit, f, h.End(), NextBranch(c, visit.branch, h), d + 1))
  {
    var (id, branch) := (h.End(), NextBranch(c, visit.branch, h));
    var g := Reach(c.roots, c.limit, f, id, branch, d + 1);
    ReachKeeps(c.roots, c.limit, f, id, branch, d + 1);
    ReachBounded(c, f, id, branch, d + 1);
    if g.queue != f.queue {
      JustifiedStays(c, f.state, g.state, visit);
      HopPlaces(c, g.state, visit, h);
    }
    QueueStays(c, f, g, Visit(id, branch));
    StateStays(c, f, g, Visit(id, branch));
  }

  lemma StateStays(c: Scope, f: Front, g: Front, v: Visit)
    requires Keeps(f.state, g.state) && AllJustified(c, f)
    requires forall n :: n in g.state && n !in f.state ==> n == v.id && Justified(c, g.state, v)
    ensures forall n :: n in g.state ==> InPlace(c, g.state, n, true) || InPlace(c, g.state, n, false)
  {
    forall n | n in g.state ensures InPlace(c, g.state, n, true) || InPlace(c, g.state, n, false) {
      if n in f.state {
        if InPlace(c, f.state, n, true) {
          InPlaceStays(c, f.state, g.state, n, true);
        } else {
          InPlaceStays(c, f.state, g.state, n, false);
        }
      }
    }
  }

  lemma QueueStays(c: Scope, f: Front, g: Front, v: Visit)
    requires Keeps(f.state, g.state) && AllJustified(c, f)
    requires g.queue == f.queue || (g.queue == f.queue + [v] && Justified(c, g.state, v))
    ensures forall u :: u in g.queue ==> Justified(c, g.state, u)
  {
    forall u | u in g.queue ensures Justified(c, g.state, u) {
      if u in f.queue {
        JustifiedStays(c, f.state, g.state, u);
      }
    }
  }

  lemma FollowJustifies(c: Scope, s: Search, visit: Visit, edge: Edge, d: nat)
    requires c.mode.CallChain? && Bounded(c, s.front.state) && Ordered(s.front, d) && edge in c.edges
    requires AllJustified(c, s.front) && Justified(c, s.front.state, visit) && -1 <= visit.branch <= 1
    requires visit.id in s.front.state && s.front.state[visit.id].distance == d
    ensures AllJustified(c, Follow(c, s, visit, edge).front)
  {
    match HopFrom(c, visit.id, visit.branch, edge)
    case None =>
    case Some(h) => ReachJustifies(c, s.front, visit, h, d);
  }

  // ---- When a call chain is complete -------------------------------------------------------

  // A path of calls to one side, from a root or from what a root holds.
  predicate CallWalk(c: Scope, path: seq<Edge>, id: string, down: bool) {
    if path == [] then id in c.roots else
      var (front, last) := (path[..|path| - 1], path[|path| - 1]);
      || (CallTo(c, last, id, down) && CallWalk(c, front, Near(last, down), down))
      || (|path| == 1 && HeldByRoot(c, last) && last.to == id)
  }

  // No such path to either side is shorter.
  ghost predicate Shortest(c: Scope, id: string, length: nat) {
    forall path, down :: CallWalk(c, path, id, down) ==> length <= |path|
  }

  // No node on the path could be reached sooner, from whichever side.
  ghost predicate Direct(c: Scope, path: seq<Edge>, id: string, down: bool) {
    && CallWalk(c, path, id, down) && Shortest(c, id, |path|)
    && (path != [] && CallTo(c, path[|path| - 1], id, down) ==>
          Direct(c, path[..|path| - 1], Near(path[|path| - 1], down), down))
  }

  ghost predicate HasDirect(c: Scope, id: string) {
    exists path, down :: Direct(c, path, id, down)
  }

  // Every symbol within the depth has such a path.
  ghost predicate Unrivalled(c: Scope) {
    forall path, id, down :: CallWalk(c, path, id, down) && |path| <= c.depth ==> HasDirect(c, id)
  }

  // Every path of calls to one side within the depth ends at a reported node no further out.
  ghost predicate CallsComplete(c: Scope, s: Search) {
    forall path, id, down :: CallWalk(c, path, id, down) && |path| <= c.depth ==> NoFurther(s.front.state, id, |path|)
  }

  lemma {:induction false} PlacedIsWalk(
    c: Scope, state: map<string, Entry>, path: seq<Edge>, id: string, down: bool)
    requires Bounded(c, state) && Placed(c, state, path, id, down)
    ensures CallWalk(c, path, id, down) && id in state && state[id].distance == |path|
  {
    if path != [] && CallTo(c, path[|path| - 1], id, down) {
      PlacedIsWalk(c, state, path[..|path| - 1], Near(path[|path| - 1], down), down);
    }
  }

  // In a complete answer, what is in place got there directly.
  lemma {:induction false} PlacedIsDirect(c: Scope, s: Search, path: seq<Edge>, id: string, down: bool)
    requires Sound(c, s) && CallsComplete(c, s) && Placed(c, s.front.state, path, id, down)
    ensures Direct(c, path, id, down)
  {
    PlacedIsWalk(c, s.front.state, path, id, down);
    assert Reported(c, id, s.front.state[id]);
    forall q, side | CallWalk(c, q, id, side) ensures |path| <= |q| {
      if |q| <= c.depth {
        assert NoFurther(s.front.state, id, |q|);
      }
    }
    if path != [] && CallTo(c, path[|path| - 1], id, down) {
      PlacedIsDirect(c, s, path[..|path| - 1], Near(path[|path| - 1], down), down);
    }
  }

  // A direct path is followed to its end.
  lemma {:induction false} DirectIsTraced(c: Scope, s: Search, path: seq<Edge>, id: string, down: bool)
    requires Sound(c, s) && FindsInPlace(c, s) && FollowsCalls(c, s) && forall e :: !HeldByRoot(c, e)
    requires Direct(c, path, id, down) && |path| <= c.depth
    ensures Traced(c, s.front.state, path, id, down) && NoFurther(s.front.state, id, |path|)
  {
    if path != [] {
      var (front, last) := (path[..|path| - 1], path[|path| - 1]);
      var near := Near(last, down);
      DirectIsTraced(c, s, front, near, down);
      assert CallShown(c, s, last, id, |path|, down);
      assert CallWalk(c, [], id, down) <==> id in c.roots;
      SoonestIsPlaced(c, s, id, |path|);
    }
  }

  lemma SoonestIsPlaced(c: Scope, s: Search, id: string, length: nat)
    requires Bounded(c, s.front.state) && FindsInPlace(c, s) && Shortest(c, id, length) && id in s.front.state
    ensures length <= s.front.state[id].distance
  {
    var down := InPlace(c, s.front.state, id, true);
    var path :| Placed(c, s.front.state, path, id, down);
    PlacedIsWalk(c, s.front.state, path, id, down);
  }

  // For roots that hold nothing, an uncut call chain is complete if and only if every symbol
  // within the depth has a path of calls to one side on which no symbol could be reached sooner
  // from the other.
  lemma CallChainIsCompleteExactly(c: Scope, s: Search)
    requires Sound(c, s) && FindsInPlace(c, s) && FollowsCalls(c, s) && forall e :: !HeldByRoot(c, e)
    ensures CallsComplete(c, s) <==> Unrivalled(c)
  {
    if CallsComplete(c, s) {
      CompleteIsUnrivalled(c, s);
    }
    if Unrivalled(c) {
      forall path, id, down | CallWalk(c, path, id, down) && |path| <= c.depth
        ensures NoFurther(s.front.state, id, |path|)
      {
        assert HasDirect(c, id);
        var p, side :| Direct(c, p, id, side);
        DirectIsTraced(c, s, p, id, side);
      }
    }
  }

  // Whatever the roots hold, an answer can only be complete then.
  lemma CompleteIsUnrivalled(c: Scope, s: Search)
    requires Sound(c, s) && FindsInPlace(c, s) && CallsComplete(c, s)
    ensures Unrivalled(c)
  {
    forall path, id, down | CallWalk(c, path, id, down) && |path| <= c.depth ensures HasDirect(c, id) {
      assert NoFurther(s.front.state, id, |path|);
      var side := InPlace(c, s.front.state, id, true);
      var p :| Placed(c, s.front.state, p, id, side);
      PlacedIsDirect(c, s, p, id, side);
    }
  }

  // ---- A caller that is missed -------------------------------------------------------------

  // Everything found stands at its place on a path of calls to one side.
  ghost predicate FindsInPlace(c: Scope, s: Search) {
    forall id :: id in s.front.state ==> InPlace(c, s.front.state, id, true) || InPlace(c, s.front.state, id, false)
  }

  const SOURCE := Provenance("p", Precision.Syntax, "1")

  function Call(from: string, to: string): Edge {
    Edge(from, to, EdgeKind.Calls, SOURCE)
  }

  // `r` calls `x`, and `y` calls `x`, which calls `u`, which calls `r`.
  function Loop(): Scope {
    Scope(map["r" := NodeKind.Function, "x" := NodeKind.Function, "u" := NodeKind.Function, "y" := NodeKind.Function],
          [Call("r", "x"), Call("u", "r"), Call("x", "u"), Call("y", "x")], CallChain, {"r"}, 3, 60)
  }

  lemma LoopNames()
    ensures "r" != "x" && "r" != "u" && "r" != "y" && "x" != "u" && "x" != "y" && "u" != "y"
  {
    assert "r"[0] != "x"[0] && "r"[0] != "u"[0] && "r"[0] != "y"[0];
    assert "x"[0] != "u"[0] && "x"[0] != "y"[0] && "u"[0] != "y"[0];
  }

  lemma LoopWalk()
    ensures OneWayWithin(Loop(), "y", -1, 3)
  {
    LoopNames();
    var c := Loop();
    var (h0, h1, h2) := (Hop(Call("u", "r"), false), Hop(Call("x", "u"), false), Hop(Call("y", "x"), false));
    assert c.edges[1] == h0.edge && c.edges[2] == h1.edge && c.edges[3] == h2.edge;
    assert Walk(c, [], "r");
    WalkExtends(c, [], "r", h0);
    WalkExtends(c, [h0], "u", h1);
    WalkExtends(c, [h0, h1], "x", h2);
    assert [] + [h0] == [h0] && [h0] + [h1] == [h0, h1] && [h0, h1] + [h2] == [h0, h1, h2];
    assert Walk(c, [h0, h1, h2], "y") && OneWay(c, [h0, h1, h2], -1);
  }

  // `y` is reached by its call to `x` only, and `x` from below by its call to `u` only.
  predicate LoopEdges(edges: seq<Edge>) {
    forall e :: e in edges ==>
      e.kind in CALL_KINDS && e.to != "y" && (e.from == "y" ==> e.to == "x") && (e.from == "x" ==> e.to == "u")
  }

  // With `x` next to the root no path of calls upwards has it in place.
  lemma XIsNoCaller(c: Scope, state: map<string, Entry>, path: seq<Edge>)
    requires LoopEdges(c.edges) && c.roots == {"r"} && |path| <= 1
    ensures !Placed(c, state, path, "x", false)
  {
    LoopNames();
    if |path| == 1 {
      assert path[..0] == [] && !Placed(c, state, [], "u", false);
    }
  }

  lemma NotInPlace(c: Scope, state: map<string, Entry>, path: seq<Edge>, down: bool)
    requires LoopEdges(c.edges) && c.roots == {"r"} && "x" in state && state["x"].distance <= 1
    ensures !Placed(c, state, path, "y", down)
  {
    LoopNames();
    if path != [] && |path| <= 2 {
      XIsNoCaller(c, state, path[..|path| - 1]);
    }
  }

  lemma LoopHolds(s: Search)
    requires FollowsCalls(Loop(), s)
    ensures LoopEdges(Loop().edges) && "x" in s.front.state && s.front.state["x"].distance <= 1
  {
    LoopNames();
    var (c, state) := (Loop(), s.front.state);
    assert c.edges[0] == Call("r", "x");
    assert Traced(c, state, [], "r", true) && CallTo(c, Call("r", "x"), "x", true);
    assert CallShown(c, s, Call("r", "x"), "x", 1, true);
  }

  // An uncut answer to this query does not hold the caller `y`, although it is three calls up
  // from the root: `x` stands at distance 1 as a callee, and is not followed upwards from there.
  lemma FarCallerIsMissed(s: Search)
    requires FollowsCalls(Loop(), s) && FindsInPlace(Loop(), s)
    ensures "y" !in s.front.state && OneWayWithin(Loop(), "y", -1, 3)
  {
    LoopWalk();
    LoopHolds(s);
    forall path, down ensures !Placed(Loop(), s.front.state, path, "y", down) {
      NotInPlace(Loop(), s.front.state, path, down);
    }
  }

  // ---- The loops --------------------------------------------------------------------

  // Following all incident edges, in order.
  function FollowAll(c: Scope, s: Search, visit: Visit, incident: seq<Edge>): Search {
    Fold(Following(c, visit), s, incident)
  }

  function Following(c: Scope, visit: Visit): (Search, Edge) -> Search {
    (s: Search, e: Edge) => Follow(c, s, visit, e)
  }

  ghost predicate Visiting(c: Scope, s: Search, made: set<Visit>, visit: Visit, d: nat) {
    && Invariants(c, s, d) && Waiting(c, s.front.state, visit) && s.front.state[visit.id].distance == d
    && Tight(s.front, made, d) && Honest(c, s)
    && (c.mode.CallChain? ==> AllJustified(c, s.front) && Justified(c, s.front.state, visit))
  }

  lemma FollowVisiting(c: Scope, s: Search, made: set<Visit>, visit: Visit, edge: Edge, d: nat)
    requires Visiting(c, s, made, visit, d) && edge in c.edges && d < c.depth
    ensures Visiting(c, Follow(c, s, visit, edge), made, visit, d)
    ensures Followed(c, Follow(c, s, visit, edge), made, visit, edge)
  {
    FollowKeeps(c, s, visit, edge, d);
    FollowGrows(c, s, visit, edge);
    FollowFollows(c, s, made, visit, edge, d);
    FollowIsHonest(c, s, visit, edge);
    if c.mode.CallChain? {
      FollowJustifies(c, s, visit, edge, d);
      JustifiedStays(c, s.front.state, Follow(c, s, visit, edge).front.state, visit);
    }
  }

  lemma FollowKnowsMore(c: Scope, s: Search, made: set<Visit>, visit: Visit, edge: Edge)
    ensures Grows(s, Follow(c, s, visit, edge))
    ensures KnowsMore(made, s.front.queue, made, Follow(c, s, visit, edge).front.queue)
  {
    FollowGrows(c, s, visit, edge);
    LongerKnowsMore(made, s.front.queue, Follow(c, s, visit, edge).front.queue);
  }

  lemma FollowAllKeeps(c: Scope, s: Search, made: set<Visit>, visit: Visit, incident: seq<Edge>, d: nat)
    requires Visiting(c, s, made, visit, d) && d < c.depth && forall e :: e in incident ==> e in c.edges
    ensures Visiting(c, FollowAll(c, s, visit, incident), made, visit, d)
    ensures forall e :: e in incident ==> Followed(c, FollowAll(c, s, visit, incident), made, visit, e)
  {
    ghost var step := Following(c, visit);
    ghost var inv := (u: Search) => Visiting(c, u, made, visit, d);
    ghost var done := (u: Search, e: Edge) => Followed(c, u, made, visit, e);
    forall u, e | e in incident && inv(u) ensures inv(step(u, e)) && done(step(u, e), e) {
      FollowVisiting(c, u, made, visit, e, d);
    }
    forall u, x, y | x in incident && y in incident && inv(u) && done(u, y) ensures done(step(u, x), y) {
      FollowKnowsMore(c, u, made, visit, x);
      FollowedGrows(c, u, Follow(c, u, visit, x), made, made, visit, y);
    }
    FoldCovers(step, s, incident, inv, done);
  }

  // Every node that `t` has beyond `s` waits, and for both sides if it is marked from neither.
  predicate NewWait(s: Search, t: Search) {
    forall n :: n in t.front.state && n !in s.front.state ==>
      Waits(t.front.queue, n) && (Unmarked(t.front.state[n]) ==> Visit(n, 0) in t.front.queue)
  }

  // What a visit adds to the front it starts from.
  predicate Extends(s: Search, t: Search) {
    && Grows(s, t)
    && s.front.queue <= t.front.queue
    && Later(s.front, t.front)
    && NewWait(s, t)
  }

  lemma ExtendsFurther(c: Scope, s: Search, u: Search, visit: Visit, e: Edge)
    requires Extends(s, u)
    ensures Extends(s, Follow(c, u, visit, e))
  {
    var t := Follow(c, u, visit, e);
    FollowGrows(c, u, visit, e);
    FollowProgresses(c, u, visit, e);
    forall n | n in t.front.state && n !in s.front.state
      ensures Waits(t.front.queue, n) && (Unmarked(t.front.state[n]) ==> Visit(n, 0) in t.front.queue)
    {
      if n in u.front.state {
        var i :| 0 <= i < |u.front.queue| && u.front.queue[i].id == n;
        assert t.front.queue[i].id == n;
        LongerKnowsMore({}, u.front.queue, t.front.queue);
        assert Known({}, u.front.queue, Visit(n, 0)) ==> Known({}, t.front.queue, Visit(n, 0));
      }
    }
  }

  lemma FollowAllExtends(c: Scope, s: Search, visit: Visit, incident: seq<Edge>)
    ensures Extends(s, FollowAll(c, s, visit, incident))
  {
    ghost var step := Following(c, visit);
    ghost var inv := (u: Search) => Extends(s, u);
    forall u, e | e in incident && inv(u) ensures inv(step(u, e)) {
      ExtendsFurther(c, s, u, visit, e);
    }
    FoldCovers(step, s, incident, inv, (u: Search, e: Edge) => true);
  }

  lemma FollowAllExpands(c: Scope, s: Search, made: set<Visit>, visit: Visit, d: nat)
    requires Visiting(c, s, made, visit, d) && d < c.depth
    ensures var t := FollowAll(c, s, visit, Incident(c.edges, visit.id, |c.edges|));
      && Invariants(c, t, d) && Tight(t.front, made, d) && Honest(c, t) && Expanded(c, t, made, visit)
      && (c.mode.CallChain? ==> AllJustified(c, t.front))
  {
    var incident := Incident(c.edges, visit.id, |c.edges|);
    assert c.edges[..|c.edges|] == c.edges;
    FollowAllKeeps(c, s, made, visit, incident, d);
    var t := FollowAll(c, s, visit, incident);
    forall e | e in c.edges ensures Followed(c, t, made, visit, e) {
      assert e !in incident ==> HopFrom(c, visit.id, visit.branch, e).None?;
    }
  }

  function Initial(roots: seq<string>): Search {
    Search(Front(map id | id in roots :: Entry(0, false, false),
                 seq(|roots|, i requires 0 <= i < |roots| => Visit(roots[i], 0))),
           Report([], {}, false))
  }

  // The invariants of the outer loop.
  ghost predicate Searching(c: Scope, s: Search, made: set<Visit>, d: nat) {
    && Invariants(c, s, d) && Settled(c, s, made) && Tight(s.front, made, d) && Honest(c, s)
    && (c.mode.CallChain? ==> AllJustified(c, s.front))
  }

  lemma InitialHolds(c: Scope, roots: seq<string>)
    requires c.Valid() && Elements(roots) == c.roots
    ensures Searching(c, Initial(roots), {}, 0)
  {
    InitialInvariants(c, roots);
    InitialSettled(c, roots);
    forall id, down | id in c.roots ensures InPlace(c, Initial(roots).front.state, id, down) {
      assert Placed(c, Initial(roots).front.state, [], id, down);
    }
  }

  lemma InitialInvariants(c: Scope, roots: seq<string>)
    requires c.Valid() && Elements(roots) == c.roots
    ensures Invariants(c, Initial(roots), 0)
  {
    var s := Initial(roots);
    assert s.front.state.Keys == c.roots;
    forall id | id in s.front.state ensures Reported(c, id, s.front.state[id]) {
      assert Walk(c, [], id);
    }
    forall i | 0 <= i < |roots| ensures Waiting(c, s.front.state, s.front.queue[i]) {
      assert Walk(c, [], roots[i]) && OneWay(c, [], 0);
    }
  }

  lemma InitialSettled(c: Scope, roots: seq<string>)
    requires Elements(roots) == c.roots
    ensures Settled(c, Initial(roots), {}) && Tight(Initial(roots).front, {}, 0)
  {
    var s := Initial(roots);
    forall id | id in s.front.state ensures Waits(s.front.queue, id) && Visit(id, 0) in s.front.queue {
      var i :| 0 <= i < |roots| && roots[i] == id;
      assert s.front.queue[i] == Visit(id, 0);
    }
  }

  function Pop(s: Search): Search
    requires s.front.queue != []
  {
    Search(Front(s.front.state, s.front.queue[1..]), s.report)
  }

  lemma PopKeeps(c: Scope, s: Search, d: nat)
    requires Invariants(c, s, d) && s.front.queue != []
    ensures Waiting(c, s.front.state, s.front.queue[0])
    ensures Invariants(c, Pop(s), s.front.state[s.front.queue[0].id].distance)
    ensures d <= s.front.state[s.front.queue[0].id].distance
  {
    var (q, p) := (s.front.queue, Pop(s).front.queue);
    assert Waiting(c, s.front.state, q[0]);
    assert forall i :: 0 <= i < |p| ==> p[i] == q[i + 1];
  }

  // Taking a visit from the queue makes it.
  lemma PopKnows(queue: seq<Visit>, made: set<Visit>)
    requires queue != []
    ensures KnowsMore(made, queue, made + {queue[0]}, queue[1..])
  {
    forall v | v in queue ensures v in made + {queue[0]} || v in queue[1..] {
      var i :| 0 <= i < |queue| && queue[i] == v;
      assert i > 0 ==> queue[1..][i - 1] == v;
    }
  }

  lemma PopTight(s: Search, made: set<Visit>, d: nat, e: nat)
    requires s.front.queue != [] && Tight(s.front, made, d) && d <= e
    requires forall id :: id in s.front.state ==> s.front.state[id].distance <= d + 1
    ensures Tight(Pop(s).front, made + {s.front.queue[0]}, e)
  {
    PopKnows(s.front.queue, made);
  }

  lemma StillCalled(s: Search, t: Search, made: set<Visit>, id: string)
    requires s.front.queue != [] && s.front.queue[1..] <= t.front.queue && Called(made, s.front.queue, id)
    ensures Called(made + {s.front.queue[0]}, t.front.queue, id)
  {
    if Waits(s.front.queue, id) {
      var i :| 0 <= i < |s.front.queue| && s.front.queue[i].id == id;
      if i > 0 {
        assert t.front.queue[i - 1] == s.front.queue[1..][i - 1];
      }
    }
  }

  lemma VisitSettles(c: Scope, s: Search, t: Search, made: set<Visit>)
    requires Bounded(c, s.front.state) && Settled(c, s, made) && s.front.queue != [] && Grows(s, t)
    requires s.front.queue[1..] <= t.front.queue && NewWait(s, t)
    requires var v := s.front.queue[0];
      && v.id in s.front.state
      && (s.front.state[v.id].distance >= c.depth || Expanded(c, t, made + {v}, v))
    ensures Settled(c, t, made + {s.front.queue[0]})
  {
    var more := made + {s.front.queue[0]};
    PopKnows(s.front.queue, made);
    LongerKnowsMore(more, s.front.queue[1..], t.front.queue);
    assert KnowsMore(made, s.front.queue, more, t.front.queue);
    forall v | v in more
      ensures v.id in t.front.state && (t.front.state[v.id].distance >= c.depth || Expanded(c, t, more, v))
    {
      if v != s.front.queue[0] && s.front.state[v.id].distance < c.depth {
        ExpandedGrows(c, s, t, made, more, v);
      }
    }
    forall id | id in t.front.state
      ensures Called(more, t.front.queue, id)
      ensures Unmarked(t.front.state[id]) || id in c.roots ==> Known(more, t.front.queue, Visit(id, 0))
    {
      if id in s.front.state {
        StillCalled(s, t, made, id);
        assert Known(made, s.front.queue, Visit(id, 0)) ==> Known(more, t.front.queue, Visit(id, 0));
      }
    }
  }

  // One visit: what follows from the invariants before it.
  lemma VisitKeeps(c: Scope, s: Search, made: set<Visit>, d: nat)
    requires Searching(c, s, made, d) && s.front.queue != []
    ensures Waiting(c, s.front.state, s.front.queue[0])
    ensures var (t, e) := (AfterVisit(c, s), s.front.state[s.front.queue[0].id].distance);
      Searching(c, t, made + {s.front.queue[0]}, e) && Later(Pop(s).front, t.front)
  {
    PopKeeps(c, s, d);
    var visit := s.front.queue[0];
    var (e, more) := (s.front.state[visit.id].distance, made + {visit});
    PopTight(s, made, d, e);
    if e < c.depth {
      FollowAllExpands(c, Pop(s), more, visit, e);
      FollowAllExtends(c, Pop(s), visit, Incident(c.edges, visit.id, |c.edges|));
    }
    VisitSettles(c, s, AfterVisit(c, s), made);
  }

  function AfterVisit(c: Scope, s: Search): Search
    requires s.front.queue != []
  {
    var visit := s.front.queue[0];
    if DistanceOf(s.front.state, visit.id) >= c.depth then Pop(s)
    else FollowAll(c, Pop(s), visit, Incident(c.edges, visit.id, |c.edges|))
  }

  method FollowEach(c: Scope, start: Search, visit: Visit, incident: seq<Edge>) returns (s: Search)
    ensures s == FollowAll(c, start, visit, incident)
  {
    s := start;
    for i := 0 to |incident|
      invariant s == FollowAll(c, start, visit, incident[..i])
    {
      s := Follow(c, s, visit, incident[i]);
      assert incident[..i + 1] == incident[..i] + [incident[i]];
      LastStep(Following(c, visit), start, incident[..i], incident[i]);
    }
    assert incident[..|incident|] == incident;
  }

  // `query` from the resolved roots on, with the raw depth and limit of the request.
  method Query(nodes: map<string, NodeKind>, edges: seq<Edge>, mode: Mode, roots: seq<string>, depth: nat, limit: nat)
    returns (s: Search)
    requires forall r :: r in roots ==> r in nodes && CodeKind(nodes[r])
    requires 0 < |roots| <= 8
    ensures var c := Scope(nodes, edges, mode, Elements(roots), Clamp(depth, 1, 4), Clamp(limit, 16, 240));
      && Sound(c, s)
      && (!s.report.truncated && !mode.CallChain? ==> Complete(c, s))
      && (mode.CallChain? ==> FindsInPlace(c, s))
      && (!s.report.truncated && mode.CallChain? ==> FollowsCalls(c, s))
      && (!s.report.truncated ==> SidesMarked(c, s.front.state))
  {
    DistinctSize(roots);
    var c := Scope(nodes, edges, mode, Elements(roots), Clamp(depth, 1, 4), Clamp(limit, 16, 240));
    var adjacency := Index(edges);
    s := Initial(roots);
    InitialHolds(c, roots);
    ghost var (d, made) := (0, {});
    while s.front.queue != []
      invariant Searching(c, s, made, d)
      decreases 3 * c.limit - Progress(s.front.state), |s.front.queue|
    {
      ghost var before := s;
      VisitKeeps(c, s, made, d);
      var visit := s.front.queue[0];
      s := Search(Front(s.front.state, s.front.queue[1..]), s.report);
      d, made := DistanceOf(s.front.state, visit.id), made + {visit};
      if DistanceOf(s.front.state, visit.id) < c.depth {
        s := FollowEach(c, s, visit, At(adjacency, visit.id));
      }
      assert s == AfterVisit(c, before);
      ProgressBounded(s.front.state);
      ProgressBounded(before.front.state);
    }
    if !s.report.truncated {
      RootsMarkSides(c, s, made);
      if mode.CallChain? {
        FinishedSearchFollowsCalls(c, s, made);
      } else {
        FinishedSearchIsComplete(c, s, made);
      }
    }
  }
}
