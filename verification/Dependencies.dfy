// Reconciliation tasks and the detection of dependency cycles.
module Dependencies {
  import opened Sorting

  datatype TaskKind = Design | Implementation | Verification | Review | HumanApproval

  datatype Task = Task(
    id: string, kind: TaskKind, subject: string, description: string,
    writeScopes: seq<string>, dependsOn: seq<string>)

  function Ids(tasks: seq<Task>): set<string> {
    set t | t in tasks :: t.id
  }

  predicate UniqueIds(tasks: seq<Task>) {
    forall i, j :: 0 <= i < j < |tasks| ==> tasks[i].id != tasks[j].id
  }

  predicate KnownDependencies(tasks: seq<Task>) {
    forall t, d :: t in tasks && d in t.dependsOn ==> d in Ids(tasks)
  }

  predicate DependsOn(tasks: seq<Task>, a: string, b: string) {
    exists t :: t in tasks && t.id == a && b in t.dependsOn
  }

  // Every task in `order` comes after all that it depends on.
  ghost predicate Ordered(order: seq<string>, tasks: seq<Task>) {
    Distinct(order) && Elements(order) <= Ids(tasks)
    && forall i, d :: 0 <= i < |order| && DependsOn(tasks, order[i], d) ==> d in order[..i]
  }

  ghost predicate TopologicalOrder(order: seq<string>, tasks: seq<Task>) {
    Ordered(order, tasks) && Elements(order) == Ids(tasks)
  }

  ghost predicate Acyclic(tasks: seq<Task>) {
    exists order :: TopologicalOrder(order, tasks)
  }

  // A closed walk along dependencies.
  ghost predicate Cycle(walk: seq<string>, tasks: seq<Task>) {
    walk != [] && DependsOn(tasks, walk[|walk| - 1], walk[0])
    && forall i :: 0 <= i < |walk| - 1 ==> DependsOn(tasks, walk[i], walk[i + 1])
  }

  // Nothing outside `done` can be completed next.
  ghost predicate Stuck(done: set<string>, tasks: seq<Task>) {
    done < Ids(tasks)
    && forall a :: a in Ids(tasks) - done ==> exists d :: d !in done && DependsOn(tasks, a, d)
  }

  // An order cannot leave a stuck set.
  lemma {:induction false} OrderedStaysInside(done: set<string>, order: seq<string>, tasks: seq<Task>, n: nat)
    requires Stuck(done, tasks) && Ordered(order, tasks) && n <= |order|
    ensures Elements(order[..n]) <= done
  {
    if n > 0 {
      OrderedStaysInside(done, order, tasks, n - 1);
      assert order[..n] == order[..n - 1] + [order[n - 1]];
      assert order[n - 1] in Elements(order);
      if order[n - 1] !in done {
        var d := UnmetDependency(done, order, tasks, n - 1);
      }
    }
  }

  lemma UnmetDependency(done: set<string>, order: seq<string>, tasks: seq<Task>, k: nat) returns (d: string)
    requires Stuck(done, tasks) && Ordered(order, tasks) && k < |order| && order[k] !in done
    ensures d !in done && d in Elements(order[..k])
  {
    assert order[k] in Elements(order);
    assert order[k] in Ids(tasks) - done;
    d :| d !in done && DependsOn(tasks, order[k], d);
    assert d in order[..k];
  }

  // Following unmet dependencies from a stuck task must revisit one.
  lemma {:induction false} StuckHasCycle(done: set<string>, tasks: seq<Task>, walk: seq<string>)
    requires Stuck(done, tasks) && KnownDependencies(tasks)
    requires walk != [] && Distinct(walk) && Elements(walk) <= Ids(tasks) - done
    requires forall i :: 0 <= i < |walk| - 1 ==> DependsOn(tasks, walk[i], walk[i + 1])
    ensures exists c :: Cycle(c, tasks)
    decreases |Ids(tasks)| - |walk|
  {
    var last := walk[|walk| - 1];
    assert last in Elements(walk);
    var d :| d !in done && DependsOn(tasks, last, d);
    if d in walk {
      ClosedWalk(walk, d, tasks);
    } else {
      var longer := walk + [d];
      assert Elements(longer) == Elements(walk) + {d};
      assert Elements(longer) <= Ids(tasks);
      WalkFits(longer, Ids(tasks));
      StuckHasCycle(done, tasks, longer);
    }
  }

  lemma WalkFits(walk: seq<string>, ids: set<string>)
    requires Distinct(walk) && Elements(walk) <= ids
    ensures |walk| <= |ids|
  {
    DistinctSize(walk);
    SubsetSize(Elements(walk), ids);
  }

  lemma ClosedWalk(walk: seq<string>, d: string, tasks: seq<Task>)
    requires d in walk && DependsOn(tasks, walk[|walk| - 1], d)
    requires forall i :: 0 <= i < |walk| - 1 ==> DependsOn(tasks, walk[i], walk[i + 1])
    ensures exists c :: Cycle(c, tasks)
  {
    var k :| 0 <= k < |walk| && walk[k] == d;
    var c := walk[k..];
    assert forall i :: 0 <= i < |c| ==> c[i] == walk[k + i];
    assert Cycle(c, tasks);
  }

  // Along a cycle every step goes strictly back in a topological order, forever.
  lemma OrderExcludesCycle(order: seq<string>, walk: seq<string>, tasks: seq<Task>)
    requires TopologicalOrder(order, tasks)
    ensures !Cycle(walk, tasks)
  {
    if Cycle(walk, tasks) {
      CycleStart(walk, tasks);
      assert walk[0] in Elements(order);
      var at :| 0 <= at < |order| && order[at] == walk[0];
      WalkGoesBack(order, walk, tasks, at, |walk| - 1);
    }
  }

  lemma CycleStart(walk: seq<string>, tasks: seq<Task>)
    requires Cycle(walk, tasks)
    ensures walk[0] in Ids(tasks)
  {
    assert |walk| > 1 ==> DependsOn(tasks, walk[0], walk[1]);
  }

  lemma {:induction false} WalkGoesBack(order: seq<string>, walk: seq<string>, tasks: seq<Task>, at: nat, n: nat)
    requires TopologicalOrder(order, tasks) && n < |walk| && at < |order| && order[at] == walk[0]
    requires forall i :: 0 <= i < n ==> DependsOn(tasks, walk[i], walk[i + 1])
    ensures exists k :: 0 <= k <= at && order[k] == walk[n]
  {
    if n > 0 {
      WalkGoesBack(order, walk, tasks, at, n - 1);
      var k :| 0 <= k <= at && order[k] == walk[n - 1];
      assert DependsOn(tasks, walk[n - 1], walk[n - 1 + 1]);
      assert walk[n] in order[..k];
    }
  }

  // ---- The detector ---------------------------------------------------------

  method HasDependencyCycle(tasks: seq<Task>) returns (cyclic: bool)
    ensures UniqueIds(tasks) ==> (cyclic <==> !Acyclic(tasks))
    ensures UniqueIds(tasks) && KnownDependencies(tasks) ==> (cyclic <==> exists c :: Cycle(c, tasks))
  {
    var completed: set<string> := {};
    ghost var order: seq<string> := [];
    while true
      invariant completed <= Ids(tasks) && Elements(order) == completed
      invariant UniqueIds(tasks) ==> Ordered(order, tasks)
      decreases Ids(tasks) - completed
    {
      var before := |completed|;
      ghost var was := completed;
      for k := 0 to |tasks|
        invariant was <= completed <= Ids(tasks) && Elements(order) == completed
        invariant UniqueIds(tasks) ==> Ordered(order, tasks)
        invariant completed == was ==> forall j :: 0 <= j < k && tasks[j].id !in was ==>
          exists d :: d in tasks[j].dependsOn && d !in was
      {
        var task := tasks[k];
        if task.id !in completed && forall d :: d in task.dependsOn ==> d in completed {
          if UniqueIds(tasks) { OrderedGrows(order, tasks, k); }
          completed, order := completed + {task.id}, order + [task.id];
        }
      }
      IdCount(tasks);
      SubsetSize(completed, Ids(tasks));
      SubsetSize(was, completed);
      if |completed| == |tasks| {
        if UniqueIds(tasks) {
          assert TopologicalOrder(order, tasks);
          forall c ensures !Cycle(c, tasks) { OrderExcludesCycle(order, c, tasks); }
        }
        return false;
      }
      if |completed| == before {
        if UniqueIds(tasks) {
          forall a | a in Ids(tasks) - completed ensures exists d :: d !in completed && DependsOn(tasks, a, d) {
            var j :| 0 <= j < |tasks| && tasks[j].id == a;
            var d :| d in tasks[j].dependsOn && d !in was;
            assert DependsOn(tasks, a, d);
          }
          assert completed != Ids(tasks);
          assert Stuck(completed, tasks);
          StuckIsCyclic(completed, tasks);
        }
        return |tasks| != 0;
      }
      assert was != completed && (Ids(tasks) - was) - (Ids(tasks) - completed) == completed - was;
    }
  }

  lemma StuckIsCyclic(done: set<string>, tasks: seq<Task>)
    requires Stuck(done, tasks)
    ensures !Acyclic(tasks)
    ensures KnownDependencies(tasks) ==> exists c :: Cycle(c, tasks)
  {
    forall order ensures !TopologicalOrder(order, tasks) {
      if Ordered(order, tasks) {
        OrderedStaysInside(done, order, tasks, |order|);
        assert order[..|order|] == order;
      }
    }
    if KnownDependencies(tasks) {
      var a := StuckTask(done, tasks);
      StuckHasCycle(done, tasks, [a]);
    }
  }

  lemma StuckTask(done: set<string>, tasks: seq<Task>) returns (a: string)
    requires Stuck(done, tasks)
    ensures a in Ids(tasks) - done && Elements([a]) == {a}
  {
    assert done + (Ids(tasks) - done) == Ids(tasks);
    a :| a in Ids(tasks) - done;
  }

  lemma OrderedGrows(order: seq<string>, tasks: seq<Task>, k: nat)
    requires UniqueIds(tasks) && Ordered(order, tasks) && k < |tasks| && tasks[k].id !in order
    requires forall d :: d in tasks[k].dependsOn ==> d in Elements(order)
    ensures Ordered(order + [tasks[k].id], tasks)
  {
    var longer := order + [tasks[k].id];
    assert Elements(longer) == Elements(order) + {tasks[k].id};
    forall i, d | 0 <= i < |longer| && DependsOn(tasks, longer[i], d) ensures d in longer[..i] {
      var t :| t in tasks && t.id == longer[i] && d in t.dependsOn;
      if i < |order| {
        assert longer[..i] == order[..i];
      } else {
        assert t == tasks[k];
        assert longer[..i] == order;
      }
    }
  }

  lemma IdCount(tasks: seq<Task>)
    ensures |Ids(tasks)| <= |tasks|
    ensures UniqueIds(tasks) <==> |Ids(tasks)| == |tasks|
  {
    var ids := seq(|tasks|, i requires 0 <= i < |tasks| => tasks[i].id);
    forall a | a in Ids(tasks) ensures a in Elements(ids) {
      var i :| 0 <= i < |tasks| && tasks[i].id == a;
      assert ids[i] == a;
    }
    assert Ids(tasks) == Elements(ids);
    DistinctSize(ids);
    assert forall i :: 0 <= i < |tasks| ==> ids[i] == tasks[i].id;
  }
}
