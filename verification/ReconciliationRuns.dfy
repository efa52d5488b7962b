// What every run of the reconciliation executor keeps, from a validated plan on.
module ReconciliationRuns {
  import opened Wrappers
  import opened Dependencies
  import opened Scopes
  import opened Sorting
  import opened Reconciliation

  datatype Step =
    | ClaimStep(executor: string, kinds: seq<TaskKind>, wanted: Option<string>, binding: Option<string>)
    | SubmitStep(taskId: string, submitter: string, submission: Submission)
    | RetryStep(retried: string)
    | SystemStep(kind: TaskKind, completed: bool, summary: string)

  function ChangeOf(tasks: seq<TaskRun>, step: Step, ignoreCase: bool): Result<Change, Error>
    requires !step.SystemStep?
  {
    match step
    case ClaimStep(executor, kinds, wanted, binding) => ClaimChange(tasks, executor, kinds, wanted, binding, ignoreCase)
    case SubmitStep(taskId, submitter, submission) => SubmitChange(tasks, taskId, submitter, submission)
    case RetryStep(retried) => RetryChange(tasks, retried)
  }

  // A rejected step leaves the tasks alone.
  function After(tasks: seq<TaskRun>, step: Step, ignoreCase: bool): seq<TaskRun> {
    if step.SystemStep? then SystemTasks(tasks, step.kind, step.completed, step.summary)
    else match ChangeOf(tasks, step, ignoreCase)
      case Failure(_) => tasks
      case Success(change) => change.tasks
  }

  function AfterAll(tasks: seq<TaskRun>, steps: seq<Step>, ignoreCase: bool): seq<TaskRun> {
    if steps == [] then tasks
    else After(AfterAll(tasks, steps[..|steps| - 1], ignoreCase), steps[|steps| - 1], ignoreCase)
  }

  // The runtime settles only verification and human approval tasks.
  predicate SystemKind(kind: TaskKind) {
    kind == Verification || kind == HumanApproval
  }

  predicate RuntimeStep(step: Step) {
    step.SystemStep? ==> SystemKind(step.kind)
  }

  // ---- The shape of one step ------------------------------------------------

  predicate SamePlan(plan: seq<Task>, tasks: seq<TaskRun>) {
    |tasks| == |plan| && forall i :: 0 <= i < |plan| ==> tasks[i].task == plan[i]
  }

  // Task `i` goes from `before[i]` to `after[i]` in a way the life cycle allows.
  predicate Moves(before: seq<TaskRun>, i: nat, next: TaskRun, step: Step, ignoreCase: bool)
    requires i < |before|
  {
    var was := before[i];
    next == was
    || match step
       case ClaimStep(_, kinds, wanted, binding) =>
         Claimable(before, was, kinds, wanted, ignoreCase) && next.status == Claimed
         && next.ownership == Some(Ownership(ClaimModeOf(was.task.kind), binding))
       case SubmitStep(_, submitter, submission) =>
         was.status == Claimed && was.claimedBy == Some(submitter)
         && next.status == (if submission.success then Completed else Failed)
       case RetryStep(_) => was.status == Failed && ClaimableKind(was.task.kind) && next.status == Pending
       case SystemStep(kind, completed, _) =>
         was.task.kind == kind && (completed ==> DependenciesCompleted(before, was.task))
         && next.status == (if completed then Completed else Pending)
  }

  // Where a step finds a task by its id it finds the task itself.
  lemma OwnIndex(plan: seq<Task>, tasks: seq<TaskRun>, k: nat)
    requires UniqueIds(plan) && SamePlan(plan, tasks) && k < |tasks|
    ensures IndexOf(tasks, tasks[k].task.id) == Some(k)
  {
    var at := IndexOf(tasks, tasks[k].task.id);
    assert tasks[k].task == plan[k] && tasks[at.value].task == plan[at.value];
  }

  lemma ClaimMoves(plan: seq<Task>, tasks: seq<TaskRun>, step: Step, ignoreCase: bool)
    requires UniqueIds(plan) && SamePlan(plan, tasks) && step.ClaimStep?
    ensures var after := After(tasks, step, ignoreCase);
            && SamePlan(plan, after)
            && (forall i :: 0 <= i < |plan| ==> Moves(tasks, i, after[i], step, ignoreCase))
            && forall i, j :: 0 <= i < j < |plan| ==> after[i] == tasks[i] || after[j] == tasks[j]
  {
    var k := FirstClaimable(tasks, step.kinds, step.wanted, ignoreCase);
    if k.Some? {
      OwnIndex(plan, tasks, k.value);
    }
  }

  // At most one task moves, except that a system step settles every task of its kind.
  lemma StepMoves(plan: seq<Task>, tasks: seq<TaskRun>, step: Step, ignoreCase: bool)
    requires UniqueIds(plan) && SamePlan(plan, tasks)
    ensures var after := After(tasks, step, ignoreCase);
            && SamePlan(plan, after)
            && (forall i :: 0 <= i < |plan| ==> Moves(tasks, i, after[i], step, ignoreCase))
            && (!step.SystemStep? ==>
                  forall i, j :: 0 <= i < j < |plan| ==> after[i] == tasks[i] || after[j] == tasks[j])
  {
    if step.ClaimStep? {
      ClaimMoves(plan, tasks, step, ignoreCase);
    }
  }

  // ---- Exclusion of writers -------------------------------------------------

  predicate ProperlyOwned(tasks: seq<TaskRun>) {
    forall r :: r in tasks && r.status == Claimed ==>
      ClaimableKind(r.task.kind) && r.ownership.Some? && r.ownership.value.mode == ClaimModeOf(r.task.kind)
  }

  predicate Exclusive(tasks: seq<TaskRun>, ignoreCase: bool) {
    forall i, j :: 0 <= i < j < |tasks| && HoldsWriter(tasks[i]) && HoldsWriter(tasks[j]) ==>
      !WriteScopesConflict(tasks[i].task.writeScopes, tasks[j].task.writeScopes, ignoreCase)
  }

  lemma ConflictSymmetric(left: seq<string>, right: seq<string>, ignoreCase: bool)
    ensures WriteScopesConflict(left, right, ignoreCase) <==> WriteScopesConflict(right, left, ignoreCase)
  {
  }

  lemma ExclusionKept(plan: seq<Task>, tasks: seq<TaskRun>, step: Step, ignoreCase: bool)
    requires UniqueIds(plan) && SamePlan(plan, tasks) && ProperlyOwned(tasks) && Exclusive(tasks, ignoreCase)
    ensures var after := After(tasks, step, ignoreCase);
            ProperlyOwned(after) && Exclusive(after, ignoreCase)
  {
    var after := After(tasks, step, ignoreCase);
    StepMoves(plan, tasks, step, ignoreCase);
    forall i | 0 <= i < |after| && after[i].status == Claimed
      ensures ClaimableKind(after[i].task.kind) && after[i].ownership.Some?
        && after[i].ownership.value.mode == ClaimModeOf(after[i].task.kind)
    {
      assert Moves(tasks, i, after[i], step, ignoreCase);
      assert tasks[i] in tasks;
    }
    forall i, j | 0 <= i < j < |after| && HoldsWriter(after[i]) && HoldsWriter(after[j])
      ensures !WriteScopesConflict(after[i].task.writeScopes, after[j].task.writeScopes, ignoreCase)
    {
      assert Moves(tasks, i, after[i], step, ignoreCase) && Moves(tasks, j, after[j], step, ignoreCase);
      assert tasks[i] in tasks && tasks[j] in tasks;
      ConflictSymmetric(tasks[i].task.writeScopes, tasks[j].task.writeScopes, ignoreCase);
    }
  }

  // ---- Dependencies ---------------------------------------------------------

  // The dependencies of claimable kind of every started task are completed.
  predicate StartedAfterDependencies(tasks: seq<TaskRun>) {
    forall r, d ::
      (r in tasks && d in tasks && r.status != Pending && d.task.id in r.task.dependsOn && ClaimableKind(d.task.kind))
      ==> d.status == Completed
  }

  lemma CompletedStays(plan: seq<Task>, tasks: seq<TaskRun>, step: Step, ignoreCase: bool, i: nat)
    requires UniqueIds(plan) && SamePlan(plan, tasks) && RuntimeStep(step)
    requires i < |tasks| && tasks[i].status == Completed && ClaimableKind(tasks[i].task.kind)
    ensures SamePlan(plan, After(tasks, step, ignoreCase)) && After(tasks, step, ignoreCase)[i].status == Completed
  {
    StepMoves(plan, tasks, step, ignoreCase);
    assert Moves(tasks, i, After(tasks, step, ignoreCase)[i], step, ignoreCase);
  }

  lemma CompletedIdIsUnique(plan: seq<Task>, tasks: seq<TaskRun>, j: nat)
    requires UniqueIds(plan) && SamePlan(plan, tasks) && j < |tasks| && CompletedId(tasks, tasks[j].task.id)
    ensures tasks[j].status == Completed
  {
    var i :| 0 <= i < |tasks| && tasks[i].task.id == tasks[j].task.id && tasks[i].status == Completed;
    assert plan[i].id == plan[j].id;
  }

  lemma DependencyOrderKept(plan: seq<Task>, tasks: seq<TaskRun>, step: Step, ignoreCase: bool)
    requires UniqueIds(plan) && SamePlan(plan, tasks) && RuntimeStep(step) && StartedAfterDependencies(tasks)
    ensures StartedAfterDependencies(After(tasks, step, ignoreCase))
  {
    var after := After(tasks, step, ignoreCase);
    StepMoves(plan, tasks, step, ignoreCase);
    forall i, j | 0 <= i < |after| && 0 <= j < |after| && after[i].status != Pending
      && after[j].task.id in after[i].task.dependsOn && ClaimableKind(after[j].task.kind)
      ensures after[j].status == Completed
    {
      assert Moves(tasks, i, after[i], step, ignoreCase);
      assert tasks[i] in tasks && tasks[j] in tasks && tasks[j].task == plan[j] && tasks[i].task == plan[i];
      if tasks[i].status == Pending {
        assert DependenciesCompleted(tasks, tasks[i].task);
        CompletedIdIsUnique(plan, tasks, j);
      }
      CompletedStays(plan, tasks, step, ignoreCase, j);
    }
  }

  // ---- Theorems over runs ---------------------------------------------------

  lemma {:induction false} RunKeepsExclusion(plan: Plan, steps: seq<Step>, ignoreCase: bool)
    requires ValidPlan(plan)
    ensures var tasks := AfterAll(Initial(plan.tasks), steps, ignoreCase);
            SamePlan(plan.tasks, tasks) && ProperlyOwned(tasks) && Exclusive(tasks, ignoreCase)
  {
    if steps != [] {
      var init := steps[..|steps| - 1];
      RunKeepsExclusion(plan, init, ignoreCase);
      var tasks := AfterAll(Initial(plan.tasks), init, ignoreCase);
      StepMoves(plan.tasks, tasks, steps[|steps| - 1], ignoreCase);
      ExclusionKept(plan.tasks, tasks, steps[|steps| - 1], ignoreCase);
    }
  }

  // In every run, two tasks claimed by shared writers never govern a common path.
  lemma WritersNeverShareAPath(plan: Plan, steps: seq<Step>, ignoreCase: bool, i: nat, j: nat, path: string)
    requires ValidPlan(plan)
    ensures var tasks := AfterAll(Initial(plan.tasks), steps, ignoreCase);
            i < |tasks| && j < |tasks| && i != j && HoldsWriter(tasks[i]) && HoldsWriter(tasks[j])
            ==> !(Governs(tasks[i].task.writeScopes, path, ignoreCase)
                  && Governs(tasks[j].task.writeScopes, path, ignoreCase))
  {
    var tasks := AfterAll(Initial(plan.tasks), steps, ignoreCase);
    RunKeepsExclusion(plan, steps, ignoreCase);
    if i < |tasks| && j < |tasks| && i != j && HoldsWriter(tasks[i]) && HoldsWriter(tasks[j]) {
      ConflictSymmetric(tasks[i].task.writeScopes, tasks[j].task.writeScopes, ignoreCase);
      ConflictIsSharedPath(tasks[i].task.writeScopes, tasks[j].task.writeScopes, ignoreCase);
    }
  }

  lemma {:induction false} RunKeepsDependencyOrder(plan: Plan, steps: seq<Step>, ignoreCase: bool)
    requires ValidPlan(plan) && forall s :: s in steps ==> RuntimeStep(s)
    ensures var tasks := AfterAll(Initial(plan.tasks), steps, ignoreCase);
            SamePlan(plan.tasks, tasks) && StartedAfterDependencies(tasks)
  {
    if steps != [] {
      var init := steps[..|steps| - 1];
      RunKeepsDependencyOrder(plan, init, ignoreCase);
      var tasks := AfterAll(Initial(plan.tasks), init, ignoreCase);
      StepMoves(plan.tasks, tasks, steps[|steps| - 1], ignoreCase);
      DependencyOrderKept(plan.tasks, tasks, steps[|steps| - 1], ignoreCase);
    }
  }

  // Once a task of claimable kind is completed, no later step of any run undoes it.
  lemma {:induction false} CompletedForever(
    plan: Plan, steps: seq<Step>, more: seq<Step>, ignoreCase: bool, i: nat)
    requires ValidPlan(plan) && forall s :: s in steps + more ==> RuntimeStep(s)
    ensures var tasks := AfterAll(Initial(plan.tasks), steps, ignoreCase);
            var later := AfterAll(Initial(plan.tasks), steps + more, ignoreCase);
            i < |tasks| && ClaimableKind(tasks[i].task.kind) && tasks[i].status == Completed
            ==> i < |later| && later[i].status == Completed
  {
    if more == [] {
      assert steps + more == steps;
    } else {
      var init := more[..|more| - 1];
      assert (steps + more)[..|steps + more| - 1] == steps + init;
      CompletedForever(plan, steps, init, ignoreCase, i);
      RunKeepsExclusion(plan, steps, ignoreCase);
      RunKeepsExclusion(plan, steps + init, ignoreCase);
      var before := AfterAll(Initial(plan.tasks), steps + init, ignoreCase);
      var step := more[|more| - 1];
      assert step in steps + more;
      if i < |before| && before[i].status == Completed && ClaimableKind(before[i].task.kind) {
        CompletedStays(plan.tasks, before, step, ignoreCase, i);
      }
    }
  }

  // ---- Progress -------------------------------------------------------------

  predicate Waiting(tasks: seq<TaskRun>, r: TaskRun) {
    r in tasks && r.status == Pending && SystemKind(r.task.kind) && DependenciesCompleted(tasks, r.task)
  }

  // The first unfinished task of a topological order has all its dependencies completed.
  lemma {:induction false} FirstUnfinished(plan: seq<Task>, tasks: seq<TaskRun>, order: seq<string>, n: nat)
    returns (k: nat)
    requires SamePlan(plan, tasks) && TopologicalOrder(order, plan) && n <= |order|
    requires exists i :: 0 <= i < n && !CompletedId(tasks, order[i])
    ensures k < n && !CompletedId(tasks, order[k]) && forall d :: d in order[..k] ==> CompletedId(tasks, d)
  {
    k := 0;
    while CompletedId(tasks, order[k])
      invariant 0 <= k < n
      invariant exists i :: k <= i < n && !CompletedId(tasks, order[i])
      invariant forall d :: d in order[..k] ==> CompletedId(tasks, d)
      decreases n - k
    {
      assert order[..k + 1] == order[..k] + [order[k]];
      k := k + 1;
    }
  }

  // An idle, unfailed and unfinished execution can always go on.
  lemma Progress(plan: Plan, steps: seq<Step>, ignoreCase: bool)
    requires ValidPlan(plan)
    ensures var tasks := AfterAll(Initial(plan.tasks), steps, ignoreCase);
            Idle(tasks) && (exists r :: r in tasks && r.status != Completed)
            ==> exists r :: r in tasks && (Claimable(tasks, r, [], None, ignoreCase) || Waiting(tasks, r))
  {
    var tasks := AfterAll(Initial(plan.tasks), steps, ignoreCase);
    RunKeepsExclusion(plan, steps, ignoreCase);
    if Idle(tasks) && exists r :: r in tasks && r.status != Completed {
      var u :| 0 <= u < |tasks| && tasks[u].status != Completed;
      var i := NextTask(plan.tasks, tasks, u);
      assert Claimable(tasks, tasks[i], [], None, ignoreCase) || Waiting(tasks, tasks[i]);
    }
  }

  // Nothing is claimed and nothing has failed.
  predicate Idle(tasks: seq<TaskRun>) {
    forall r :: r in tasks ==> r.status == Pending || r.status == Completed
  }

  lemma NextTask(plan: seq<Task>, tasks: seq<TaskRun>, u: nat) returns (i: nat)
    requires UniqueIds(plan) && SamePlan(plan, tasks) && Acyclic(plan)
    requires u < |tasks| && tasks[u].status != Completed
    ensures i < |tasks| && tasks[i].status != Completed && DependenciesCompleted(tasks, tasks[i].task)
  {
    var order :| TopologicalOrder(order, plan);
    UnfinishedInOrder(plan, tasks, order, u);
    var k := FirstUnfinished(plan, tasks, order, |order|);
    assert order[k] in Elements(order);
    i :| 0 <= i < |plan| && plan[i].id == order[k];
    assert tasks[i] in tasks && tasks[i].task == plan[i];
    forall d | d in tasks[i].task.dependsOn ensures CompletedId(tasks, d) {
      assert DependsOn(plan, order[k], d);
    }
  }

  lemma UnfinishedInOrder(plan: seq<Task>, tasks: seq<TaskRun>, order: seq<string>, u: nat)
    requires UniqueIds(plan) && SamePlan(plan, tasks) && TopologicalOrder(order, plan)
    requires u < |tasks| && tasks[u].status != Completed
    ensures exists i :: 0 <= i < |order| && !CompletedId(tasks, order[i])
  {
    var id := tasks[u].task.id;
    assert plan[u].id in Ids(plan);
    assert id in Elements(order);
    if CompletedId(tasks, id) {
      CompletedIdIsUnique(plan, tasks, u);
    }
    var i :| 0 <= i < |order| && order[i] == id;
  }
}
