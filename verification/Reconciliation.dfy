// The reconciliation executor: a task graph whose tasks are claimed, submitted, retried
// and, for the system kinds, settled by evidence.
module Reconciliation {
  import opened Wrappers
  import opened Dependencies
  import opened Scopes
  import opened Sorting
  import Text

  datatype RunStatus = Pending | Claimed | Completed | Failed

  datatype ClaimMode = ReadOnly | SharedWriter

  datatype Ownership = Ownership(mode: ClaimMode, ownerBinding: Option<string>)

  datatype TaskRun = TaskRun(
    task: Task, status: RunStatus, claimedBy: Option<string>, ownership: Option<Ownership>,
    summary: Option<string>, artifactDigest: Option<string>)

  datatype Submission = Submission(success: bool, summary: string, artifactDigest: Option<string>)
  {
    predicate Valid() {
      !Text.Blank(summary) && |summary| <= 2000
      && (artifactDigest.Some? ==> !Text.Blank(artifactDigest.value) && |artifactDigest.value| <= 512)
    }
  }

  // Of the plan's other lists only the lengths are checked.
  datatype Plan = Plan(
    id: string, workspace: string, tasks: seq<Task>,
    changeIntents: nat, components: nat, symbols: nat, tests: nat, acceptance: nat)

  datatype Error =
    | InvalidPlan | InvalidExecution | InvalidExecutor | NoRunnableTask | UnknownTask | InvalidTaskState
    | InvalidSubmission

  // ---- Plan validation ------------------------------------------------------

  predicate ValidBounds(plan: Plan) {
    && !Text.Blank(plan.id) && !Text.Blank(plan.workspace)
    && |plan.tasks| <= 256 && plan.changeIntents <= 256 && plan.components <= 512
    && plan.symbols <= 2000 && plan.tests <= 2000 && plan.acceptance <= 2000
  }

  predicate ValidTask(task: Task, ids: set<string>) {
    && !Text.Blank(task.id) && !Text.Blank(task.subject) && !Text.Blank(task.description)
    && |task.writeScopes| <= 32 && (forall s :: s in task.writeScopes ==> ValidWriteScope(s))
    && Distinct(task.writeScopes)
    && (task.kind == Design || task.kind == Implementation || task.writeScopes == [])
    && |task.dependsOn| <= 64 && forall d :: d in task.dependsOn ==> d != task.id && d in ids
  }

  ghost predicate ValidPlan(plan: Plan) {
    ValidBounds(plan) && UniqueIds(plan.tasks)
    && (forall t :: t in plan.tasks ==> ValidTask(t, Ids(plan.tasks)))
    && Acyclic(plan.tasks)
  }

  method Validate(plan: Plan) returns (valid: bool)
    ensures valid <==> ValidPlan(plan)
  {
    if !ValidBounds(plan) { return false; }
    var ids := set t | t in plan.tasks :: t.id;
    IdCount(plan.tasks);
    if |ids| != |plan.tasks| { return false; }
    for i := 0 to |plan.tasks|
      invariant forall t :: t in plan.tasks[..i] ==> ValidTask(t, ids)
    {
      if !ValidTask(plan.tasks[i], ids) { return false; }
    }
    assert plan.tasks[..|plan.tasks|] == plan.tasks;
    var cyclic := HasDependencyCycle(plan.tasks);
    return !cyclic;
  }

  // ---- The steps on the task list ------------------------------------------

  predicate ClaimableKind(kind: TaskKind) {
    kind == Design || kind == Implementation || kind == Review
  }

  predicate CompletedId(tasks: seq<TaskRun>, id: string) {
    exists r :: r in tasks && r.task.id == id && r.status == Completed
  }

  predicate DependenciesCompleted(tasks: seq<TaskRun>, task: Task) {
    forall d :: d in task.dependsOn ==> CompletedId(tasks, d)
  }

  predicate HoldsWriter(r: TaskRun) {
    r.status == Claimed && r.ownership.Some? && r.ownership.value.mode == SharedWriter
  }

  // `kinds == []` asks for any kind; `ignoreCase` is the platform's path comparison.
  predicate Claimable(
    tasks: seq<TaskRun>, r: TaskRun, kinds: seq<TaskKind>, taskId: Option<string>, ignoreCase: bool)
  {
    && r.status == Pending && ClaimableKind(r.task.kind)
    && (kinds == [] || r.task.kind in kinds)
    && (taskId.Some? ==> r.task.id == taskId.value)
    && DependenciesCompleted(tasks, r.task)
    && (r.task.kind != Review ==>
          forall c :: c in tasks && HoldsWriter(c) ==>
            !WriteScopesConflict(c.task.writeScopes, r.task.writeScopes, ignoreCase))
  }

  // A claim repeated by the same owner of the same task is answered with the standing claim.
  predicate Resumes(r: TaskRun, executor: string, kinds: seq<TaskKind>, taskId: string, binding: string) {
    && r.task.id == taskId && r.status == Claimed && r.claimedBy == Some(executor)
    && (kinds == [] || r.task.kind in kinds)
    && r.ownership.Some? && r.ownership.value.ownerBinding == Some(binding)
  }

  function ClaimModeOf(kind: TaskKind): ClaimMode {
    if kind == Review then ReadOnly else SharedWriter
  }

  predicate ValidExecutor(executor: string) {
    !Text.Blank(executor) && |executor| <= 256
  }

  // A change to the task list: the new list, the task reported, and whether it counts as an update.
  datatype Change = Change(tasks: seq<TaskRun>, run: TaskRun, touched: bool)

  function IndexOf(tasks: seq<TaskRun>, id: string): Option<nat> {
    FirstIndex(tasks, (r: TaskRun) => r.task.id == id)
  }

  function Resumed(
    tasks: seq<TaskRun>, executor: string, kinds: seq<TaskKind>, taskId: Option<string>, binding: Option<string>)
    : (at: Option<nat>)
  {
    if taskId.None? || binding.None? then None
    else FirstIndex(tasks, (r: TaskRun) => Resumes(r, executor, kinds, taskId.value, binding.value))
  }

  function FirstClaimable(
    tasks: seq<TaskRun>, kinds: seq<TaskKind>, taskId: Option<string>, ignoreCase: bool): Option<nat>
  {
    FirstIndex(tasks, (r: TaskRun) => Claimable(tasks, r, kinds, taskId, ignoreCase))
  }

  function ClaimChange(
    tasks: seq<TaskRun>, executor: string, kinds: seq<TaskKind>, taskId: Option<string>,
    binding: Option<string>, ignoreCase: bool): Result<Change, Error>
  {
    if !ValidExecutor(executor) then Failure(InvalidExecutor)
    else if Resumed(tasks, executor, kinds, taskId, binding).Some? then
      Success(Change(tasks, tasks[Resumed(tasks, executor, kinds, taskId, binding).value], false))
    else match FirstClaimable(tasks, kinds, taskId, ignoreCase)
      case None => Failure(NoRunnableTask)
      case Some(k) =>
        match IndexOf(tasks, tasks[k].task.id)
        case None => Failure(NoRunnableTask)
        case Some(at) =>
          var run := tasks[at].(status := Claimed, claimedBy := Some(executor),
                                ownership := Some(Ownership(ClaimModeOf(tasks[at].task.kind), binding)));
          Success(Change(tasks[at := run], run, true))
  }

  function SubmitChange(
    tasks: seq<TaskRun>, taskId: string, executor: string, submission: Submission): Result<Change, Error>
  {
    if !submission.Valid() then Failure(InvalidSubmission)
    else match IndexOf(tasks, taskId)
      case None => Failure(UnknownTask)
      case Some(at) =>
        if tasks[at].status != Claimed || tasks[at].claimedBy != Some(executor) then Failure(InvalidTaskState)
        else
          var run := tasks[at].(status := if submission.success then Completed else Failed,
                                summary := Some(submission.summary), artifactDigest := submission.artifactDigest);
          Success(Change(tasks[at := run], run, true))
  }

  function RetryChange(tasks: seq<TaskRun>, taskId: string): Result<Change, Error> {
    match IndexOf(tasks, taskId)
    case None => Failure(UnknownTask)
    case Some(at) =>
      if tasks[at].status != Failed || !ClaimableKind(tasks[at].task.kind) then Failure(InvalidTaskState)
      else
        var run := TaskRun(tasks[at].task, Pending, None, None, None, None);
        Success(Change(tasks[at := run], run, true))
  }

  // A system task follows its evidence; it completes only after its dependencies.
  function SettledRun(tasks: seq<TaskRun>, r: TaskRun, kind: TaskKind, completed: bool, summary: string): TaskRun {
    var desired := if completed then Completed else Pending;
    if r.task.kind != kind || (completed && !DependenciesCompleted(tasks, r.task))
       || (r.status == desired && r.summary == Some(summary)) then r
    else r.(status := desired, claimedBy := None, ownership := None, summary := Some(summary))
  }

  function SystemTasks(tasks: seq<TaskRun>, kind: TaskKind, completed: bool, summary: string): (after: seq<TaskRun>)
    ensures |after| == |tasks|
  {
    seq(|tasks|, i requires 0 <= i < |tasks| => SettledRun(tasks, tasks[i], kind, completed, summary))
  }

  // Saturating addition, and the clock where it is ahead.
  function Touched(stamp: Text.Stamp, now: Text.Stamp): Text.Stamp {
    var next: Text.Stamp := if stamp < Text.MAX_STAMP then stamp + 1 else Text.MAX_STAMP;
    if now >= next then now else next
  }

  // Touching moves the stamp forward unless both it and the clock stand at the last one.
  lemma TouchedAdvances(stamp: Text.Stamp, now: Text.Stamp)
    ensures Touched(stamp, now) >= stamp && Touched(stamp, now) >= now
    ensures Touched(stamp, now) > stamp <==> stamp < Text.MAX_STAMP
  {
  }

  // ---- The execution object -------------------------------------------------

  class Execution {
    const planId: string
    const workspace: string
    const createdAt: Text.Stamp
    var tasks: seq<TaskRun>
    var updatedAt: Text.Stamp

    constructor (plan: Plan, now: Text.Stamp)
      ensures planId == plan.id && workspace == plan.workspace && createdAt == updatedAt == now
      ensures tasks == Initial(plan.tasks)
    {
      planId, workspace, createdAt, updatedAt := plan.id, plan.workspace, now, now;
      tasks := Initial(plan.tasks);
    }

    static method FromPlan(plan: Plan, now: Text.Stamp) returns (r: Result<Execution, Error>)
      ensures r.Success? <==> ValidPlan(plan)
      ensures r.Success? ==> fresh(r.value) && r.value.planId == plan.id && r.value.tasks == Initial(plan.tasks)
      ensures r.Success? ==> r.value.workspace == plan.workspace && r.value.createdAt == r.value.updatedAt == now
      ensures r.Failure? ==> r.error == InvalidPlan
    {
      var valid := Validate(plan);
      if !valid { return Failure(InvalidPlan); }
      var execution := new Execution(plan, now);
      return Success(execution);
    }

    method Touch(now: Text.Stamp)
      modifies `updatedAt
      ensures updatedAt == Touched(old(updatedAt), now)
    {
      var next: Text.Stamp := Text.MAX_STAMP;
      if updatedAt < Text.MAX_STAMP { next := updatedAt + 1; }
      updatedAt := next;
      if now >= next { updatedAt := now; }
    }

    // What a step leaves behind, given the change it decided on.
    ghost predicate Left(
      was: seq<TaskRun>, stamp: Text.Stamp, change: Result<Change, Error>, r: Result<TaskRun, Error>, now: Text.Stamp)
      reads this
    {
      match change
      case Failure(e) => r == Failure(e) && tasks == was && updatedAt == stamp
      case Success(c) =>
        r == Success(c.run) && tasks == c.tasks && updatedAt == if c.touched then Touched(stamp, now) else stamp
    }

    method FindResumed(executor: string, kinds: seq<TaskKind>, taskId: Option<string>, binding: Option<string>)
      returns (at: Option<nat>)
      ensures at == Resumed(tasks, executor, kinds, taskId, binding)
    {
      if taskId.None? || binding.None? { return None; }
      for i := 0 to |tasks|
        invariant forall j :: 0 <= j < i ==> !Resumes(tasks[j], executor, kinds, taskId.value, binding.value)
      {
        if Resumes(tasks[i], executor, kinds, taskId.value, binding.value) { return Some(i); }
      }
      return None;
    }

    method FindClaimable(kinds: seq<TaskKind>, taskId: Option<string>, ignoreCase: bool) returns (at: Option<nat>)
      ensures at == FirstClaimable(tasks, kinds, taskId, ignoreCase)
    {
      for i := 0 to |tasks|
        invariant forall j :: 0 <= j < i ==> !Claimable(tasks, tasks[j], kinds, taskId, ignoreCase)
      {
        if Claimable(tasks, tasks[i], kinds, taskId, ignoreCase) { return Some(i); }
      }
      return None;
    }

    method Claim(
      executor: string, kinds: seq<TaskKind>, taskId: Option<string>, binding: Option<string>,
      ignoreCase: bool, now: Text.Stamp) returns (r: Result<TaskRun, Error>)
      modifies `tasks, `updatedAt
      ensures var change := ClaimChange(old(tasks), executor, kinds, taskId, binding, ignoreCase);
              Left(old(tasks), old(updatedAt), change, r, now)
    {
      if !ValidExecutor(executor) { return Failure(InvalidExecutor); }
      var standing := FindResumed(executor, kinds, taskId, binding);
      if standing.Some? { return Success(tasks[standing.value]); }
      var k := FindClaimable(kinds, taskId, ignoreCase);
      if k.None? { return Failure(NoRunnableTask); }
      var found := Find(tasks[k.value].task.id);
      if found.None? { return Failure(NoRunnableTask); }
      var at := found.value;
      var run := tasks[at];
      run := run.(status := Claimed);
      run := run.(claimedBy := Some(executor));
      run := run.(ownership := Some(Ownership(ClaimModeOf(run.task.kind), binding)));
      tasks := tasks[at := run];
      Touch(now);
      return Success(run);
    }

    method Find(taskId: string) returns (at: Option<nat>)
      ensures at == IndexOf(tasks, taskId)
    {
      for i := 0 to |tasks|
        invariant forall j :: 0 <= j < i ==> tasks[j].task.id != taskId
      {
        if tasks[i].task.id == taskId { return Some(i); }
      }
      return None;
    }

    method Submit(taskId: string, executor: string, submission: Submission, now: Text.Stamp)
      returns (r: Result<TaskRun, Error>)
      modifies `tasks, `updatedAt
      ensures Left(old(tasks), old(updatedAt), SubmitChange(old(tasks), taskId, executor, submission), r, now)
    {
      if !submission.Valid() { return Failure(InvalidSubmission); }
      var at := Find(taskId);
      if at.None? { return Failure(UnknownTask); }
      var run := tasks[at.value];
      if run.status != Claimed || run.claimedBy != Some(executor) { return Failure(InvalidTaskState); }
      run := run.(status := if submission.success then Completed else Failed);
      run := run.(summary := Some(submission.summary));
      run := run.(artifactDigest := submission.artifactDigest);
      tasks := tasks[at.value := run];
      Touch(now);
      return Success(run);
    }

    method Retry(taskId: string, now: Text.Stamp) returns (r: Result<TaskRun, Error>)
      modifies `tasks, `updatedAt
      ensures Left(old(tasks), old(updatedAt), RetryChange(old(tasks), taskId), r, now)
    {
      var at := Find(taskId);
      if at.None? { return Failure(UnknownTask); }
      var run := tasks[at.value];
      if run.status != Failed || !ClaimableKind(run.task.kind) { return Failure(InvalidTaskState); }
      run := run.(status := Pending, claimedBy := None, ownership := None, summary := None, artifactDigest := None);
      tasks := tasks[at.value := run];
      Touch(now);
      return Success(run);
    }

    method SetSystemTask(kind: TaskKind, completed: bool, summary: string, now: Text.Stamp) returns (changed: bool)
      modifies `tasks, `updatedAt
      ensures tasks == SystemTasks(old(tasks), kind, completed, summary)
      ensures changed <==> tasks != old(tasks)
      ensures updatedAt == if changed then Touched(old(updatedAt), now) else old(updatedAt)
    {
      var completedIds := set r | r in tasks && r.status == Completed :: r.task.id;
      ghost var was := tasks;
      assert forall id :: id in completedIds <==> CompletedId(was, id);
      changed := false;
      for i := 0 to |tasks|
        invariant |tasks| == |was| && updatedAt == old(updatedAt)
        invariant forall j :: 0 <= j < i ==> tasks[j] == SettledRun(was, was[j], kind, completed, summary)
        invariant forall j :: i <= j < |tasks| ==> tasks[j] == was[j]
        invariant changed <==> exists j :: 0 <= j < i && tasks[j] != was[j]
      {
        var run := tasks[i];
        if run.task.kind != kind { continue; }
        var dependenciesCompleted := forall d :: d in run.task.dependsOn ==> d in completedIds;
        if completed && !dependenciesCompleted { continue; }
        var desired := if completed then Completed else Pending;
        if run.status != desired || run.summary != Some(summary) {
          run := run.(status := desired, claimedBy := None, ownership := None, summary := Some(summary));
          tasks := tasks[i := run];
          changed := true;
        }
      }
      if changed { Touch(now); }
    }
  }

  function Initial(tasks: seq<Task>): (runs: seq<TaskRun>)
    ensures |runs| == |tasks|
  {
    seq(|tasks|, i requires 0 <= i < |tasks| => TaskRun(tasks[i], Pending, None, None, None, None))
  }
}
