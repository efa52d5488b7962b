// Plans and claims, said of the fields of the tasks alone: status, kind, owner, dependencies and
// the paths a task governs.
module ReconciliationFields {
  import opened Wrappers
  import opened Dependencies
  import opened Scopes
  import opened Sorting
  import opened Reconciliation
  import opened ReconciliationRuns
  import Text

  // ---- Exclusion --------------------------------------------------------------------------

  const WRITING_KINDS: set<TaskKind> := {Design, Implementation}
  const CLAIMABLE_KINDS: set<TaskKind> := {Design, Implementation, TaskKind.Review}

  predicate Writes(r: TaskRun) {
    r.status == Claimed && r.task.kind in WRITING_KINDS
  }

  lemma WritersHoldClaims(tasks: seq<TaskRun>, i: nat)
    requires ProperlyOwned(tasks) && i < |tasks|
    ensures Writes(tasks[i]) <==> HoldsWriter(tasks[i])
  {
    assert tasks[i] in tasks;
  }

  // In every run from a valid plan, no path is governed by two claimed tasks that design or
  // implement.
  lemma ClaimedNeverShareAPath(plan: Plan, steps: seq<Step>, ignoreCase: bool, i: nat, j: nat, path: string)
    requires ValidPlan(plan)
    ensures var tasks := AfterAll(Initial(plan.tasks), steps, ignoreCase);
            i < |tasks| && j < |tasks| && i != j && Writes(tasks[i]) && Writes(tasks[j])
            ==> !(Governs(tasks[i].task.writeScopes, path, ignoreCase)
                  && Governs(tasks[j].task.writeScopes, path, ignoreCase))
  {
    var tasks := AfterAll(Initial(plan.tasks), steps, ignoreCase);
    RunKeepsExclusion(plan, steps, ignoreCase);
    if i < |tasks| && j < |tasks| {
      WritersHoldClaims(tasks, i);
      WritersHoldClaims(tasks, j);
      WritersNeverShareAPath(plan, steps, ignoreCase, i, j, path);
    }
  }

  // ---- Claims -----------------------------------------------------------------------------

  // What is asked for: any of the kinds, or every kind, and possibly one task by its id.
  datatype Wish = Wish(executor: string, kinds: seq<TaskKind>, taskId: Option<string>, binding: Option<string>)

  predicate Wanted(r: TaskRun, w: Wish) {
    (w.kinds == [] || r.task.kind in w.kinds) && (w.taskId.None? || w.taskId == Some(r.task.id))
  }

  // The same executor holds this very task under the same binding.
  predicate Held(r: TaskRun, w: Wish) {
    && w.taskId.Some? && w.binding.Some? && Wanted(r, w)
    && r.status == Claimed && r.claimedBy == Some(w.executor)
    && r.ownership.Some? && r.ownership.value.ownerBinding == w.binding
  }

  // Pending, with all it depends on completed, and sharing no path with a claimed writer unless it
  // only reviews.
  ghost predicate Free(tasks: seq<TaskRun>, i: nat, w: Wish, ignoreCase: bool)
    requires i < |tasks|
  {
    var r := tasks[i];
    && r.status == Pending && r.task.kind in CLAIMABLE_KINDS && Wanted(r, w)
    && (forall d :: d in r.task.dependsOn ==>
          exists j :: 0 <= j < |tasks| && tasks[j].task.id == d && tasks[j].status == Completed)
    && (r.task.kind == TaskKind.Review || forall j, path ::
          0 <= j < |tasks| && Writes(tasks[j]) && Governs(tasks[j].task.writeScopes, path, ignoreCase)
          ==> !Governs(r.task.writeScopes, path, ignoreCase))
  }

  function Taken(r: TaskRun, w: Wish): TaskRun {
    TaskRun(r.task, Claimed, Some(w.executor),
            Some(Ownership(if r.task.kind == TaskKind.Review then ReadOnly else SharedWriter, w.binding)),
            r.summary, r.artifactDigest)
  }

  function ClaimOf(tasks: seq<TaskRun>, w: Wish, ignoreCase: bool): Result<Change, Error> {
    ClaimChange(tasks, w.executor, w.kinds, w.taskId, w.binding, ignoreCase)
  }

  lemma HeldExactly(tasks: seq<TaskRun>, w: Wish, i: nat)
    requires i < |tasks| && w.taskId.Some? && w.binding.Some?
    ensures Held(tasks[i], w) <==> Resumes(tasks[i], w.executor, w.kinds, w.taskId.value, w.binding.value)
  {
  }

  lemma DependenciesExactly(tasks: seq<TaskRun>, t: Task)
    ensures DependenciesCompleted(tasks, t) <==>
              forall d :: d in t.dependsOn ==>
                exists j :: 0 <= j < |tasks| && tasks[j].task.id == d && tasks[j].status == Completed
  {
    forall d ensures CompletedId(tasks, d) <==>
                       exists j :: 0 <= j < |tasks| && tasks[j].task.id == d && tasks[j].status == Completed
    {
      if CompletedId(tasks, d) {
        var r :| r in tasks && r.task.id == d && r.status == Completed;
        var j :| 0 <= j < |tasks| && tasks[j] == r;
      }
      if j :| 0 <= j < |tasks| && tasks[j].task.id == d && tasks[j].status == Completed {
        assert tasks[j] in tasks;
      }
    }
  }

  ghost predicate SharesNoPath(tasks: seq<TaskRun>, scopes: seq<string>, ignoreCase: bool) {
    forall j, path :: 0 <= j < |tasks| && Writes(tasks[j]) && Governs(tasks[j].task.writeScopes, path, ignoreCase)
      ==> !Governs(scopes, path, ignoreCase)
  }

  lemma SharesExactly(tasks: seq<TaskRun>, scopes: seq<string>, ignoreCase: bool)
    requires ProperlyOwned(tasks)
    ensures SharesNoPath(tasks, scopes, ignoreCase) <==>
              forall c :: c in tasks && HoldsWriter(c) ==> !WriteScopesConflict(c.task.writeScopes, scopes, ignoreCase)
  {
    forall j | 0 <= j < |tasks|
      ensures Writes(tasks[j]) <==> HoldsWriter(tasks[j])
      ensures WriteScopesConflict(tasks[j].task.writeScopes, scopes, ignoreCase) <==>
                exists path :: Governs(tasks[j].task.writeScopes, path, ignoreCase) && Governs(scopes, path, ignoreCase)
    {
      WritersHoldClaims(tasks, j);
      ConflictIsSharedPath(tasks[j].task.writeScopes, scopes, ignoreCase);
    }
    if SharesNoPath(tasks, scopes, ignoreCase) {
      forall c | c in tasks && HoldsWriter(c) ensures !WriteScopesConflict(c.task.writeScopes, scopes, ignoreCase) {
        var j :| 0 <= j < |tasks| && tasks[j] == c;
      }
    } else {
      var j, path :| 0 <= j < |tasks| && Writes(tasks[j])
                     && Governs(tasks[j].task.writeScopes, path, ignoreCase) && Governs(scopes, path, ignoreCase);
      assert tasks[j] in tasks;
    }
  }

  lemma FreeExactly(tasks: seq<TaskRun>, i: nat, w: Wish, ignoreCase: bool)
    requires ProperlyOwned(tasks) && i < |tasks|
    ensures Free(tasks, i, w, ignoreCase) <==> Claimable(tasks, tasks[i], w.kinds, w.taskId, ignoreCase)
  {
    DependenciesExactly(tasks, tasks[i].task);
    SharesExactly(tasks, tasks[i].task.writeScopes, ignoreCase);
    assert SharesNoPath(tasks, tasks[i].task.writeScopes, ignoreCase) <==>
             forall j, path ::
               0 <= j < |tasks| && Writes(tasks[j]) && Governs(tasks[j].task.writeScopes, path, ignoreCase)
               ==> !Governs(tasks[i].task.writeScopes, path, ignoreCase);
  }

  // The task an answer is about: the first the executor holds already.
  predicate FirstHeld(tasks: seq<TaskRun>, w: Wish, i: nat) {
    i < |tasks| && Held(tasks[i], w) && forall j :: 0 <= j < i ==> !Held(tasks[j], w)
  }

  predicate NoneHeld(tasks: seq<TaskRun>, w: Wish) {
    forall j :: 0 <= j < |tasks| ==> !Held(tasks[j], w)
  }

  lemma ResumedExactly(tasks: seq<TaskRun>, w: Wish)
    ensures NoneHeld(tasks, w) <==> Resumed(tasks, w.executor, w.kinds, w.taskId, w.binding).None?
    ensures forall i: nat :: FirstHeld(tasks, w, i) ==>
              Resumed(tasks, w.executor, w.kinds, w.taskId, w.binding) == Some(i)
  {
    if w.taskId.Some? && w.binding.Some? {
      forall i | 0 <= i < |tasks|
        ensures Held(tasks[i], w) <==> Resumes(tasks[i], w.executor, w.kinds, w.taskId.value, w.binding.value)
      {
        HeldExactly(tasks, w, i);
      }
    }
  }

  ghost predicate FirstFree(tasks: seq<TaskRun>, w: Wish, ignoreCase: bool, i: nat) {
    i < |tasks| && Free(tasks, i, w, ignoreCase) && forall j :: 0 <= j < i ==> !Free(tasks, j, w, ignoreCase)
  }

  ghost predicate NoneFree(tasks: seq<TaskRun>, w: Wish, ignoreCase: bool) {
    forall j :: 0 <= j < |tasks| ==> !Free(tasks, j, w, ignoreCase)
  }

  lemma FirstFreeExactly(tasks: seq<TaskRun>, w: Wish, ignoreCase: bool)
    requires ProperlyOwned(tasks)
    ensures NoneFree(tasks, w, ignoreCase) <==> FirstClaimable(tasks, w.kinds, w.taskId, ignoreCase).None?
    ensures forall i: nat :: FirstFree(tasks, w, ignoreCase, i) ==>
              FirstClaimable(tasks, w.kinds, w.taskId, ignoreCase) == Some(i)
  {
    forall i | 0 <= i < |tasks|
      ensures Free(tasks, i, w, ignoreCase) <==> Claimable(tasks, tasks[i], w.kinds, w.taskId, ignoreCase)
    {
      FreeExactly(tasks, i, w, ignoreCase);
    }
  }

  // A claim is refused to an executor without a proper name; it is answered with the first task
  // the executor holds already; else it takes the first free task, and nothing about any other
  // task changes; and it fails exactly if none is free.
  ghost predicate ClaimAnswered(tasks: seq<TaskRun>, w: Wish, ignoreCase: bool, answer: Result<Change, Error>) {
    if !Text.Says(w.executor) || |w.executor| > 256 then answer == Failure(InvalidExecutor)
    else if !NoneHeld(tasks, w) then
      exists i: nat :: FirstHeld(tasks, w, i) && answer == Success(Change(tasks, tasks[i], false))
    else if NoneFree(tasks, w, ignoreCase) then answer == Failure(NoRunnableTask)
    else exists i: nat :: FirstFree(tasks, w, ignoreCase, i)
                          && answer == Success(Change(tasks[i := Taken(tasks[i], w)], Taken(tasks[i], w), true))
  }

  lemma AnsweredByFields(plan: seq<Task>, tasks: seq<TaskRun>, ignoreCase: bool, w: Wish)
    requires UniqueIds(plan) && SamePlan(plan, tasks) && ProperlyOwned(tasks)
    ensures ClaimAnswered(tasks, w, ignoreCase, ClaimOf(tasks, w, ignoreCase))
  {
    Text.SaysIsNotBlank(w.executor);
    ResumedExactly(tasks, w);
    FirstFreeExactly(tasks, w, ignoreCase);
    if Text.Says(w.executor) && |w.executor| <= 256 {
      if !NoneHeld(tasks, w) {
        var i := LeastHeld(tasks, w);
      } else if !NoneFree(tasks, w, ignoreCase) {
        var i := LeastFree(tasks, w, ignoreCase);
        OwnIndex(plan, tasks, i);
      }
    }
  }

  lemma LeastHeld(tasks: seq<TaskRun>, w: Wish) returns (i: nat)
    requires !NoneHeld(tasks, w)
    ensures FirstHeld(tasks, w, i)
  {
    i := FirstIndex(tasks, (r: TaskRun) => Held(r, w)).value;
  }

  lemma LeastFree(tasks: seq<TaskRun>, w: Wish, ignoreCase: bool) returns (i: nat)
    requires ProperlyOwned(tasks) && !NoneFree(tasks, w, ignoreCase)
    ensures FirstFree(tasks, w, ignoreCase, i)
  {
    FirstFreeExactly(tasks, w, ignoreCase);
    i := FirstClaimable(tasks, w.kinds, w.taskId, ignoreCase).value;
    forall j | 0 <= j <= i
      ensures Free(tasks, j, w, ignoreCase) <==> Claimable(tasks, tasks[j], w.kinds, w.taskId, ignoreCase)
    {
      FreeExactly(tasks, j, w, ignoreCase);
    }
  }

  // Every claim on every state of every run from a valid plan is answered so.
  lemma ClaimExactly(plan: Plan, steps: seq<Step>, ignoreCase: bool, w: Wish)
    requires ValidPlan(plan)
    ensures var tasks := AfterAll(Initial(plan.tasks), steps, ignoreCase);
            ClaimAnswered(tasks, w, ignoreCase, ClaimOf(tasks, w, ignoreCase))
  {
    RunKeepsExclusion(plan, steps, ignoreCase);
    AnsweredByFields(plan.tasks, AfterAll(Initial(plan.tasks), steps, ignoreCase), ignoreCase, w);
  }

  // ---- Submissions and retries ------------------------------------------------------------------

  predicate Tells(s: Submission) {
    && Text.Says(s.summary) && |s.summary| <= 2000
    && (s.artifactDigest.None? || (Text.Says(s.artifactDigest.value) && |s.artifactDigest.value| <= 512))
  }

  // A submission changes exactly the task of that id, if its owner still holds it.
  lemma SubmitExactly(plan: Plan, steps: seq<Step>, ignoreCase: bool, i: nat, executor: string, s: Submission)
    requires ValidPlan(plan)
    ensures var tasks := AfterAll(Initial(plan.tasks), steps, ignoreCase);
            i < |tasks| ==>
              var r := tasks[i];
              var after := TaskRun(r.task, if s.success then Completed else Failed, r.claimedBy, r.ownership,
                                   Some(s.summary), s.artifactDigest);
              SubmitChange(tasks, r.task.id, executor, s) ==
                if !Tells(s) then Failure(InvalidSubmission)
                else if r.status == Claimed && r.claimedBy == Some(executor) then
                  Success(Change(tasks[i := after], after, true))
                else Failure(InvalidTaskState)
  {
    var tasks := AfterAll(Initial(plan.tasks), steps, ignoreCase);
    RunKeepsExclusion(plan, steps, ignoreCase);
    Text.SaysIsNotBlank(s.summary);
    if s.artifactDigest.Some? {
      Text.SaysIsNotBlank(s.artifactDigest.value);
    }
    if i < |tasks| {
      OwnIndex(plan.tasks, tasks, i);
    }
  }

  // A retry takes a failed task of claimable kind back to where it began.
  lemma RetryExactly(plan: Plan, steps: seq<Step>, ignoreCase: bool, i: nat)
    requires ValidPlan(plan)
    ensures var tasks := AfterAll(Initial(plan.tasks), steps, ignoreCase);
            i < |tasks| ==>
              RetryChange(tasks, tasks[i].task.id) ==
                if tasks[i].status == Failed && tasks[i].task.kind in CLAIMABLE_KINDS then
                  var again := TaskRun(tasks[i].task, Pending, None, None, None, None);
                  Success(Change(tasks[i := again], again, true))
                else Failure(InvalidTaskState)
  {
    var tasks := AfterAll(Initial(plan.tasks), steps, ignoreCase);
    RunKeepsExclusion(plan, steps, ignoreCase);
    if i < |tasks| {
      OwnIndex(plan.tasks, tasks, i);
    }
  }

  // ---- Plans ------------------------------------------------------------------------------------

  // A relative path of proper components.
  predicate RelativePath(s: string) {
    && Text.Says(s) && |s| <= 300
    && (forall i :: 0 <= i < |s| ==> s[i] !in {'\\', '\0', '\n', '\r', ':'})
    && (forall i :: 0 <= i < |Components(s, false)| ==> Components(s, false)[i] !in {"", ".", ".."})
  }

  predicate SomePart(parts: seq<string>, x: char) {
    exists i :: 0 <= i < |parts| && x in parts[i]
  }

  lemma PrefixedHolds(c: char, rest: seq<string>, sep: char, x: char)
    requires |rest| >= 1 && x != sep
    ensures SomePart(Text.Prefixed(c, rest, sep), x) <==> x == c || SomePart(rest, x)
  {
    var parts := Text.Prefixed(c, rest, sep);
    if i :| 0 <= i < |rest| && x in rest[i] {
      assert if c == sep then x in parts[i + 1] else x in parts[i];
    }
    if x == c {
      assert x in parts[0];
    }
    if i :| 0 <= i < |parts| && x in parts[i] {
      assert if c == sep then i > 0 && x in rest[i - 1] else x == c || x in rest[i];
    }
  }

  lemma {:induction false} SplitHolds(s: string, sep: char, x: char)
    requires x != sep
    ensures x in s <==> SomePart(Text.Split(s, sep), x)
  {
    if s != [] {
      SplitHolds(s[1..], sep, x);
      PrefixedHolds(s[0], Text.Split(s[1..], sep), sep, x);
      assert s == [s[0]] + s[1..];
    }
  }

  lemma ScopeExactly(s: string)
    ensures ValidWriteScope(s) <==> RelativePath(s)
  {
    Text.SaysIsNotBlank(s);
    SplitHolds(s, '/', ':');
    var parts := Text.Split(s, '/');
    assert Components(s, false) == parts;
    assert forall i :: 0 <= i < |parts| ==> parts[i] in parts;
    assert forall x :: x in s <==> exists i :: 0 <= i < |s| && s[i] == x;
    if s != "" && s[0] == '/' {
      assert parts == Text.Prefixed(s[0], Text.Split(s[1..], '/'), '/');
      assert parts[0] == "";
    }
  }

  ghost predicate TaskInOrder(tasks: seq<Task>, i: nat)
    requires i < |tasks|
  {
    var t := tasks[i];
    && Text.Says(t.id) && Text.Says(t.subject) && Text.Says(t.description)
    && |t.writeScopes| <= 32 && |t.dependsOn| <= 64
    && (forall j :: 0 <= j < |t.writeScopes| ==> RelativePath(t.writeScopes[j]))
    && (forall j, k :: 0 <= j < k < |t.writeScopes| ==> t.writeScopes[j] != t.writeScopes[k])
    && (t.writeScopes == [] || t.kind in WRITING_KINDS)
    && (forall d :: d in t.dependsOn ==> d != t.id && exists j :: 0 <= j < |tasks| && tasks[j].id == d)
  }

  lemma TaskExactly(tasks: seq<Task>, i: nat)
    requires i < |tasks|
    ensures ValidTask(tasks[i], Ids(tasks)) <==> TaskInOrder(tasks, i)
  {
    var t := tasks[i];
    Text.SaysIsNotBlank(t.id);
    Text.SaysIsNotBlank(t.subject);
    Text.SaysIsNotBlank(t.description);
    forall s ensures ValidWriteScope(s) <==> RelativePath(s) {
      ScopeExactly(s);
    }
    assert forall j :: 0 <= j < |t.writeScopes| ==> t.writeScopes[j] in t.writeScopes;
    forall d ensures d in Ids(tasks) <==> exists j :: 0 <= j < |tasks| && tasks[j].id == d {
      if d in Ids(tasks) {
        var u :| u in tasks && u.id == d;
        var j :| 0 <= j < |tasks| && tasks[j] == u;
      }
      if j :| 0 <= j < |tasks| && tasks[j].id == d {
        assert tasks[j] in tasks;
      }
    }
  }

  // A plan is accepted exactly if it is named, within its bounds, of tasks that are in order,
  // apart and free of cycles.
  lemma PlanExactly(plan: Plan)
    ensures ValidPlan(plan) <==>
              && Text.Says(plan.id) && Text.Says(plan.workspace)
              && |plan.tasks| <= 256 && plan.changeIntents <= 256 && plan.components <= 512
              && plan.symbols <= 2000 && plan.tests <= 2000 && plan.acceptance <= 2000
              && (forall i, j :: 0 <= i < j < |plan.tasks| ==> plan.tasks[i].id != plan.tasks[j].id)
              && (forall i :: 0 <= i < |plan.tasks| ==> TaskInOrder(plan.tasks, i))
              && Acyclic(plan.tasks)
  {
    Text.SaysIsNotBlank(plan.id);
    Text.SaysIsNotBlank(plan.workspace);
    forall i | 0 <= i < |plan.tasks| ensures ValidTask(plan.tasks[i], Ids(plan.tasks)) <==> TaskInOrder(plan.tasks, i) {
      TaskExactly(plan.tasks, i);
    }
    assert forall i :: 0 <= i < |plan.tasks| ==> plan.tasks[i] in plan.tasks;
  }
}
