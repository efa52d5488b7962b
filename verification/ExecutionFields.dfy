// Updates of stored executions, said of the fields of files and snapshots alone.
module ExecutionFields {
  import opened Wrappers
  import opened Directory
  import opened Reconciliation
  import opened SnapshotNames
  import opened ExecutionStore
  import opened Sorting
  import Text

  // A plan id can stand in a file name.
  predicate FileName(id: string) {
    Text.Says(id) && |id| <= 160 && forall i :: 0 <= i < |id| ==> id[i] !in {'/', '\\'}
  }

  predicate ShortText(s: Option<string>, limit: nat) {
    s.Some? ==> Text.Says(s.value) && |s.value| <= limit
  }

  predicate TaskStorable(r: TaskRun) {
    && Text.Says(r.task.id) && ShortText(r.claimedBy, 256)
    && ShortText(r.summary, 2000) && ShortText(r.artifactDigest, 512)
  }

  predicate Storable(s: Snapshot) {
    && Text.Says(s.planId) && Text.Says(s.workspace) && |s.tasks| <= 256
    && forall i :: 0 <= i < |s.tasks| ==> TaskStorable(s.tasks[i])
  }

  predicate SomeNotBlank(s: Option<string>) {
    s.Some? ==> !Text.Blank(s.value)
  }

  lemma SaysSomething(s: Option<string>, limit: nat)
    ensures ShortText(s, limit) <==> SomeNotBlank(s) && (s.Some? ==> |s.value| <= limit)
  {
    if s.Some? {
      Text.SaysIsNotBlank(s.value);
    }
  }

  lemma TaskStorableExactly(r: TaskRun)
    ensures TaskStorable(r) <==>
              && !Text.Blank(r.task.id) && (r.claimedBy.Some? ==> ValidExecutor(r.claimedBy.value))
              && (r.summary.Some? ==> !Text.Blank(r.summary.value) && |r.summary.value| <= 2000)
              && (r.artifactDigest.Some? ==> !Text.Blank(r.artifactDigest.value) && |r.artifactDigest.value| <= 512)
  {
    Text.SaysIsNotBlank(r.task.id);
    SaysSomething(r.claimedBy, 256);
    SaysSomething(r.summary, 2000);
    SaysSomething(r.artifactDigest, 512);
  }

  lemma StorableExactly(s: Snapshot)
    ensures Storable(s) <==> s.Valid()
  {
    Text.SaysIsNotBlank(s.planId);
    Text.SaysIsNotBlank(s.workspace);
    forall i | 0 <= i < |s.tasks| {
      TaskStorableExactly(s.tasks[i]);
    }
    assert forall i :: 0 <= i < |s.tasks| ==> s.tasks[i] in s.tasks;
  }

  // ---- What a plan loads -------------------------------------------------------------------

  predicate Tells(f: File<Snapshot>, planId: string) {
    f.content.Some? && f.content.value.planId == planId
  }

  // The last readable file of the plan holds this snapshot.
  predicate LastOf(files: Files, planId: string, s: Snapshot) {
    exists k :: 0 <= k < |files| && Tells(files[k], planId) && files[k].content == Some(s)
                && forall j :: k < j < |files| ==> !Tells(files[j], planId)
  }

  predicate NoneOf(files: Files, planId: string) {
    forall k :: 0 <= k < |files| ==> !Tells(files[k], planId)
  }

  lemma NewestExactly(files: Files, planId: string, s: Snapshot)
    ensures Newest(files, planId) == Some(s) <==> LastOf(files, planId, s)
  {
    assert forall k :: 0 <= k < |files| ==> (Tells(files[k], planId) <==> Of(files[k], planId));
    var at := NewestIndex(files, planId);
    if at.Some? {
      assert Tells(files[at.value], planId) && files[at.value].content.Some?;
    }
  }

  lemma NoneExactly(files: Files, planId: string)
    ensures Newest(files, planId) == None <==> NoneOf(files, planId)
  {
    assert forall k :: 0 <= k < |files| ==> (Tells(files[k], planId) <==> Of(files[k], planId));
  }

  // ---- What an update answers ------------------------------------------------------------------

  // Every task of the plan, in its order, pending and untouched.
  predicate FirstState(plan: Plan, now: Text.Stamp, s: Snapshot) {
    && s.planId == plan.id && s.workspace == plan.workspace && s.createdAt == s.updatedAt == now
    && |s.tasks| == |plan.tasks|
    && forall i :: 0 <= i < |s.tasks| ==>
         && s.tasks[i].task == plan.tasks[i] && s.tasks[i].status == Pending && s.tasks[i].claimedBy == None
         && s.tasks[i].ownership == None && s.tasks[i].summary == None && s.tasks[i].artifactDigest == None
  }

  lemma FirstStateExactly(plan: Plan, now: Text.Stamp, s: Snapshot)
    ensures FirstState(plan, now, s) <==> s == FirstSnapshot(plan, now)
  {
    if FirstState(plan, now, s) {
      assert s.tasks == Initial(plan.tasks);
    }
  }

  // What is loaded, or else the first state of a plan that may be inserted.
  ghost predicate StartsFrom(files: Files, planId: string, first: Option<Plan>, now: Text.Stamp, s: Snapshot) {
    || LastOf(files, planId, s)
    || (NoneOf(files, planId) && first.Some? && ValidPlan(first.value) && FirstState(first.value, now, s))
  }

  // The mutation decides, and then the store.
  predicate Stores(mutated: Option<Snapshot>, size: Snapshot -> nat, r: Result<Snapshot, StoreError>) {
    match mutated
    case None => r == Failure(Rejected)
    case Some(next) =>
      r == if !Storable(next) then Failure(InvalidSnapshot)
           else if size(next) > 2097152 then Failure(TooLarge) else Success(next)
  }

  ghost predicate Answers(
    files: Files, planId: string, first: Option<Plan>, now: Text.Stamp, mutate: Snapshot -> Option<Snapshot>,
    size: Snapshot -> nat, r: Result<Snapshot, StoreError>)
  {
    if !FileName(planId) then r == Failure(InvalidPlanId)
    else if NoneOf(files, planId) && first.None? then r == Failure(Missing)
    else if NoneOf(files, planId) && !ValidPlan(first.value) then r == Failure(StoreError.InvalidPlan)
    else exists start :: StartsFrom(files, planId, first, now, start) && Stores(mutate(start), size, r)
  }

  lemma StartExactly(files: Files, planId: string, first: Option<Plan>, now: Text.Stamp, s: Snapshot)
    requires FileName(planId)
    ensures Start(files, planId, first, now) == Success(s) <==> StartsFrom(files, planId, first, now, s)
  {
    NewestExactly(files, planId, s);
    NoneExactly(files, planId);
    Text.SaysIsNotBlank(planId);
    if first.Some? {
      FirstStateExactly(first.value, now, s);
    }
  }

  lemma NoStart(files: Files, planId: string, first: Option<Plan>, now: Text.Stamp)
    requires FileName(planId) && Start(files, planId, first, now).Failure?
    ensures NoneOf(files, planId)
    ensures Start(files, planId, first, now).error == if first.None? then Missing else StoreError.InvalidPlan
    ensures first.Some? ==> !ValidPlan(first.value)
  {
    NoneExactly(files, planId);
    Text.SaysIsNotBlank(planId);
  }

  // The answer of an update, of a known plan or of one that may be inserted.
  lemma UpdateExactly(
    files: Files, planId: string, first: Option<Plan>, now: Text.Stamp, mutate: Snapshot -> Option<Snapshot>,
    size: Snapshot -> nat, r: Result<Snapshot, StoreError>)
    ensures r == Update(Start(files, planId, first, now), mutate, size) <==>
              Answers(files, planId, first, now, mutate, size, r)
  {
    Text.SaysIsNotBlank(planId);
    if FileName(planId) {
      var start := Start(files, planId, first, now);
      forall s ensures start == Success(s) <==> StartsFrom(files, planId, first, now, s) {
        StartExactly(files, planId, first, now, s);
      }
      if start.Failure? {
        NoStart(files, planId, first, now);
      } else {
        NoneExactly(files, planId);
        if mutate(start.value).Some? {
          StorableExactly(mutate(start.value).value);
        }
        assert StartsFrom(files, planId, first, now, start.value);
      }
    }
  }
}
