// Runs of the execution store: which committed state each plan loads after any run of
// transactions, and that the steps of the executor are transactions.
module ExecutionRuns {
  import opened Wrappers
  import opened Directory
  import opened Reconciliation
  import opened ReconciliationRuns
  import opened SnapshotNames
  import opened ExecutionStore
  import opened Sorting
  import Text

  // ---- Runs of commits --------------------------------------------------------

  function PersistedAll(files: Files, commits: seq<Snapshot>, names: Snapshot -> string): Files {
    if commits == [] then files
    else Persisted(PersistedAll(files, commits[..|commits| - 1], names), commits[|commits| - 1], names)
  }

  ghost predicate Transactions(files: Files, commits: seq<Snapshot>, names: Snapshot -> string) {
    forall i :: 0 <= i < |commits| ==> Transaction(PersistedAll(files, commits[..i], names), commits[i])
  }

  function LastCommit(commits: seq<Snapshot>, planId: string): Option<Snapshot> {
    if commits == [] then None
    else if commits[|commits| - 1].planId == planId then Some(commits[|commits| - 1])
    else LastCommit(commits[..|commits| - 1], planId)
  }

  // All names ever written.
  function Written(commits: seq<Snapshot>, names: Snapshot -> string): set<string> {
    set s | s in commits :: names(s)
  }

  lemma WrittenStep(commits: seq<Snapshot>, names: Snapshot -> string)
    requires commits != []
    ensures Written(commits, names) ==
              Written(commits[..|commits| - 1], names) + {names(commits[|commits| - 1])}
  {
    assert commits == commits[..|commits| - 1] + [commits[|commits| - 1]];
  }

  lemma TransactionsPrefix(commits: seq<Snapshot>, names: Snapshot -> string, i: nat)
    requires Transactions([], commits, names) && i <= |commits|
    ensures Transactions([], commits[..i], names)
    ensures i < |commits| ==> Transaction(PersistedAll([], commits[..i], names), commits[i])
  {
    forall j | 0 <= j < i ensures Transaction(PersistedAll([], commits[..i][..j], names), commits[..i][j]) {
      assert commits[..i][..j] == commits[..j];
    }
  }

  // ---- What is retained ---------------------------------------------------------

  // The files that remain are those with the last 1024 of all names written.
  lemma StepRetains(files: Files, s: Snapshot, names: Snapshot -> string, written: set<string>)
    requires Listing(files) && NamesOf(files) == Last(written, MAX_SNAPSHOTS)
    ensures NamesOf(Persisted(files, s, names)) == Last(written + {names(s)}, MAX_SNAPSHOTS)
  {
    var name := names(s);
    if Named(files, name).Some? {
      assert files[Named(files, name).value].name in NamesOf(files);
      assert written + {name} == written;
    } else {
      var added := Add(files, File(name, Some(s)));
      AddSorted(files, File(name, Some(s)));
      AddNames(files, File(name, Some(s)));
      PruneRetains(added);
      LastOfLast(written, name, MAX_SNAPSHOTS);
    }
  }

  lemma PruneRetains(files: Files)
    requires Listing(files)
    ensures NamesOf(PruneOldest(files)) == Last(NamesOf(files), MAX_SNAPSHOTS)
  {
    if |files| > MAX_SNAPSHOTS {
      LastOfListing(files, |files| - MAX_SNAPSHOTS);
    } else {
      forall i | 0 <= i < |files| ensures files[i].name in Last(NamesOf(files), MAX_SNAPSHOTS) {
        InLast(files, i, MAX_SNAPSHOTS);
      }
    }
  }

  // ---- What a plan loads --------------------------------------------------------------

  ghost predicate Register(
    files: Files, commits: seq<Snapshot>, names: Snapshot -> string)
  {
    WellWritten(files, names) && |files| <= MAX_SNAPSHOTS
    && NamesOf(files) == Last(Written(commits, names), MAX_SNAPSHOTS)
  }

  ghost predicate LoadsLast(files: Files, commits: seq<Snapshot>, planId: string) {
    Newest(files, planId) in {LastCommit(commits, planId), None}
  }

  lemma {:induction false} RunRegisters(commits: seq<Snapshot>, names: Snapshot -> string)
    requires SortsByStamp(names) && Transactions([], commits, names)
    ensures Register(PersistedAll([], commits, names), commits, names)
  {
    if commits == [] {
    } else {
      var n := |commits| - 1;
      var files := PersistedAll([], commits[..n], names);
      TransactionsPrefix(commits, names, n);
      RunRegisters(commits[..n], names);
      PersistKeepsWellWritten(files, commits[n], names);
      StepRetains(files, commits[n], names, Written(commits[..n], names));
      WrittenStep(commits, names);
    }
  }

  lemma {:induction false} RunLoadsLast(commits: seq<Snapshot>, names: Snapshot -> string, planId: string)
    requires SortsByStamp(names) && Transactions([], commits, names)
    ensures LoadsLast(PersistedAll([], commits, names), commits, planId)
  {
    if commits == [] {
    } else {
      var n := |commits| - 1;
      TransactionsPrefix(commits, names, n);
      RunRegisters(commits[..n], names);
      RunLoadsLast(commits[..n], names, planId);
      RegisterStep(PersistedAll([], commits[..n], names), commits[n], names, planId);
    }
  }

  lemma {:induction false} LastCommitted(commits: seq<Snapshot>, planId: string)
    requires LastCommit(commits, planId).Some?
    ensures LastCommit(commits, planId).value in commits && LastCommit(commits, planId).value.planId == planId
  {
    if commits[|commits| - 1].planId != planId {
      LastCommitted(commits[..|commits| - 1], planId);
    }
  }

  // A plan loads its last commit exactly while that commit's file is retained.
  lemma RetainedIsLoaded(files: Files, names: Snapshot -> string, last: Snapshot)
    requires WellWritten(files, names) && SortsByStamp(names) && last.planId != ""
    requires Newest(files, last.planId) in {Some(last), None}
    ensures Newest(files, last.planId) == if names(last) in NamesOf(files) then Some(last) else None
  {
    if Newest(files, last.planId) == Some(last) {
      var k := NewestIndex(files, last.planId).value;
      assert files[k] in files && files[k].name in NamesOf(files);
    }
    if names(last) in NamesOf(files) {
      var i :| 0 <= i < |files| && files[i].name == names(last);
      assert files[i] in files && Of(files[i], last.planId);
    }
  }

  // After any run of transactions a plan loads its last committed state while fewer than
  // 1024 of all names ever written sort above that state's name, and nothing from then on.
  lemma RegisterRun(commits: seq<Snapshot>, names: Snapshot -> string, planId: string)
    requires SortsByStamp(names) && Transactions([], commits, names)
    ensures Newest(PersistedAll([], commits, names), planId) ==
              match LastCommit(commits, planId)
              case None => None
              case Some(last) =>
                if |Above(Written(commits, names), names(last))| < 1024 then Some(last) else None
  {
    RunRegisters(commits, names);
    RunLoadsLast(commits, names, planId);
    if LastCommit(commits, planId).Some? {
      var last := LastCommit(commits, planId).value;
      LastCommitted(commits, planId);
      CommitsAreValid(commits, names, last);
      RetainedIsLoaded(PersistedAll([], commits, names), names, last);
    }
  }

  lemma CommitsAreValid(commits: seq<Snapshot>, names: Snapshot -> string, s: Snapshot)
    requires Transactions([], commits, names) && s in commits
    ensures s.Valid() && names(s) in Written(commits, names)
  {
    var i :| 0 <= i < |commits| && commits[i] == s;
    assert Transaction(PersistedAll([], commits[..i], names), commits[i]);
  }

  // Before 1025 commits nothing is lost.
  lemma ShortRunLosesNothing(commits: seq<Snapshot>, names: Snapshot -> string, planId: string)
    requires SortsByStamp(names) && Transactions([], commits, names) && |commits| <= 1024
    ensures Newest(PersistedAll([], commits, names), planId) == LastCommit(commits, planId)
  {
    RegisterRun(commits, names, planId);
    if LastCommit(commits, planId).Some? {
      var name := names(LastCommit(commits, planId).value);
      LastCommitted(commits, planId);
      Text.LessIrreflexive(name);
      WrittenSize(commits, names);
      SubsetSize(Above(Written(commits, names), name), Written(commits, names) - {name});
    }
  }

  lemma {:induction false} WrittenSize(commits: seq<Snapshot>, names: Snapshot -> string)
    ensures |Written(commits, names)| <= |commits|
  {
    if commits != [] {
      WrittenSize(commits[..|commits| - 1], names);
      WrittenStep(commits, names);
    }
  }

  // ---- The steps of the executor ------------------------------------------------------------

  // What a step leaves of a loaded execution, unless it is refused.
  function Advanced(s: Snapshot, step: Step, now: Text.Stamp, ignoreCase: bool): Option<Snapshot> {
    if step.SystemStep? then
      var tasks := SystemTasks(s.tasks, step.kind, step.completed, step.summary);
      Some(if tasks == s.tasks then s else s.(tasks := tasks, updatedAt := Touched(s.updatedAt, now)))
    else match ChangeOf(s.tasks, step, ignoreCase)
      case Failure(_) => None
      case Success(c) =>
        Some(s.(tasks := c.tasks, updatedAt := if c.touched then Touched(s.updatedAt, now) else s.updatedAt))
  }

  // The mutations that are passed to the store: one step of the execution object.
  method Perform(execution: Execution, step: Step, now: Text.Stamp, ignoreCase: bool) returns (accepted: bool)
    modifies execution
    ensures var after := Advanced(old(SnapshotOf(execution)), step, now, ignoreCase);
            && accepted == after.Some?
            && SnapshotOf(execution) == if after.Some? then after.value else old(SnapshotOf(execution))
  {
    match step
    case ClaimStep(executor, kinds, wanted, binding) =>
      var r := execution.Claim(executor, kinds, wanted, binding, ignoreCase, now);
      return r.Success?;
    case SubmitStep(taskId, submitter, submission) =>
      var r := execution.Submit(taskId, submitter, submission, now);
      return r.Success?;
    case RetryStep(retried) =>
      var r := execution.Retry(retried, now);
      return r.Success?;
    case SystemStep(kind, completed, summary) =>
      var changed := execution.SetSystemTask(kind, completed, summary, now);
      return true;
  }

  // Below the last stamp every accepted step moves the stamp forward or changes nothing.
  lemma StepAdvances(s: Snapshot, step: Step, now: Text.Stamp, ignoreCase: bool)
    requires Advanced(s, step, now, ignoreCase).Some?
    ensures var next := Advanced(s, step, now, ignoreCase).value;
            && next.planId == s.planId && next.updatedAt >= s.updatedAt
            && (s.updatedAt < Text.MAX_STAMP ==> Advances(s, next))
  {
    TouchedAdvances(s.updatedAt, now);
    if step.ClaimStep? {
      assert ClaimChange(s.tasks, step.executor, step.kinds, step.wanted, step.binding, ignoreCase).Success?;
    }
  }

  datatype Timed = Timed(step: Step, now: Text.Stamp)

  // One mutation may take several steps: a status query settles both system kinds.
  function Mutated(s: Snapshot, steps: seq<Timed>, ignoreCase: bool): Option<Snapshot> {
    if steps == [] then Some(s)
    else match Mutated(s, steps[..|steps| - 1], ignoreCase)
      case None => None
      case Some(t) => Advanced(t, steps[|steps| - 1].step, steps[|steps| - 1].now, ignoreCase)
  }

  lemma {:induction false} MutationAdvances(s: Snapshot, steps: seq<Timed>, ignoreCase: bool)
    requires Mutated(s, steps, ignoreCase).Some? && s.updatedAt < Text.MAX_STAMP
    ensures Advances(s, Mutated(s, steps, ignoreCase).value)
  {
    if steps != [] {
      var last := steps[|steps| - 1];
      MutationAdvances(s, steps[..|steps| - 1], ignoreCase);
      StepAdvances(Mutated(s, steps[..|steps| - 1], ignoreCase).value, last.step, last.now, ignoreCase);
    }
  }

  // ---- Runs of the executor over the store --------------------------------------------------

  // One update of a plan, which inserts its first state where `insert` says so.
  datatype Request = Request(plan: Plan, insert: bool, now: Text.Stamp, steps: seq<Timed>, ignoreCase: bool)

  ghost function Started(files: Files, q: Request): Result<Snapshot, StoreError> {
    Start(files, q.plan.id, if q.insert then Some(q.plan) else None, q.now)
  }

  function MutationOf(q: Request): Snapshot -> Option<Snapshot> {
    s => Mutated(s, q.steps, q.ignoreCase)
  }

  ghost function Answer(files: Files, q: Request, size: Snapshot -> nat): Result<Snapshot, StoreError> {
    Update(Started(files, q), MutationOf(q), size)
  }

  // The states committed by a run of requests, and the store it leaves.
  ghost function CommitsOf(qs: seq<Request>, names: Snapshot -> string, size: Snapshot -> nat): seq<Snapshot> {
    if qs == [] then []
    else
      var front := CommitsOf(qs[..|qs| - 1], names, size);
      var r := Answer(PersistedAll([], front, names), qs[|qs| - 1], size);
      if r.Success? then front + [r.value] else front
  }

  ghost function StoreAfter(qs: seq<Request>, names: Snapshot -> string, size: Snapshot -> nat): Files {
    if qs == [] then []
    else
      var files := StoreAfter(qs[..|qs| - 1], names, size);
      Committed(files, Answer(files, qs[|qs| - 1], size), names)
  }

  lemma {:induction false} StoreHoldsCommits(qs: seq<Request>, names: Snapshot -> string, size: Snapshot -> nat)
    ensures StoreAfter(qs, names, size) == PersistedAll([], CommitsOf(qs, names, size), names)
  {
    if qs != [] {
      StoreHoldsCommits(qs[..|qs| - 1], names, size);
      var front := CommitsOf(qs[..|qs| - 1], names, size);
      var r := Answer(PersistedAll([], front, names), qs[|qs| - 1], size);
      if r.Success? {
        assert (front + [r.value])[..|front|] == front;
      }
    }
  }

  // A request answered from a state below the last stamp is a transaction.
  lemma RequestIsTransaction(files: Files, q: Request, size: Snapshot -> nat)
    requires Answer(files, q, size).Success? && Started(files, q).value.updatedAt < Text.MAX_STAMP
    ensures Transaction(files, Answer(files, q, size).value)
  {
    var start := Started(files, q).value;
    MutationAdvances(start, q.steps, q.ignoreCase);
  }

  ghost predicate Unsaturated(qs: seq<Request>, names: Snapshot -> string, size: Snapshot -> nat) {
    forall i :: 0 <= i < |qs| ==>
      var r := Started(StoreAfter(qs[..i], names, size), qs[i]);
      r.Success? ==> r.value.updatedAt < Text.MAX_STAMP
  }

  lemma {:induction false} RequestsAreTransactions(qs: seq<Request>, names: Snapshot -> string, size: Snapshot -> nat)
    requires Unsaturated(qs, names, size)
    ensures Transactions([], CommitsOf(qs, names, size), names)
  {
    if qs != [] {
      var n := |qs| - 1;
      var front := CommitsOf(qs[..n], names, size);
      assert forall i :: 0 <= i < n ==> qs[..n][..i] == qs[..i];
      RequestsAreTransactions(qs[..n], names, size);
      StoreHoldsCommits(qs[..n], names, size);
      var files := PersistedAll([], front, names);
      var r := Answer(files, qs[n], size);
      if r.Success? {
        RequestIsTransaction(files, qs[n], size);
        TransactionsAppend(front, r.value, names);
      }
    }
  }

  lemma TransactionsAppend(front: seq<Snapshot>, s: Snapshot, names: Snapshot -> string)
    requires Transactions([], front, names) && Transaction(PersistedAll([], front, names), s)
    ensures Transactions([], front + [s], names)
  {
    forall i | 0 <= i < |front| + 1
      ensures Transaction(PersistedAll([], (front + [s])[..i], names), (front + [s])[i])
    {
      assert (front + [s])[..i] == front[..i];
    }
    assert front[..|front|] == front;
  }

  // After any run of claims, submissions, retries, settlements and first inserts, accepted
  // or refused, a plan loads the state its last accepted request left, exactly while fewer
  // than 1024 of all names written sort above that state's name.
  lemma ExecutorRun(qs: seq<Request>, names: Snapshot -> string, size: Snapshot -> nat, planId: string)
    requires SortsByStamp(names) && Unsaturated(qs, names, size)
    ensures var commits := CommitsOf(qs, names, size);
            Newest(StoreAfter(qs, names, size), planId) ==
              match LastCommit(commits, planId)
              case None => None
              case Some(last) =>
                if |Above(Written(commits, names), names(last))| < 1024 then Some(last) else None
  {
    RequestsAreTransactions(qs, names, size);
    StoreHoldsCommits(qs, names, size);
    RegisterRun(CommitsOf(qs, names, size), names, planId);
  }

  // ---- What is loaded was reached by the executor -------------------------------------------

  // A run of the executor from the first state of the plan leads to these tasks.
  ghost predicate Reached(plan: Plan, tasks: seq<TaskRun>, ignoreCase: bool) {
    ValidPlan(plan) && exists steps :: tasks == AfterAll(Initial(plan.tasks), steps, ignoreCase)
  }

  // All requests for a plan carry the same plan.
  predicate Consistent(qs: seq<Request>, plans: string -> Plan, ignoreCase: bool) {
    forall q :: q in qs ==> q.plan == plans(q.plan.id) && q.ignoreCase == ignoreCase
  }

  lemma {:induction false} MutationReaches(plan: Plan, s: Snapshot, steps: seq<Timed>, ignoreCase: bool)
    requires Mutated(s, steps, ignoreCase).Some? && Reached(plan, s.tasks, ignoreCase)
    ensures var next := Mutated(s, steps, ignoreCase).value;
            next.planId == s.planId && Reached(plan, next.tasks, ignoreCase)
  {
    if steps != [] {
      var (front, last) := (steps[..|steps| - 1], steps[|steps| - 1]);
      MutationReaches(plan, s, front, ignoreCase);
      StepReaches(plan, Mutated(s, front, ignoreCase).value, last.step, last.now, ignoreCase);
    }
  }

  lemma StepReaches(plan: Plan, s: Snapshot, step: Step, now: Text.Stamp, ignoreCase: bool)
    requires Advanced(s, step, now, ignoreCase).Some? && Reached(plan, s.tasks, ignoreCase)
    ensures var next := Advanced(s, step, now, ignoreCase).value;
            next.planId == s.planId && Reached(plan, next.tasks, ignoreCase)
  {
    var steps :| s.tasks == AfterAll(Initial(plan.tasks), steps, ignoreCase);
    assert (steps + [step])[..|steps|] == steps;
    assert After(s.tasks, step, ignoreCase) == AfterAll(Initial(plan.tasks), steps + [step], ignoreCase);
  }

  lemma {:induction false} FilesAreCommits(commits: seq<Snapshot>, names: Snapshot -> string, f: File<Snapshot>)
    requires f in PersistedAll([], commits, names)
    ensures f.content.Some? && f.content.value in commits
  {
    var (front, last) := (commits[..|commits| - 1], commits[|commits| - 1]);
    var files := PersistedAll([], front, names);
    if f in files {
      FilesAreCommits(front, names, f);
    } else {
      AddContents(files, File(names(last), Some(last)));
    }
  }

  lemma {:induction false} CommitsAreReached(
    qs: seq<Request>, names: Snapshot -> string, size: Snapshot -> nat, plans: string -> Plan, ignoreCase: bool,
    s: Snapshot)
    requires Consistent(qs, plans, ignoreCase) && s in CommitsOf(qs, names, size)
    ensures Reached(plans(s.planId), s.tasks, ignoreCase)
  {
    var (init, q) := (qs[..|qs| - 1], qs[|qs| - 1]);
    var front := CommitsOf(init, names, size);
    if s in front {
      CommitsAreReached(init, names, size, plans, ignoreCase, s);
    } else {
      var files := PersistedAll([], front, names);
      var start := Started(files, q).value;
      if Newest(files, q.plan.id).Some? {
        var f := files[NewestIndex(files, q.plan.id).value];
        assert f in files;
        FilesAreCommits(front, names, f);
        CommitsAreReached(init, names, size, plans, ignoreCase, start);
      } else {
        assert start.tasks == AfterAll(Initial(q.plan.tasks), [], ignoreCase);
      }
      MutationReaches(q.plan, start, q.steps, ignoreCase);
    }
  }

  // Whatever a plan loads, after any run, was reached by a run of the executor from the
  // plan's first state; so its claimed writers exclude each other.
  lemma LoadedIsReached(
    qs: seq<Request>, names: Snapshot -> string, size: Snapshot -> nat, plans: string -> Plan, ignoreCase: bool,
    planId: string)
    requires Consistent(qs, plans, ignoreCase)
    ensures var loaded := Newest(StoreAfter(qs, names, size), planId);
            loaded.Some? ==>
              Reached(plans(planId), loaded.value.tasks, ignoreCase) && Exclusive(loaded.value.tasks, ignoreCase)
  {
    var files := StoreAfter(qs, names, size);
    if Newest(files, planId).Some? {
      var f := files[NewestIndex(files, planId).value];
      assert f in files;
      StoreHoldsCommits(qs, names, size);
      FilesAreCommits(CommitsOf(qs, names, size), names, f);
      CommitsAreReached(qs, names, size, plans, ignoreCase, f.content.value);
      var plan := plans(planId);
      var steps :| f.content.value.tasks == AfterAll(Initial(plan.tasks), steps, ignoreCase);
      RunKeepsExclusion(plan, steps, ignoreCase);
    }
  }

  // ---- A commit that is lost at once ------------------------------------------------------------

  const LATER := "b"
  const EARLIER := "a"

  function Later(i: nat): Snapshot
    requires i <= MAX_SNAPSHOTS
  {
    Snapshot(LATER, "w", [], 0, i + 2)
  }

  function Earlier(): Snapshot {
    Snapshot(EARLIER, "w", [], 0, 1)
  }

  function Laters(n: nat): (commits: seq<Snapshot>)
    requires n <= MAX_SNAPSHOTS
    ensures |commits| == n
  {
    seq(n, i requires 0 <= i < n => Later(i))
  }

  lemma SamplesAreValid()
    ensures Earlier().Valid() && forall i: nat :: i <= MAX_SNAPSHOTS ==> Later(i).Valid()
  {
    assert !Text.IsWhitespace("a"[0]) && !Text.IsWhitespace("b"[0]) && !Text.IsWhitespace("w"[0]);
  }

  // A state later than the last one committed for its plan extends a run.
  lemma RunExtended(front: seq<Snapshot>, s: Snapshot, names: Snapshot -> string)
    requires SortsByStamp(names) && Transactions([], front, names) && s.Valid()
    requires var last := LastCommit(front, s.planId); last.Some? ==> last.value.updatedAt < s.updatedAt
    ensures Transactions([], front + [s], names)
  {
    RunLoadsLast(front, names, s.planId);
    TransactionsAppend(front, s, names);
  }

  lemma {:induction false} LatersLast(n: nat)
    requires n <= MAX_SNAPSHOTS
    ensures LastCommit(Laters(n), EARLIER).None?
    ensures LastCommit(Laters(n), LATER) == if n == 0 then None else Some(Later(n - 1))
  {
    if n > 0 {
      LatersLast(n - 1);
      assert Laters(n)[..n - 1] == Laters(n - 1);
    }
  }

  lemma NextLater(n: nat)
    requires 0 < n <= MAX_SNAPSHOTS
    ensures Laters(n - 1) + [Later(n - 1)] == Laters(n)
  {
  }

  lemma {:induction false} LatersAreTransactions(n: nat, names: Snapshot -> string)
    requires SortsByStamp(names) && n <= MAX_SNAPSHOTS
    ensures Transactions([], Laters(n), names)
  {
    if n > 0 {
      LatersAreTransactions(n - 1, names);
      LatersLast(n - 1);
      SamplesAreValid();
      RunExtended(Laters(n - 1), Later(n - 1), names);
      NextLater(n);
    }
  }

  // The first state of a plan whose clock is behind, committed to a full store: all other
  // names sort after its own, and the plan loads nothing.
  lemma BackdatedCommitIsLost(names: Snapshot -> string)
    requires SortsByStamp(names)
    ensures var commits := Laters(MAX_SNAPSHOTS) + [Earlier()];
            && Transactions([], commits, names) && LastCommit(commits, EARLIER) == Some(Earlier())
            && Newest(PersistedAll([], commits, names), EARLIER) == None
  {
    var (front, commits) := (Laters(MAX_SNAPSHOTS), Laters(MAX_SNAPSHOTS) + [Earlier()]);
    LatersAreTransactions(MAX_SNAPSHOTS, names);
    LatersLast(MAX_SNAPSHOTS);
    SamplesAreValid();
    RunExtended(front, Earlier(), names);
    RegisterRun(commits, names, EARLIER);
    AllAbove(commits, names);
  }

  lemma AllAbove(commits: seq<Snapshot>, names: Snapshot -> string)
    requires SortsByStamp(names) && commits == Laters(MAX_SNAPSHOTS) + [Earlier()]
    ensures |Above(Written(commits, names), names(Earlier()))| >= MAX_SNAPSHOTS
  {
    var later := seq(MAX_SNAPSHOTS, i requires 0 <= i < MAX_SNAPSHOTS => names(Later(i)));
    forall i, j | 0 <= i < j < |later| ensures later[i] != later[j] {
      Text.LessIrreflexive(later[i]);
    }
    DistinctSize(later);
    forall n | n in later ensures n in Above(Written(commits, names), names(Earlier())) {
      var i :| 0 <= i < |later| && later[i] == n;
      assert commits[i] == Later(i);
    }
    SubsetSize(Elements(later), Above(Written(commits, names), names(Earlier())));
  }
}
