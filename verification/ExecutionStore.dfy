// The snapshot store of reconciliation executions: immutable snapshots, newest name wins,
// oldest names are pruned.
module ExecutionStore {
  import opened Wrappers
  import opened Directory
  import opened Reconciliation
  import opened SnapshotNames
  import opened Sorting
  import Text

  const MAX_SNAPSHOTS := 1024
  const MAX_BYTES := 2 * 1024 * 1024

  datatype StoreError = InvalidPlanId | InvalidPlan | InvalidSnapshot | TooLarge | Missing | Rejected

  type Files = seq<File<Snapshot>>

  // ---- The newest snapshot of a plan ---------------------------------------

  predicate Of(f: File<Snapshot>, planId: string) {
    f.content.Some? && f.content.value.planId == planId
  }

  function OfPlan(planId: string): File<Snapshot> -> bool {
    f => Of(f, planId)
  }

  function NewestIndex(files: Files, planId: string): (at: Option<nat>)
    ensures at.Some? ==> at.value < |files| && Of(files[at.value], planId)
    ensures at.Some? ==> forall i :: at.value < i < |files| ==> !Of(files[i], planId)
    ensures at.None? ==> forall i :: 0 <= i < |files| ==> !Of(files[i], planId)
  {
    LastIndex(files, OfPlan(planId))
  }

  function Newest(files: Files, planId: string): Option<Snapshot> {
    match NewestIndex(files, planId)
    case None => None
    case Some(at) => files[at].content
  }

  // Every readable file carries the name its content prescribes, as `persist` writes it.
  ghost predicate WellWritten(files: Files, names: Snapshot -> string) {
    Listing(files) && forall f :: f in files ==>
      f.content.Some? && f.content.value.planId != ""
      && f.name == names(f.content.value)
  }

  function PruneOldest(files: Files): Files {
    if |files| > MAX_SNAPSHOTS then files[|files| - MAX_SNAPSHOTS..] else files
  }

  // Pruning either keeps a plan's newest snapshot or forgets the plan; it never uncovers an older one.
  lemma PruneNeverRewinds(files: Files, planId: string)
    ensures var excess := |files| - |PruneOldest(files)|;
            Newest(PruneOldest(files), planId) ==
              match NewestIndex(files, planId)
              case None => None
              case Some(at) => if at >= excess then files[at].content else None
  {
    var excess := |files| - |PruneOldest(files)|;
    assert PruneOldest(files) == files[excess..];
    LastIndexOfSuffix(files, OfPlan(planId), excess);
  }

  // ---- Committing a snapshot ------------------------------------------------

  // The listing after a successful persist.
  function Persisted(files: Files, s: Snapshot, names: Snapshot -> string): Files {
    var name := names(s);
    if Named(files, name).Some? then files else PruneOldest(Add(files, File(name, Some(s))))
  }

  // `s` is newer than everything the store holds for its plan.
  ghost predicate Supersedes(s: Snapshot, files: Files) {
    forall f :: f in files && f.content.Some? && f.content.value.planId == s.planId ==>
      f.content.value.updatedAt < s.updatedAt
  }

  // Rank from the newest end, as pruning counts it.
  function Rank(files: Files, name: string): nat {
    |files| - Place(files, name)
  }

  lemma NewNameSortsLast(files: Files, s: Snapshot, names: Snapshot -> string)
    requires WellWritten(files, names) && SortsByStamp(names) && s.Valid()
    requires Supersedes(s, files)
    ensures forall f :: f in files && f.content.value.planId == s.planId ==> Text.Less(f.name, names(s))
    ensures Named(files, names(s)).None?
  {
    Text.LessIrreflexive(names(s));
  }

  lemma AddedWellWritten(files: Files, s: Snapshot, names: Snapshot -> string)
    requires WellWritten(files, names) && s.Valid()
    requires Named(files, names(s)).None?
    ensures WellWritten(Add(files, File(names(s), Some(s))), names)
  {
    AddSorted(files, File(names(s), Some(s)));
    AddContents(files, File(names(s), Some(s)));
  }

  // A file that sorts after all others of its plan becomes the plan's newest.
  lemma AddedLast(files: Files, f: File<Snapshot>, planId: string)
    requires Listing(files) && Named(files, f.name).None? && Of(f, planId)
    requires forall o :: o in files && Of(o, planId) ==> Text.Less(o.name, f.name)
    ensures Add(files, f)[Place(files, f.name)] == f
    ensures NewestIndex(Add(files, f), planId) == Some(Place(files, f.name))
  {
    AddSorted(files, f);
    var added, at := Add(files, f), Place(files, f.name);
    forall i | at < i < |added| ensures !Of(added[i], planId) {
      assert added[i] == files[i - 1] && added[i] in files && Text.Less(f.name, added[i].name);
      Text.LessAsymmetric(f.name, added[i].name);
    }
    assert added[at] == f;
  }

  lemma AddedIsNewest(files: Files, s: Snapshot, names: Snapshot -> string)
    requires WellWritten(files, names) && SortsByStamp(names) && s.Valid()
    requires Supersedes(s, files)
    ensures var f := File(names(s), Some(s));
            && Named(files, f.name).None? && Add(files, f)[Place(files, f.name)] == f
            && NewestIndex(Add(files, f), s.planId) == Some(Place(files, f.name))
  {
    NewNameSortsLast(files, s, names);
    AddedLast(files, File(names(s), Some(s)), s.planId);
  }

  // A committed snapshot is what the next load returns, exactly when fewer than the
  // retained number of snapshots sort after it; otherwise the plan is forgotten.
  lemma CommitIsVisibleExactly(files: Files, s: Snapshot, names: Snapshot -> string)
    requires WellWritten(files, names) && SortsByStamp(names) && s.Valid()
    requires Supersedes(s, files) && |files| <= MAX_SNAPSHOTS
    ensures var after := Persisted(files, s, names);
            Newest(after, s.planId) == if Rank(files, names(s)) < MAX_SNAPSHOTS then Some(s) else None
  {
    AddedIsNewest(files, s, names);
    PruneNeverRewinds(Add(files, File(names(s), Some(s))), s.planId);
  }

  // Committing one plan never changes what another plan loads, except by forgetting it.
  lemma CommitLeavesOthers(files: Files, s: Snapshot, names: Snapshot -> string, other: string)
    requires WellWritten(files, names) && SortsByStamp(names) && s.Valid()
    requires Supersedes(s, files) && other != s.planId
    ensures Newest(Persisted(files, s, names), other) in {Newest(files, other), None}
    ensures |files| < MAX_SNAPSHOTS ==> Newest(Persisted(files, s, names), other) == Newest(files, other)
  {
    AddedIsNewest(files, s, names);
    var f := File(names(s), Some(s));
    AddedLeavesOthers(files, f, other);
    PruneNeverRewinds(Add(files, f), other);
  }

  lemma AddedLeavesOthers(files: Files, f: File<Snapshot>, other: string)
    requires !Of(f, other)
    ensures Newest(Add(files, f), other) == Newest(files, other)
  {
    LastIndexOfInsertion(files, OfPlan(other), Place(files, f.name), f);
  }

  // Advancing the newest snapshot's stamp is enough to supersede the whole history of the plan.
  lemma AdvanceSupersedes(files: Files, previous: Snapshot, next: Snapshot, names: Snapshot -> string)
    requires WellWritten(files, names) && SortsByStamp(names)
    requires Newest(files, next.planId) == Some(previous) && previous.updatedAt < next.updatedAt
    ensures Supersedes(next, files)
  {
    var k := NewestIndex(files, next.planId).value;
    forall i | 0 <= i < |files| && files[i].content.value.planId == next.planId
      ensures files[i].content.value.updatedAt < next.updatedAt
    {
      var o := files[i].content.value;
      assert files[i] in files && files[k] in files;
      assert Of(files[i], next.planId);
      if o.updatedAt > previous.updatedAt {
        Text.LessAsymmetric(files[k].name, files[i].name);
      }
    }
  }

  lemma PersistKeepsWellWritten(files: Files, s: Snapshot, names: Snapshot -> string)
    requires WellWritten(files, names) && SortsByStamp(names) && s.Valid()
    requires |files| <= MAX_SNAPSHOTS
    ensures WellWritten(Persisted(files, s, names), names) && |Persisted(files, s, names)| <= MAX_SNAPSHOTS
  {
    var f := File(names(s), Some(s));
    if Named(files, f.name).None? {
      AddedWellWritten(files, s, names);
      SuffixWellWritten(Add(files, f), names, |files| + 1 - |PruneOldest(Add(files, f))|);
    }
  }

  lemma SuffixWellWritten(files: Files, names: Snapshot -> string, drop: nat)
    requires WellWritten(files, names) && drop <= |files|
    ensures WellWritten(files[drop..], names)
  {
    var kept := files[drop..];
    forall i, j | 0 <= i < j < |kept| ensures Text.Less(kept[i].name, kept[j].name) {
      assert kept[i] == files[drop + i] && kept[j] == files[drop + j];
    }
    assert forall f :: f in kept ==> f in files;
  }

  // ---- Transactions ---------------------------------------------------------

  // What one transaction commits: the loaded state with a later stamp, the loaded state
  // itself, or a first state for a plan that loads as missing.
  ghost predicate Transaction(files: Files, s: Snapshot) {
    s.Valid()
    && match Newest(files, s.planId)
       case Some(previous) => s == previous || previous.updatedAt < s.updatedAt
       case None => true
  }

  lemma TransactionSupersedes(files: Files, s: Snapshot, names: Snapshot -> string)
    requires WellWritten(files, names) && SortsByStamp(names) && Transaction(files, s)
    ensures Supersedes(s, files) || (Newest(files, s.planId) == Some(s) && Named(files, names(s)).Some?)
  {
    match Newest(files, s.planId)
    case Some(previous) =>
      if s == previous {
        var k := NewestIndex(files, s.planId).value;
        assert files[k] in files;
      } else {
        AdvanceSupersedes(files, previous, s, names);
      }
    case None =>
      assert forall f :: f in files ==> !Of(f, s.planId);
  }

  lemma RegisterStep(files: Files, s: Snapshot, names: Snapshot -> string, planId: string)
    requires WellWritten(files, names) && SortsByStamp(names) && |files| <= MAX_SNAPSHOTS && Transaction(files, s)
    ensures var after := Persisted(files, s, names);
            && WellWritten(after, names) && |after| <= MAX_SNAPSHOTS && |after| <= |files| + 1
            && Newest(after, planId) in {if s.planId == planId then Some(s) else Newest(files, planId), None}
            && (|files| < MAX_SNAPSHOTS ==>
                  Newest(after, planId) == if s.planId == planId then Some(s) else Newest(files, planId))
  {
    PersistKeepsWellWritten(files, s, names);
    TransactionSupersedes(files, s, names);
    if Supersedes(s, files) {
      if s.planId == planId {
        CommitIsVisibleExactly(files, s, names);
      } else {
        CommitLeavesOthers(files, s, names, planId);
      }
    }
  }

  // ---- What an update commits -------------------------------------------------

  predicate ValidPlanId(planId: string) {
    !Text.Blank(planId) && |planId| <= 160 && '/' !in planId && '\\' !in planId
  }

  function FirstSnapshot(plan: Plan, now: Text.Stamp): Snapshot {
    Snapshot(plan.id, plan.workspace, Initial(plan.tasks), now, now)
  }

  // The state an update starts from: the loaded one or, where a plan is given, its first.
  ghost function Start(files: Files, planId: string, first: Option<Plan>, now: Text.Stamp)
    : Result<Snapshot, StoreError>
  {
    if !ValidPlanId(planId) then Failure(InvalidPlanId)
    else match Newest(files, planId)
      case Some(s) => Success(s)
      case None =>
        if first.None? then Failure(Missing)
        else if ValidPlan(first.value) then Success(FirstSnapshot(first.value, now))
        else Failure(StoreError.InvalidPlan)
  }

  function Write(s: Snapshot, size: Snapshot -> nat): Result<Snapshot, StoreError> {
    if !s.Valid() then Failure(InvalidSnapshot) else if size(s) > MAX_BYTES then Failure(TooLarge) else Success(s)
  }

  // The state committed, if the mutation and the store accept it.
  function Update(
    start: Result<Snapshot, StoreError>, mutate: Snapshot -> Option<Snapshot>, size: Snapshot -> nat)
    : Result<Snapshot, StoreError>
  {
    match start
    case Failure(e) => Failure(e)
    case Success(s) =>
      match mutate(s)
      case None => Failure(Rejected)
      case Some(next) => Write(next, size)
  }

  // A failed update commits nothing.
  function Committed(files: Files, r: Result<Snapshot, StoreError>, names: Snapshot -> string): Files {
    if r.Success? then Persisted(files, r.value, names) else files
  }

  // The mutation moved the stamp forward, or changed nothing.
  predicate Advances(before: Snapshot, after: Snapshot) {
    after.planId == before.planId && (after == before || before.updatedAt < after.updatedAt)
  }

  lemma UpdateIsVisible(
    files: Files, start: Snapshot, next: Snapshot, names: Snapshot -> string, first: Option<Plan>, now: Text.Stamp)
    requires WellWritten(files, names) && SortsByStamp(names) && |files| <= MAX_SNAPSHOTS
    requires (first.Some? ==> first.value.id == next.planId)
    requires Start(files, next.planId, first, now) == Success(start) && Advances(start, next) && next.Valid()
    ensures Newest(Persisted(files, next, names), next.planId) in {Some(next), None}
    ensures |files| < MAX_SNAPSHOTS ==> Newest(Persisted(files, next, names), next.planId) == Some(next)
  {
    RegisterStep(files, next, names, next.planId);
  }

  // ---- The store ------------------------------------------------------------

  function SnapshotOf(execution: Execution): Snapshot
    reads execution
  {
    Snapshot(execution.planId, execution.workspace, execution.tasks, execution.createdAt, execution.updatedAt)
  }

  class Store {
    var files: Files
    const names: Snapshot -> string
    const size: Snapshot -> nat

    ghost predicate Valid()
      reads this
    {
      TellsPlan(names) && SortsByStamp(names) && WellWritten(files, names) && |files| <= MAX_SNAPSHOTS
    }

    constructor (digest: Snapshot -> string, size: Snapshot -> nat)
      requires HexDigest(digest)
      ensures Valid() && files == [] && names == NamesBy(digest) && this.size == size
    {
      NamingLaws(digest);
      names, this.size, files := NamesBy(digest), size, [];
    }

    method Persist(s: Snapshot) returns (outcome: Result<(), StoreError>)
      requires Valid()
      modifies `files
      ensures Valid()
      ensures outcome == if !s.Valid() then Failure(InvalidSnapshot)
                         else if size(s) > 2097152 then Failure(TooLarge) else Success(())
      ensures files == if outcome.Success? then Persisted(old(files), s, names) else old(files)
    {
      if !s.Valid() { return Failure(InvalidSnapshot); }
      if size(s) > MAX_BYTES { return Failure(TooLarge); }
      PersistKeepsWellWritten(files, s, names);
      var name := names(s);
      if Named(files, name).Some? { return Success(()); }
      files := Add(files, File(name, Some(s)));
      var excess := if |files| > MAX_SNAPSHOTS then |files| - MAX_SNAPSHOTS else 0;
      files := files[excess..];
      return Success(());
    }

    // The plan id in the name of file `i`.
    method NamedPlan(i: nat) returns (planId: Option<string>)
      requires Valid() && i < |files|
      ensures files[i].content.Some? && planId == Some(files[i].content.value.planId)
    {
      assert files[i] in files && files[i].name == names(files[i].content.value);
      return PlanIdOfName(files[i].name);
    }

    method Load(planId: string) returns (r: Result<Option<Snapshot>, StoreError>)
      requires Valid()
      ensures r == if ValidPlanId(planId) then Success(Newest(files, planId)) else Failure(InvalidPlanId)
    {
      if !ValidPlanId(planId) { return Failure(InvalidPlanId); }
      var i := |files|;
      while i > 0
        invariant 0 <= i <= |files|
        invariant forall j :: i <= j < |files| ==> !Of(files[j], planId)
      {
        i := i - 1;
        var named := NamedPlan(i);
        if named != Some(planId) { continue; }
        if files[i].content.Some? && files[i].content.value.planId == planId {
          assert Of(files[i], planId);
          assert NewestIndex(files, planId) == Some(i);
          return Success(files[i].content);
        }
      }
      return Success(None);
    }

    // One pass over the listing serves every requested plan.
    method LoadMany(planIds: seq<string>) returns (r: Result<map<string, Snapshot>, StoreError>)
      requires Valid()
      ensures r.Failure? <==> exists p :: p in planIds && !ValidPlanId(p)
      ensures r.Success? ==> forall p :: p in r.value <==> p in planIds && Newest(files, p).Some?
      ensures r.Success? ==> forall p :: p in r.value ==> Newest(files, p) == Some(r.value[p])
    {
      var remaining: set<string> := {};
      for i := 0 to |planIds|
        invariant remaining == set p | p in planIds[..i]
        invariant forall p :: p in planIds[..i] ==> ValidPlanId(p)
      {
        if !ValidPlanId(planIds[i]) { return Failure(InvalidPlanId); }
        remaining := remaining + {planIds[i]};
      }
      assert planIds[..|planIds|] == planIds;
      var found: map<string, Snapshot> := map[];
      var i := |files|;
      while i > 0 && remaining != {}
        invariant 0 <= i <= |files|
        invariant forall p :: p in planIds <==> p in remaining || p in found
        invariant remaining !! found.Keys
        invariant forall p, j :: p in remaining && i <= j < |files| ==> !Of(files[j], p)
        invariant forall p :: p in found ==> Newest(files, p) == Some(found[p])
      {
        i := i - 1;
        var file := files[i];
        var named := NamedPlan(i);
        if named.None? || named.value !in remaining || file.content.None? { continue; }
        var planId := file.content.value.planId;
        if planId in remaining {
          assert Of(file, planId);
          assert NewestIndex(files, planId) == Some(i);
          remaining := remaining - {planId};
          found := found[planId := file.content.value];
        }
      }
      return Success(found);
    }

    // A locked read-modify-write of one plan; a rejected mutation commits nothing.
    method UpdateExisting(planId: string, mutate: Snapshot -> Option<Snapshot>)
      returns (r: Result<Snapshot, StoreError>)
      requires Valid()
      modifies `files
      ensures Valid()
      ensures r == Update(Start(old(files), planId, None, 0), mutate, size)
      ensures files == Committed(old(files), r, names)
      ensures r.Success? && Advances(Newest(old(files), planId).value, r.value) ==>
        && Newest(files, planId) in {Some(r.value), None}
        && (|old(files)| < MAX_SNAPSHOTS ==> Newest(files, planId) == Some(r.value))
    {
      var loaded := Load(planId);
      if loaded.Failure? { return Failure(loaded.error); }
      if loaded.value.None? { return Failure(Missing); }
      var start := loaded.value.value;
      var next := mutate(start);
      if next.None? { return Failure(Rejected); }
      ghost var before := files;
      var outcome := Persist(next.value);
      if outcome.Failure? { return Failure(outcome.error); }
      if Advances(start, next.value) {
        UpdateIsVisible(before, start, next.value, names, None, 0);
      }
      return Success(next.value);
    }

    // The same for a plan that need not have a state yet.
    method UpdateOrInsert(plan: Plan, now: Text.Stamp, mutate: Snapshot -> Option<Snapshot>)
      returns (r: Result<Snapshot, StoreError>)
      requires Valid()
      modifies `files
      ensures Valid()
      ensures r == Update(Start(old(files), plan.id, Some(plan), now), mutate, size)
      ensures files == Committed(old(files), r, names)
      ensures r.Success? && Advances(Start(old(files), plan.id, Some(plan), now).value, r.value) ==>
        && Newest(files, plan.id) in {Some(r.value), None}
        && (|old(files)| < MAX_SNAPSHOTS ==> Newest(files, plan.id) == Some(r.value))
    {
      var loaded := Load(plan.id);
      if loaded.Failure? { return Failure(loaded.error); }
      var start: Snapshot;
      if loaded.value.Some? {
        start := loaded.value.value;
      } else {
        var fromPlan := Execution.FromPlan(plan, now);
        if fromPlan.Failure? { return Failure(StoreError.InvalidPlan); }
        start := SnapshotOf(fromPlan.value);
      }
      var next := mutate(start);
      if next.None? { return Failure(Rejected); }
      ghost var before := files;
      var outcome := Persist(next.value);
      if outcome.Failure? { return Failure(outcome.error); }
      if Advances(start, next.value) {
        UpdateIsVisible(before, start, next.value, names, Some(plan), now);
      }
      return Success(next.value);
    }

    // The writer claims that survive a restart: those of each plan's newest snapshot.
    method ClaimedWriterRecords() returns (claimed: set<(string, TaskRun)>)
      requires Valid()
      ensures forall p, run :: (p, run) in claimed <==>
        Newest(files, p).Some? && run in Newest(files, p).value.tasks && HoldsWriter(run)
    {
      claimed := {};
      var seen: set<string> := {};
      var i := |files|;
      while i > 0
        invariant 0 <= i <= |files|
        invariant forall p :: p in seen <==> exists j :: i <= j < |files| && Of(files[j], p)
        invariant forall p, run :: (p, run) in claimed <==>
          p in seen && Newest(files, p).Some? && run in Newest(files, p).value.tasks && HoldsWriter(run)
      {
        i := i - 1;
        var file := files[i];
        var named := NamedPlan(i);
        assert Of(file, named.value);
        if named.None? || named.value in seen || file.content.None? { continue; }
        var snapshot := file.content.value;
        assert NewestIndex(files, snapshot.planId) == Some(i);
        seen := seen + {snapshot.planId};
        claimed := claimed + set run | run in snapshot.tasks && HoldsWriter(run) :: (snapshot.planId, run);
      }
    }
  }
}
