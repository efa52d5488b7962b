// The bounded evidence store: append, then forget one record when the store is full,
// without losing the effective negative evidence of the incoming revision.
module EvidenceStore {
  import opened Wrappers
  import opened Evidence
  import opened EvidenceSelection
  import opened Directory
  import Text
  import Sorting

  const MAX_STORED := 4096
  const MAX_BYTES := 128 * 1024

  type Files = seq<File<Record>>

  datatype StoreError =
    | InvalidRecord | TooLarge | NameConflict | Unreadable | Enumeration | IdConflict | Full

  function Stored(files: Files): set<Record> {
    set f | f in files && f.content.Some? :: f.content.value
  }

  function Native(files: Files): set<Record> {
    set r | r in Stored(files) && r.authority != SelfReported
  }

  // Approvals and reconciliation outcomes are not part of the effective selection.
  predicate Standing(r: Record, revision: Revision) {
    r.revision == revision && (r.kind == HumanApproval || r.kind == Reconciliation)
  }

  ghost predicate Protected(r: Record, files: Files, revision: Revision) {
    r.Negative() && r in Native(files) && (r in Current(Native(files), revision) || Standing(r, revision))
  }

  predicate Reclaimable(r: Record, revision: Revision) {
    r.authority == SelfReported || r.revision != revision
  }

  ghost predicate Kept(f: File<Record>, files: Files, incoming: string, revision: Revision)
    requires f.content.Some?
  {
    f.name == incoming || Protected(f.content.value, files, revision)
  }

  ghost predicate Readable(files: Files) {
    forall f :: f in files ==> f.content.Some?
  }

  // The file to forget: the oldest advisory or foreign one, else the oldest unprotected one.
  ghost predicate IsVictim(files: Files, k: nat, incoming: string, revision: Revision)
    requires Readable(files)
  {
    k < |files| && !Kept(files[k], files, incoming, revision)
    && if Reclaimable(files[k].content.value, revision) then
         forall j :: 0 <= j < k && Reclaimable(files[j].content.value, revision) ==>
           Kept(files[j], files, incoming, revision)
       else
         && (forall j :: 0 <= j < |files| && Reclaimable(files[j].content.value, revision) ==>
               Kept(files[j], files, incoming, revision))
         && (forall j :: 0 <= j < k ==> Kept(files[j], files, incoming, revision))
  }

  // The loop has no choice.
  lemma VictimUnique(files: Files, i: nat, j: nat, incoming: string, revision: Revision)
    requires Readable(files) && IsVictim(files, i, incoming, revision) && IsVictim(files, j, incoming, revision)
    ensures i == j
  {
  }

  ghost function PruneError(files: Files, incoming: string, revision: Revision): Option<StoreError> {
    if |files| <= 4096 then None
    else if |files| > 4097 then Some(Enumeration)
    else if !Readable(files) then Some(Unreadable)
    else if !IdsIdentify(Stored(files)) then Some(IdConflict)
    else if forall f :: f in files ==> Kept(f, files, incoming, revision) then Some(Full)
    else None
  }

  ghost predicate Pruned(files: Files, incoming: string, revision: Revision, after: Files) {
    PruneError(files, incoming, revision).None?
    && if |files| <= 4096 then after == files
       else exists k: nat :: IsVictim(files, k, incoming, revision) && after == Without(files, k)
  }

  // What one append does. A rejected append leaves the store as it was.
  ghost predicate Step(
    before: Files, e: Record, name: string, size: nat, outcome: Result<(), StoreError>, after: Files)
  {
    if !e.Valid() then outcome == Failure(InvalidRecord) && after == before
    else if size > 131072 then outcome == Failure(TooLarge) && after == before
    else match Named(before, name)
      case Some(at) =>
        after == before
        && outcome == if before[at].content.None? then Failure(Unreadable)
                      else if before[at].content.value != e then Failure(NameConflict) else Success(())
      case None =>
        var appended := Add(before, File(name, Some(e)));
        match PruneError(appended, name, e.revision)
        case Some(error) => outcome == Failure(error) && after == before
        case None => outcome == Success(()) && Pruned(appended, name, e.revision, after)
  }

  // ---- What forgetting one file does ----------------------------------------

  lemma NativeWithout(files: Files, k: nat)
    requires k < |files| && files[k].content.Some?
    ensures var v := files[k].content.value;
            && (forall r :: r in Stored(files) && r != v ==> r in Stored(Without(files, k)))
            && (Native(Without(files, k)) == Native(files) || Native(Without(files, k)) == Native(files) - {v})
  {
    var v, after := files[k].content.value, Without(files, k);
    forall r | r in Stored(files) && r != v ensures r in Stored(after) {
      var f :| f in files && f.content == Some(r);
      var i :| 0 <= i < |files| && files[i] == f;
      assert f in after by { assert i < k ==> after[i] == f; assert i > k ==> after[i - 1] == f; }
    }
    assert Stored(after) <= Stored(files);
  }

  lemma StoredAdded(files: Files, f: File<Record>)
    requires f.content.Some?
    ensures Stored(Add(files, f)) == Stored(files) + {f.content.value}
  {
    AddContents(files, f);
  }

  // The precise effect of pruning on a full store: one file fewer, and not the new one.
  lemma PruneForgetsOne(files: Files, incoming: string, revision: Revision, after: Files)
    requires Listing(files) && Pruned(files, incoming, revision, after) && |files| > 4096
    ensures exists k: nat :: (k < |files| && after == Without(files, k) && files[k].name != incoming
                              && files[k] !in after && Readable(files) && IdsIdentify(Stored(files))
                              && !Protected(files[k].content.value, files, revision))
    ensures |after| == 4096 && Listing(after)
    ensures forall f :: f in files && f.name == incoming ==> f in after
  {
    var k: nat :| IsVictim(files, k, incoming, revision) && after == Without(files, k);
    ListingWithout(files, k);
  }

  ghost predicate ProtectionKept(files: Files, after: Files, revision: Revision) {
    forall p :: Protected(p, files, revision) ==> Protected(p, after, revision)
  }

  // When forgetting one file, whatever the listing, keeps every protected negative.
  lemma ForgettingKeepsProtected(files: Files, k: nat, incoming: string, revision: Revision)
    requires Readable(files) && IsVictim(files, k, incoming, revision)
    ensures ProtectionKept(files, Without(files, k), revision) <==>
              Native(Without(files, k)) == Native(files) || !Unmasks(Native(files), files[k].content.value, revision)
  {
    var s, v, after := Native(files), files[k].content.value, Without(files, k);
    NativeWithout(files, k);
    if Native(after) != s {
      assert v in s && Native(after) == s - {v};
      NegativesKeptExactly(s, v, revision);
      forall p | Protected(p, files, revision) && !Standing(p, revision)
        ensures Protected(p, after, revision) <==> p in Current(s - {v}, revision)
      {
      }
      if !Unmasks(s, v, revision) {
        assert ProtectionKept(files, after, revision);
      } else {
        var p :| p in Current(s, revision) && p.Negative() && p != v && p !in Current(s - {v}, revision);
        assert Protected(p, files, revision) && !Protected(p, after, revision);
      }
    }
  }

  // ---- Names follow time -----------------------------------------------------

  // The name of each record, given the digest of its encoding.
  function NamesBy(digest: Record -> string): Record -> string {
    (e: Record) => Text.Padded(e.timestamp, 20) + ("-" + digest(e) + ".json")
  }

  ghost predicate SortsByTime(names: Record -> string) {
    forall a: Record, b: Record :: a.timestamp < b.timestamp ==> Text.Less(names(a), names(b))
  }

  lemma NamingLaw(digest: Record -> string)
    ensures SortsByTime(NamesBy(digest))
  {
    forall a: Record, b: Record | a.timestamp < b.timestamp ensures Text.Less(NamesBy(digest)(a), NamesBy(digest)(b)) {
      Text.NamesFollowStamps(a.timestamp, b.timestamp, "-" + digest(a) + ".json", "-" + digest(b) + ".json");
    }
  }

  // Every readable file carries the name its record prescribes, as `persist` writes it.
  ghost predicate Stamped(files: Files, names: Record -> string) {
    Listing(files) && SortsByTime(names)
    && forall i :: 0 <= i < |files| && files[i].content.Some? ==> files[i].name == names(files[i].content.value)
  }

  lemma StampedAdd(files: Files, names: Record -> string, e: Record)
    requires Stamped(files, names) && Named(files, names(e)).None?
    ensures Stamped(Add(files, File(names(e), Some(e))), names)
  {
    AddSorted(files, File(names(e), Some(e)));
  }

  lemma StampedWithout(files: Files, names: Record -> string, k: nat)
    requires Stamped(files, names) && k < |files|
    ensures Stamped(Without(files, k), names)
  {
    ListingWithout(files, k);
    forall i | 0 <= i < |files| - 1 ensures Without(files, k)[i] == files[if i < k then i else i + 1] {
      WithoutAt(files, k, i);
    }
  }

  // A record is stored once, so forgetting its file forgets it.
  lemma RecordForgotten(files: Files, names: Record -> string, k: nat)
    requires Stamped(files, names) && k < |files| && files[k].content.Some?
    ensures files[k].content.value !in Stored(Without(files, k))
  {
    WithoutMembers(files, k);
    forall f | f in files && f.content == files[k].content ensures f == files[k] {
      var i :| 0 <= i < |files| && files[i] == f;
      UniqueName(files, k);
    }
  }

  // ---- Who can take over a scope ----------------------------------------------------------

  // An acceptance record that claims Pass although its receipt does not cover what it requires.
  predicate UnbackedPass(v: Record) {
    v.result == Pass && FamilyOf(v) == Some(AcceptanceFamily) && Unbacked(v)
  }

  // Without the unbacked `v`, `w` leads the scope of `v` and withdraws the negative `p`.
  ghost predicate Withdraws(s: set<Record>, v: Record, w: Record, p: Record, revision: Revision) {
    && v in Current(s, revision) && UnbackedPass(v) && w in s && RunnerUp(w, v, s, revision)
    && p in Current(s, revision) && p.Negative() && p != v && Supersedes(w, p)
  }

  // File `j` is the incoming one, or its record is as old as that of `k` and listed behind it.
  predicate Late(files: Files, k: nat, j: nat, incoming: string)
    requires k < |files| && j < |files| && files[k].content.Some? && files[j].content.Some?
  {
    files[j].name == incoming || (files[j].content.value.timestamp == files[k].content.value.timestamp && k < j)
  }

  // The record of such a file takes over the scope of `k` once `k` is forgotten.
  ghost predicate TakesOver(files: Files, k: nat, j: nat, p: Record, incoming: string, revision: Revision)
    requires Readable(files) && k < |files| && j < |files|
  {
    && Late(files, k, j, incoming)
    && Withdraws(Native(files), files[k].content.value, files[j].content.value, p, revision)
  }

  ghost predicate TakenOver(files: Files, k: nat, incoming: string, revision: Revision)
    requires Readable(files) && k < |files|
  {
    exists j: nat, p :: j < |files| && TakesOver(files, k, j, p, incoming, revision)
  }

  // Any older record of the scope would have been forgotten first.
  lemma RunnerUpIsLate(files: Files, names: Record -> string, k: nat, j: nat, incoming: string, revision: Revision)
    requires Stamped(files, names) && Readable(files) && IdsIdentify(Stored(files))
    requires IsVictim(files, k, incoming, revision) && j < |files|
    requires var (s, v, w) := (Native(files), files[k].content.value, files[j].content.value);
             v in Current(s, revision) && w in s && RunnerUp(w, v, s, revision)
    ensures Late(files, k, j, incoming)
  {
    var (v, w) := (files[k].content.value, files[j].content.value);
    assert Leads(v, Native(files), revision) && !Beats(w, v);
    BeatsTotal(v, w);
    assert v in Stored(files) && w in Stored(files) && Beats(v, w);
    assert !Reclaimable(v, revision) && !Protected(w, files, revision);
    if k < j {
      if w.timestamp < v.timestamp {
        Text.LessAsymmetric(names(w), names(v));
      }
    } else {
      assert Kept(files[j], files, incoming, revision);
    }
  }

  lemma UnmaskedIsTakenOver(files: Files, names: Record -> string, k: nat, incoming: string, revision: Revision)
    requires Stamped(files, names) && Readable(files) && IdsIdentify(Stored(files))
    requires IsVictim(files, k, incoming, revision) && Unmasks(Native(files), files[k].content.value, revision)
    ensures TakenOver(files, k, incoming, revision)
  {
    var (s, v) := (Native(files), files[k].content.value);
    PassIsUnbacked(files, k, incoming, revision);
    var w, p :| RunnerUp(w, v, s, revision) && p in Current(s, revision) && p.Negative() && p != v && Supersedes(w, p);
    var j := FileOf(files, w);
    RunnerUpIsLate(files, names, k, j, incoming, revision);
    assert Withdraws(s, v, w, p, revision);
    assert TakesOver(files, k, j, p, incoming, revision);
  }

  lemma TakenOverUnmasks(files: Files, k: nat, incoming: string, revision: Revision)
    requires Readable(files) && k < |files| && TakenOver(files, k, incoming, revision)
    ensures Unmasks(Native(files), files[k].content.value, revision)
    ensures files[k].content.value in Native(files)
  {
    var j: nat, p :| j < |files| && TakesOver(files, k, j, p, incoming, revision);
    assert Withdraws(Native(files), files[k].content.value, files[j].content.value, p, revision);
  }

  // Exactly when pruning keeps every protected negative both stored and selected: unless the
  // incoming record, or one simultaneous with the victim, takes over the victim's scope.
  lemma PruneKeepsProtectedExactly(files: Files, names: Record -> string, incoming: string, revision: Revision, k: nat)
    requires Stamped(files, names) && |files| > MAX_STORED && PruneError(files, incoming, revision).None?
    requires IsVictim(files, k, incoming, revision)
    ensures ProtectionKept(files, Without(files, k), revision) <==> !TakenOver(files, k, incoming, revision)
  {
    ForgettingKeepsProtected(files, k, incoming, revision);
    RecordForgotten(files, names, k);
    if TakenOver(files, k, incoming, revision) {
      TakenOverUnmasks(files, k, incoming, revision);
    } else if Unmasks(Native(files), files[k].content.value, revision) {
      UnmaskedIsTakenOver(files, names, k, incoming, revision);
    }
  }

  lemma FileOf(files: Files, r: Record) returns (j: nat)
    requires r in Stored(files)
    ensures j < |files| && files[j].content == Some(r)
  {
    var f :| f in files && f.content == Some(r);
    j :| 0 <= j < |files| && files[j] == f;
  }

  // No unbacked Pass shares its time with another record of its scope.
  ghost predicate Untied(s: set<Record>) {
    forall v, w :: v in s && w in s && UnbackedPass(v) && w != v && ScopeOf(w) == ScopeOf(v) ==>
      w.timestamp != v.timestamp
  }

  // No record under the name `incoming` comes in behind an unbacked Pass of its scope.
  ghost predicate Prompt(files: Files, incoming: string) {
    forall f, v :: f in files && f.name == incoming && f.content.Some? && v in Stored(files) && UnbackedPass(v) ==>
      ScopeOf(f.content.value) == ScopeOf(v) ==> f.content.value.timestamp >= v.timestamp
  }

  // Whatever its Passes are backed by, a store loses no protected negative to a record that
  // comes in order.
  lemma PruneKeepsProtected(files: Files, names: Record -> string, incoming: string, revision: Revision, after: Files)
    requires Stamped(files, names) && Pruned(files, incoming, revision, after)
    requires Untied(Stored(files)) && Prompt(files, incoming)
    ensures ProtectionKept(files, after, revision)
  {
    if |files| > MAX_STORED {
      var k: nat :| IsVictim(files, k, incoming, revision) && after == Without(files, k);
      PruneKeepsProtectedExactly(files, names, incoming, revision, k);
      forall j: nat, p | j < |files| ensures !TakesOver(files, k, j, p, incoming, revision) {
        NoTakeover(files, k, j, p, incoming, revision);
      }
    }
  }

  lemma NoTakeover(files: Files, k: nat, j: nat, p: Record, incoming: string, revision: Revision)
    requires Readable(files) && k < |files| && j < |files| && Untied(Stored(files)) && Prompt(files, incoming)
    ensures !TakesOver(files, k, j, p, incoming, revision)
  {
    var (v, w) := (files[k].content.value, files[j].content.value);
    assert files[j] in files && files[k] in files;
    if RunnerUp(w, v, Native(files), revision) && v in Current(Native(files), revision) && UnbackedPass(v) {
      assert w.timestamp != v.timestamp && !Beats(w, v);
    }
  }

  // ---- Runs of appends ------------------------------------------------------

  ghost predicate Settled(p: Record, e: Record, outcome: Result<(), StoreError>) {
    outcome.Success? && e.authority != SelfReported && Answers(e, p)
  }

  // The store while one more record is in it.
  function Appended(before: Files, e: Record, names: Record -> string): Files {
    Add(before, File(names(e), Some(e)))
  }

  // A record that does not answer a protected negative leaves it selected.
  lemma AppendKeepsProtected(before: Files, e: Record, names: Record -> string, p: Record)
    requires Protected(p, before, e.revision) && !Settled(p, e, Success(()))
    ensures Protected(p, Appended(before, e, names), e.revision)
  {
    var appended := Appended(before, e, names);
    StoredAdded(before, File(names(e), Some(e)));
    if e.authority == SelfReported {
      assert Native(appended) == Native(before);
    } else {
      assert Native(appended) == Native(before) + {e};
      if p in Current(Native(before), e.revision) {
        AdditionAnswers(Native(before), e, p, e.revision);
      }
    }
  }

  // What forgetting `v` does to one selected negative.
  lemma ForgettingOne(s: set<Record>, v: Record, p: Record, revision: Revision)
    requires p in Current(s, revision) && p != v
    ensures p in Current(s - {v}, revision) <==>
              !exists w :: w in Leaders(s - {v}, revision) && Supersedes(w, p)
  {
    assert Leads(p, s - {v}, revision);
  }

  lemma NegativeLost(files: Files, names: Record -> string, k: nat, incoming: string, revision: Revision, p: Record)
    requires Stamped(files, names) && Readable(files) && IdsIdentify(Stored(files))
    requires IsVictim(files, k, incoming, revision) && Protected(p, files, revision)
    requires !Protected(p, Without(files, k), revision)
    ensures exists j: nat :: j < |files| && TakesOver(files, k, j, p, incoming, revision)
  {
    var (s, v) := (Native(files), files[k].content.value);
    NativeWithout(files, k);
    assert p != v && p in Current(s, revision) && p !in Current(s - {v}, revision);
    ForgettingOne(s, v, p, revision);
    var w :| w in Leaders(s - {v}, revision) && Supersedes(w, p);
    NewSupersession(s, v, w, p, revision);
    var j := FileOf(files, w);
    RunnerUpIsLate(files, names, k, j, incoming, revision);
    PassIsUnbacked(files, k, incoming, revision);
    assert Withdraws(s, v, w, p, revision);
    assert TakesOver(files, k, j, p, incoming, revision);
  }

  lemma NegativeTaken(
    files: Files, names: Record -> string, k: nat, j: nat, incoming: string, revision: Revision, p: Record)
    requires Stamped(files, names) && Readable(files) && k < |files| && j < |files|
    requires TakesOver(files, k, j, p, incoming, revision)
    ensures !Protected(p, Without(files, k), revision)
  {
    var (s, v, w) := (Native(files), files[k].content.value, files[j].content.value);
    assert Withdraws(s, v, w, p, revision);
    NativeWithout(files, k);
    RecordForgotten(files, names, k);
    ForgettingOne(s, v, p, revision);
    assert w in Leaders(s - {v}, revision) && v in s;
  }

  // Exactly when forgetting file `k` of a full store loses the negative `p`, if the incoming
  // record does not withdraw it itself: to a record simultaneous with the victim.
  lemma NegativeLostExactly(
    files: Files, names: Record -> string, k: nat, incoming: string, revision: Revision, p: Record)
    requires Stamped(files, names) && |files| > MAX_STORED && PruneError(files, incoming, revision).None?
    requires IsVictim(files, k, incoming, revision) && Protected(p, files, revision)
    requires forall f :: f in files && f.name == incoming && f.content.Some? && f.content.value in Native(files) ==>
               !Supersedes(f.content.value, p)
    ensures !Protected(p, Without(files, k), revision) <==>
              exists j: nat :: k < j < |files| && TakesOver(files, k, j, p, incoming, revision)
  {
    if !Protected(p, Without(files, k), revision) {
      NegativeLost(files, names, k, incoming, revision, p);
      var j: nat :| j < |files| && TakesOver(files, k, j, p, incoming, revision);
      assert files[j] in files;
    }
    if j: nat :| k < j < |files| && TakesOver(files, k, j, p, incoming, revision) {
      NegativeTaken(files, names, k, j, incoming, revision, p);
    }
  }

  // A victim that is current and unbacked claims Pass under an acceptance policy.
  lemma PassIsUnbacked(files: Files, k: nat, incoming: string, revision: Revision)
    requires Readable(files) && IsVictim(files, k, incoming, revision)
    requires var v := files[k].content.value; v in Current(Native(files), revision) && Unbacked(v)
    ensures UnbackedPass(files[k].content.value)
  {
    var v := files[k].content.value;
    assert !Protected(v, files, revision);
    if FamilyOf(v) == Some(DeterministicFamily) {
      DeterministicPassCovers(v);
    }
  }

  // Appending `e` to a full store forgets an unbacked Pass whose scope a simultaneous record
  // then leads, and that record withdraws `p`.
  ghost predicate TieWithdraws(before: Files, names: Record -> string, e: Record, p: Record) {
    var appended := Appended(before, e, names);
    && |appended| > MAX_STORED && Readable(appended)
    && exists k: nat, j: nat ::
         k < j < |appended| && IsVictim(appended, k, names(e), e.revision)
         && TakesOver(appended, k, j, p, names(e), e.revision)
  }

  // Exactly when one append loses a protected negative that the new record does not answer.
  lemma StepLosesExactly(
    before: Files, names: Record -> string, e: Record, size: nat, outcome: Result<(), StoreError>, after: Files,
    p: Record)
    requires Stamped(before, names) && Step(before, e, names(e), size, outcome, after)
    requires Protected(p, before, e.revision) && !Settled(p, e, outcome)
    ensures !Protected(p, after, e.revision) <==> after != before && TieWithdraws(before, names, e, p)
  {
    if after != before {
      var appended := Appended(before, e, names);
      StampedAdd(before, names, e);
      AppendKeepsProtected(before, e, names, p);
      if |appended| > MAX_STORED {
        IncomingIs(before, names, e);
        FullStepLoses(appended, names, e, p, after);
      }
    }
  }

  lemma FullStepLoses(appended: Files, names: Record -> string, e: Record, p: Record, after: Files)
    requires Stamped(appended, names) && |appended| > MAX_STORED && Pruned(appended, names(e), e.revision, after)
    requires Protected(p, appended, e.revision) && !Settled(p, e, Success(()))
    requires forall f :: f in appended && f.name == names(e) ==> f.content == Some(e)
    ensures !Protected(p, after, e.revision) <==>
              exists k: nat, j: nat :: k < j < |appended| && IsVictim(appended, k, names(e), e.revision)
                                       && TakesOver(appended, k, j, p, names(e), e.revision)
  {
    var k: nat :| IsVictim(appended, k, names(e), e.revision) && after == Without(appended, k);
    NegativeLostExactly(appended, names, k, names(e), e.revision, p);
    if l: nat, j: nat :| l < j < |appended| && IsVictim(appended, l, names(e), e.revision)
                         && TakesOver(appended, l, j, p, names(e), e.revision) {
      VictimUnique(appended, k, l, names(e), e.revision);
    }
  }

  // One append keeps a protected negative selected, unless the new record answers it.
  lemma StepKeepsProtected(
    before: Files, names: Record -> string, e: Record, size: nat, outcome: Result<(), StoreError>, after: Files,
    p: Record)
    requires Stamped(before, names) && Step(before, e, names(e), size, outcome, after)
    requires Untied(Stored(before)) && Protected(p, before, e.revision)
    ensures Protected(p, after, e.revision) || Settled(p, e, outcome)
  {
    if !Settled(p, e, outcome) {
      StepLosesExactly(before, names, e, size, outcome, after, p);
      if after != before && TieWithdraws(before, names, e, p) {
        var appended := Appended(before, e, names);
        var k: nat, j: nat :| k < j < |appended| && IsVictim(appended, k, names(e), e.revision)
                              && TakesOver(appended, k, j, p, names(e), e.revision);
        OldTies(before, names, e, k, j, p);
      }
    }
  }

  lemma IncomingIs(before: Files, names: Record -> string, e: Record)
    requires Named(before, names(e)).None?
    ensures forall f :: f in Appended(before, e, names) && f.name == names(e) ==> f.content == Some(e)
  {
    AddContents(before, File(names(e), Some(e)));
  }

  lemma StoredBefore(before: Files, names: Record -> string, e: Record, i: nat)
    requires i < |Appended(before, e, names)| && Appended(before, e, names)[i].content.Some?
    requires Appended(before, e, names)[i].name != names(e)
    ensures Appended(before, e, names)[i].content.value in Stored(before)
  {
    AddContents(before, File(names(e), Some(e)));
    assert Appended(before, e, names)[i] in Appended(before, e, names);
  }

  // A tie takes two stored records.
  lemma OldTies(before: Files, names: Record -> string, e: Record, k: nat, j: nat, p: Record)
    requires Named(before, names(e)).None? && Untied(Stored(before))
    requires k < |Appended(before, e, names)| && j < |Appended(before, e, names)|
    requires Readable(Appended(before, e, names))
    requires Appended(before, e, names)[k].name != names(e) && (e.authority != SelfReported ==> !Supersedes(e, p))
    ensures !TakesOver(Appended(before, e, names), k, j, p, names(e), e.revision)
  {
    var appended := Appended(before, e, names);
    var (v, w) := (appended[k].content.value, appended[j].content.value);
    StoredBefore(before, names, e, k);
    if appended[j].name == names(e) {
      IncomingIs(before, names, e);
      assert appended[j] in appended;
    } else {
      StoredBefore(before, names, e, j);
    }
  }

  datatype Append = Append(record: Record, size: nat, outcome: Result<(), StoreError>)

  // `states[i + 1]` results from appending `appends[i]` to `states[i]`.
  ghost predicate Run(states: seq<Files>, appends: seq<Append>, names: Record -> string) {
    |states| == |appends| + 1
    && forall i :: 0 <= i < |appends| ==>
         var a := appends[i];
         Step(states[i], a.record, names(a.record), a.size, a.outcome, states[i + 1])
  }

  // Every record a run has to do with.
  function Involved(files: Files, appends: seq<Append>): set<Record> {
    Stored(files) + set a | a in appends :: a.record
  }

  lemma StepStored(
    before: Files, names: Record -> string, e: Record, size: nat, outcome: Result<(), StoreError>, after: Files)
    requires Stamped(before, names) && Step(before, e, names(e), size, outcome, after)
    ensures Stamped(after, names) && Stored(after) <= Stored(before) + {e}
  {
    if after != before {
      var appended := Appended(before, e, names);
      StoredAdded(before, File(names(e), Some(e)));
      StampedAdd(before, names, e);
      if |appended| > MAX_STORED {
        var k: nat :| IsVictim(appended, k, names(e), e.revision) && after == Without(appended, k);
        StampedWithout(appended, names, k);
        WithoutMembers(appended, k);
      }
    }
  }

  ghost predicate Answered(p: Record, appends: seq<Append>, n: nat)
    requires n <= |appends|
  {
    exists i :: 0 <= i < n && Settled(p, appends[i].record, appends[i].outcome)
  }

  lemma {:induction false} RunStored(states: seq<Files>, names: Record -> string, appends: seq<Append>, n: nat)
    requires Run(states, appends, names) && Stamped(states[0], names) && n <= |appends|
    ensures Stamped(states[n], names) && Stored(states[n]) <= Involved(states[0], appends)
  {
    if n > 0 {
      RunStored(states, names, appends, n - 1);
      var a := appends[n - 1];
      StepStored(states[n - 1], names, a.record, a.size, a.outcome, states[n]);
    }
  }

  ghost predicate NoTieWithdraws(
    p: Record, states: seq<Files>, appends: seq<Append>, names: Record -> string, n: nat)
    requires n <= |appends| && n <= |states|
  {
    forall i :: 0 <= i < n ==> !TieWithdraws(states[i], names, appends[i].record, p)
  }

  // However long the run, a negative of the revision under work stays selected until an
  // accepted native record answers it, unless a record simultaneous with a forgotten one
  // withdraws it.
  lemma {:induction false} NegativeInRun(
    states: seq<Files>, names: Record -> string, appends: seq<Append>, revision: Revision, p: Record, n: nat)
    requires Run(states, appends, names) && Stamped(states[0], names) && n <= |appends|
    requires Protected(p, states[0], revision) && forall a :: a in appends ==> a.record.revision == revision
    requires NoTieWithdraws(p, states, appends, names, n)
    ensures Answered(p, appends, n) || Protected(p, states[n], revision)
  {
    if n > 0 {
      NegativeInRun(states, names, appends, revision, p, n - 1);
      RunStored(states, names, appends, n - 1);
      if !Answered(p, appends, n - 1) {
        NegativeInStep(states, names, appends, p, n - 1);
      }
    }
  }

  lemma NegativeInStep(
    states: seq<Files>, names: Record -> string, appends: seq<Append>, p: Record, i: nat)
    requires Run(states, appends, names) && i < |appends| && Stamped(states[i], names)
    requires Protected(p, states[i], appends[i].record.revision)
    requires !TieWithdraws(states[i], names, appends[i].record, p)
    ensures Answered(p, appends, i + 1) || Protected(p, states[i + 1], appends[i].record.revision)
  {
    var a := appends[i];
    if !Settled(p, a.record, a.outcome) {
      StepLosesExactly(states[i], names, a.record, a.size, a.outcome, states[i + 1], p);
    }
  }

  // Without ties there is nothing to withdraw it, whatever the Passes are backed by.
  lemma {:induction false} NegativeOutlivesRun(
    states: seq<Files>, names: Record -> string, appends: seq<Append>, revision: Revision, p: Record, n: nat)
    requires Run(states, appends, names) && Stamped(states[0], names) && n <= |appends|
    requires Protected(p, states[0], revision) && forall a :: a in appends ==> a.record.revision == revision
    requires Untied(Involved(states[0], appends))
    ensures Answered(p, appends, n) || Protected(p, states[n], revision)
  {
    if n > 0 {
      NegativeOutlivesRun(states, names, appends, revision, p, n - 1);
      var a := appends[n - 1];
      RunStored(states, names, appends, n - 1);
      if !Answered(p, appends, n - 1) {
        StepKeepsProtected(states[n - 1], names, a.record, a.size, a.outcome, states[n], p);
      }
    }
  }

  // The store never exceeds its bound, and an accepted record is in it.
  lemma StepBounded(
    before: Files, e: Record, name: string, size: nat, outcome: Result<(), StoreError>, after: Files)
    requires Listing(before) && Step(before, e, name, size, outcome, after) && |before| <= 4096
    ensures Listing(after) && |after| <= 4096
    ensures outcome.Success? ==> File(name, Some(e)) in after
    ensures outcome.Failure? ==> after == before
  {
    if outcome.Success? && Named(before, name).None? {
      AddSorted(before, File(name, Some(e)));
      AddContents(before, File(name, Some(e)));
      var appended := Add(before, File(name, Some(e)));
      StoredAdded(before, File(name, Some(e)));
      if |appended| > MAX_STORED {
        PruneForgetsOne(appended, name, e.revision, after);
      }
    }
  }

  // ---- The store ------------------------------------------------------------

  method Conflicting(records: seq<Record>) returns (clash: bool)
    ensures clash <==> !IdsIdentify(Sorting.Elements(records))
  {
    var byId: map<string, Record> := map[];
    for i := 0 to |records|
      invariant forall id :: id in byId ==> byId[id] in records[..i] && byId[id].id == id
      invariant forall r :: r in records[..i] ==> r.id in byId && byId[r.id] == r
    {
      var r := records[i];
      assert r in Sorting.Elements(records);
      if r.id in byId && byId[r.id] != r {
        assert byId[r.id] in Sorting.Elements(records);
        return true;
      }
      byId := byId[r.id := r];
    }
    assert records[..|records|] == records;
    return false;
  }

  method ProtectedIds(records: seq<Record>, revision: Revision, ghost files: Files) returns (ids: set<string>)
    requires Sorting.Elements(records) == Stored(files) && IdsIdentify(Stored(files))
    ensures forall r :: r in records ==> (r.id in ids <==> Protected(r, files, revision))
  {
    var native: seq<Record> := [];
    for i := 0 to |records|
      invariant forall r :: r in native <==> r in records[..i] && r.authority != SelfReported
    {
      assert records[..i + 1] == records[..i] + [records[i]];
      if records[i].authority != SelfReported {
        native := native + [records[i]];
      }
    }
    assert records[..|records|] == records;
    assert Sorting.Elements(native) == Native(files);
    var effective := LatestCurrent(native, revision);
    var standing := set r | r in native && Standing(r, revision);
    ids := set r: Record | r in effective + standing && r.Negative() :: r.id;
    forall r | r in records ensures r.id in ids <==> Protected(r, files, revision) {
      assert r in Sorting.Elements(records);
      if r.id in ids {
        var o: Record :| o in effective + standing && o.Negative() && o.id == r.id;
        assert o in Sorting.Elements(native);
        assert o == r;
      }
    }
  }

  // One pass over the listing: the first reclaimable file ends it, the first other
  // unprotected file is remembered as a fallback.
  method PickVictim(
    files: Files, records: seq<Record>, incoming: string, protectedIds: set<string>, revision: Revision)
    returns (victim: Option<nat>)
    requires |records| == |files| && forall i :: 0 <= i < |files| ==> files[i].content == Some(records[i])
    requires forall i :: 0 <= i < |files| ==>
               (records[i].id in protectedIds <==> Protected(records[i], files, revision))
    ensures victim.Some? ==> IsVictim(files, victim.value, incoming, revision)
    ensures victim.None? <==> forall f :: f in files ==> f.content.Some? && Kept(f, files, incoming, revision)
  {
    var fallback: Option<nat> := None;
    for k := 0 to |files|
      invariant forall j :: 0 <= j < k && Reclaimable(records[j], revision) ==>
        Kept(files[j], files, incoming, revision)
      invariant fallback.None? ==> forall j :: 0 <= j < k ==> Kept(files[j], files, incoming, revision)
      invariant fallback.Some? ==>
        fallback.value < |files| && !Kept(files[fallback.value], files, incoming, revision)
        && !Reclaimable(records[fallback.value], revision)
        && forall j :: 0 <= j < fallback.value ==> Kept(files[j], files, incoming, revision)
    {
      if files[k].name == incoming || records[k].id in protectedIds {
        continue;
      }
      if Reclaimable(records[k], revision) {
        return Some(k);
      }
      if fallback.None? {
        fallback := Some(k);
      }
    }
    return fallback;
  }

  class Store {
    var files: Files
    const names: Record -> string
    const size: Record -> nat       // the encoded size

    ghost predicate Valid()
      reads this
    {
      Stamped(files, names)
    }

    constructor (digest: Record -> string, size: Record -> nat)
      ensures Valid() && files == [] && names == NamesBy(digest) && this.size == size
    {
      NamingLaw(digest);
      names, this.size, files := NamesBy(digest), size, [];
    }

    method Persist(e: Record) returns (outcome: Result<(), StoreError>)
      requires Valid()
      modifies `files
      ensures Valid() && Step(old(files), e, names(e), size(e), outcome, files)
    {
      if !e.Valid() { return Failure(InvalidRecord); }
      if size(e) > MAX_BYTES { return Failure(TooLarge); }
      var name := names(e);
      var at := Named(files, name);
      if at.Some? {
        if files[at.value].content.None? { return Failure(Unreadable); }
        if files[at.value].content.value != e { return Failure(NameConflict); }
        return Success(());
      }
      var rollback := files;
      StampedAdd(files, names, e);
      files := Add(files, File(name, Some(e)));
      outcome := Prune(name, e.revision);
      if outcome.Failure? {
        files := rollback;
      }
    }

    method Prune(incoming: string, revision: Revision) returns (outcome: Result<(), StoreError>)
      requires Valid()
      modifies `files
      ensures match PruneError(old(files), incoming, revision)
              case Some(error) => outcome == Failure(error) && files == old(files)
              case None => outcome == Success(()) && Pruned(old(files), incoming, revision, files)
      ensures Valid()
    {
      if |files| <= MAX_STORED { return Success(()); }
      if |files| > MAX_STORED + 1 { return Failure(Enumeration); }
      var records: seq<Record> := [];
      for i := 0 to |files|
        invariant |records| == i && forall j :: 0 <= j < i ==> files[j].content == Some(records[j])
      {
        if files[i].content.None? { return Failure(Unreadable); }
        records := records + [files[i].content.value];
      }
      assert Sorting.Elements(records) == Stored(files) by {
        forall r | r in Stored(files) ensures r in records {
          var f :| f in files && f.content == Some(r);
          var i :| 0 <= i < |files| && files[i] == f;
          assert records[i] == r;
        }
        forall r | r in records ensures r in Stored(files) {
          var i :| 0 <= i < |records| && records[i] == r;
          assert files[i].content == Some(r);
        }
      }
      var clash := Conflicting(records);
      if clash { return Failure(IdConflict); }
      var protectedIds := ProtectedIds(records, revision, files);
      assert forall i :: 0 <= i < |files| ==>
               (records[i].id in protectedIds <==> Protected(records[i], files, revision));
      var victim := PickVictim(files, records, incoming, protectedIds, revision);
      if victim.None? { return Failure(Full); }
      StampedWithout(files, names, victim.value);
      files := files[..victim.value] + files[victim.value + 1..];
      return Success(());
    }
  }
}
