// Full listings in which pruning does lose a current failure: an acceptance Pass that its
// receipt does not back is forgotten, and a covering run of its scope that it hid withdraws
// an earlier failure.
module EvidenceLosses {
  import opened Wrappers
  import opened Evidence
  import opened EvidenceSelection
  import opened EvidenceStore
  import opened Directory
  import Text
  import Sorting

  const CODE: Revision := Revision(None, "code")

  function SampleCheck(): (c: Check)
    ensures c.Valid() && c.id == "a"
  {
    var zeros := seq(64, _ => '0');
    assert Text.ValidId("a", 160) by { assert !Text.IsWhitespace("a"[0]); }
    Check("a", "sha256:" + zeros)
  }

  function Sample(id: string, timestamp: Text.Stamp, level: string, result: Outcome, runs: seq<CheckRun>): Record {
    Record(id, "change:code", Verification, "mesh", None, CODE, result, Deterministic, NativeVerification,
           Some("acceptance/" + level + "/v2"), [], Some(Receipt(1, level, [SampleCheck()], runs, [])), timestamp, "")
  }

  function EarlierFailure(): Record {
    Sample("p", 1, "quick", Fail, [CheckRun(SampleCheck(), Fail, Executed)])
  }

  function SkippedPass(): Record {
    Sample("v", 3, "full", Pass, [])
  }

  // A run that does cover the check, at time 2 or together with the skipped one.
  function HiddenPass(timestamp: Text.Stamp): Record {
    Sample("h", timestamp, "full", Pass, [CheckRun(SampleCheck(), Pass, Executed)])
  }

  // An approval, which the selection does not read.
  function Filler(i: nat, id: string): Record
    requires i <= MAX_STORED
  {
    Record(id, "change:code", HumanApproval, "operator", None, CODE, Pass, High, LocalOperator,
           None, [], None, i + 4, "")
  }

  function FillerId(i: nat): string {
    "f" + Text.Padded(i, 20)
  }

  ghost predicate Numbers(ids: nat -> string) {
    (forall i: nat :: i <= MAX_STORED ==> |ids(i)| == 21 && Text.ValidId(ids(i), 160))
    && forall i: nat, j: nat :: i < j <= MAX_STORED ==> ids(i) != ids(j)
  }

  // ---- The samples ------------------------------------------------------------

  lemma SampleTyped(id: string, timestamp: Text.Stamp, level: string, result: Outcome, runs: seq<CheckRun>)
    requires level == "quick" || level == "full"
    requires |runs| <= 1 && forall r :: r in runs ==> r.check == SampleCheck()
    ensures Sample(id, timestamp, level, result, runs).receipt.value.Valid()
    ensures FamilyOf(Sample(id, timestamp, level, result, runs)) == Some(AcceptanceFamily)
  {
    var r := Sample(id, timestamp, level, result, runs);
    assert r.receipt.value.Valid();
    assert r.policy.value[0] == 'a' && ("deterministic/" + level + "/v2")[0] == 'd';
  }

  lemma SampleScopes(t: Text.Stamp)
    ensures ScopeOf(SkippedPass()) == ScopeOf(HiddenPass(t)) != ScopeOf(EarlierFailure())
  {
    SampleTyped("v", 3, "full", Pass, []);
    SampleTyped("h", t, "full", Pass, [CheckRun(SampleCheck(), Pass, Executed)]);
    assert ScopeOf(EarlierFailure()).receipt.value.level == "quick";
  }

  lemma HiddenSupersedes(t: Text.Stamp)
    requires t == 2 || t == 3
    ensures Supersedes(HiddenPass(t), EarlierFailure())
  {
    var c := SampleCheck();
    var run := CheckRun(c, Pass, Executed);
    SampleTyped("h", t, "full", Pass, [run]);
    SampleTyped("p", 1, "quick", Fail, [CheckRun(c, Fail, Executed)]);
    assert run in [run] && c in [c];
  }

  lemma SkippedSupersedesNothing()
    ensures !Supersedes(SkippedPass(), EarlierFailure()) && !Supersedes(EarlierFailure(), SkippedPass())
  {
    var c := SampleCheck();
    SampleTyped("p", 1, "quick", Fail, [CheckRun(c, Fail, Executed)]);
    assert EarlierFailure().receipt.value.required[0] == c && SkippedPass().receipt.value.runs == [];
  }

  lemma SkippedBeatsHidden(t: Text.Stamp)
    requires t == 2 || t == 3
    ensures Beats(SkippedPass(), HiddenPass(t))
  {
    assert "h"[0] < "v"[0];
  }

  lemma SampleIds(t: Text.Stamp)
    ensures SkippedPass().id != HiddenPass(t).id && HiddenPass(t).id != EarlierFailure().id
    ensures EarlierFailure().id != SkippedPass().id
  {
    assert "h"[0] != "v"[0] && "p"[0] != "v"[0] && "p"[0] != "h"[0];
  }

  // A record `skipped` that hides `hidden`, which withdraws the negative `failed`.
  datatype Trio = Trio(skipped: Record, hidden: Record, failed: Record) {
    function All(): set<Record> {
      {skipped, hidden, failed}
    }

    predicate Distinct() {
      && skipped.id != hidden.id && hidden.id != failed.id && failed.id != skipped.id
      && |skipped.id| == |hidden.id| == |failed.id| == 1
    }

    predicate Answering() {
      && ScopeOf(skipped) == ScopeOf(hidden) != ScopeOf(failed) && Beats(skipped, hidden)
      && !Supersedes(skipped, failed) && !Supersedes(failed, skipped) && Supersedes(hidden, failed)
    }

    predicate Timed() {
      failed.timestamp == 1 && skipped.timestamp == 3 && 2 <= hidden.timestamp <= 3
    }

    predicate Counting() {
      && skipped.result == Pass && failed.result == Fail
      && forall r :: r in All() ==> Eligible(r, CODE) && !Reclaimable(r, CODE) && r.authority == NativeVerification
    }

    predicate Fits() {
      Distinct() && Timed() && Counting() && Answering()
    }
  }

  function Samples(t: Text.Stamp): Trio {
    Trio(SkippedPass(), HiddenPass(t), EarlierFailure())
  }

  lemma SamplesAnswer(t: Text.Stamp)
    requires t == 2 || t == 3
    ensures Samples(t).Answering()
  {
    SampleScopes(t);
    HiddenSupersedes(t);
    SkippedSupersedesNothing();
    SkippedBeatsHidden(t);
  }

  lemma SamplesFit(t: Text.Stamp)
    requires t == 2 || t == 3
    ensures Samples(t).Fits()
  {
    SamplesAnswer(t);
    SampleIds(t);
  }

  // ---- What is selected ---------------------------------------------------------

  lemma HiddenLeaders(c: Trio)
    requires c.Distinct() && c.Counting() && c.Answering()
    ensures Leaders(c.All(), CODE) == {c.skipped, c.failed}
    ensures c.hidden in Leaders(c.All() - {c.skipped}, CODE)
  {
    BeatsTotal(c.skipped, c.skipped);
    BeatsTotal(c.hidden, c.hidden);
    BeatsTotal(c.failed, c.failed);
    BeatsTotal(c.skipped, c.hidden);
  }

  // Deleting the skipped Pass from the three withdraws the failure.
  lemma UnbackedPassLosesNegative(c: Trio)
    requires c.Distinct() && c.Counting() && c.Answering()
    ensures c.failed in Current(c.All(), CODE) && c.failed !in Current(c.All() - {c.skipped}, CODE)
  {
    HiddenLeaders(c);
    assert SupersededIn(c.failed, Leaders(c.All() - {c.skipped}, CODE));
  }

  // ---- The listings ---------------------------------------------------------------

  // The failure, the other two in the order of their names, and fillers.
  function Records(c: Trio, fillers: nat, ids: nat -> string): seq<Record>
    requires fillers <= MAX_STORED
  {
    [c.failed] + (if c.hidden.timestamp < 3 then [c.hidden, c.skipped] else [c.skipped, c.hidden])
    + seq(fillers, i requires 0 <= i < fillers => Filler(i, ids(i)))
  }

  // Where the skipped Pass stands in it.
  function SkippedAt(c: Trio): nat {
    if c.hidden.timestamp < 3 then 2 else 1
  }

  // What is used of the fillers.
  predicate Fills(r: Record, i: nat) {
    |r.id| == 21 && r.timestamp == i + 1 && r.kind == HumanApproval && r.authority == LocalOperator
    && r.revision == CODE
  }

  predicate Arranged(records: seq<Record>, c: Trio) {
    && |records| >= 3 && records[0] == c.failed
    && records[SkippedAt(c)] == c.skipped && records[3 - SkippedAt(c)] == c.hidden
    && forall i :: 3 <= i < |records| ==> Fills(records[i], i)
  }

  predicate IdsDiffer(records: seq<Record>) {
    forall i, j :: 0 <= i < j < |records| ==> records[i].id != records[j].id
  }

  function FilesOf(records: seq<Record>, names: Record -> string): (files: Files)
    ensures |files| == |records|
    ensures forall i :: 0 <= i < |files| ==> files[i] == File(names(records[i]), Some(records[i]))
  {
    seq(|records|, i requires 0 <= i < |records| => File(names(records[i]), Some(records[i])))
  }

  lemma PlainId(s: string, limit: nat)
    requires s != "" && |s| <= limit && forall k :: 0 <= k < |s| ==> '!' <= s[k] <= '~'
    ensures Text.ValidId(s, limit) && !Text.Blank(s)
  {
    assert !Text.IsWhitespace(s[0]);
  }

  lemma PaddedDiffer(i: nat, j: nat)
    requires i < j <= MAX_STORED
    ensures Text.Padded(i, 20) != Text.Padded(j, 20)
  {
    Text.StampFits();
    Text.PaddedOrder(i, j, 20);
    Text.LessIrreflexive(Text.Padded(i, 20));
  }

  lemma FillerIdsDiffer(i: nat, j: nat)
    requires i < j <= MAX_STORED
    ensures FillerId(i) != FillerId(j)
  {
    PaddedDiffer(i, j);
    assert FillerId(i)[1..] == Text.Padded(i, 20) && FillerId(j)[1..] == Text.Padded(j, 20);
  }

  lemma FillerIdIsValid(i: nat)
    ensures |FillerId(i)| == 21 && Text.ValidId(FillerId(i), 160)
  {
    var digits := Text.Padded(i, 20);
    forall k | 0 <= k < 20 ensures '!' <= digits[k] <= '~' {
      assert '0' <= digits[k] <= '9';
    }
    PlainId("f" + digits, 160);
  }

  lemma FillerIdsNumber()
    ensures Numbers(FillerId)
  {
    forall i: nat | i <= MAX_STORED ensures |FillerId(i)| == 21 && Text.ValidId(FillerId(i), 160) {
      FillerIdIsValid(i);
    }
    forall i: nat, j: nat | i < j <= MAX_STORED ensures FillerId(i) != FillerId(j) {
      FillerIdsDiffer(i, j);
    }
  }

  lemma RecordsArranged(c: Trio, fillers: nat, ids: nat -> string)
    requires fillers <= MAX_STORED && Numbers(ids)
    ensures |Records(c, fillers, ids)| == 3 + fillers && Arranged(Records(c, fillers, ids), c)
  {
  }

  lemma RecordIdsDiffer(c: Trio, fillers: nat, ids: nat -> string)
    requires c.Distinct() && fillers <= MAX_STORED && Numbers(ids)
    ensures IdsDiffer(Records(c, fillers, ids))
  {
    RecordsArranged(c, fillers, ids);
    var records := Records(c, fillers, ids);
    forall i, j | 0 <= i < j < |records| ensures records[i].id != records[j].id {
      if i >= 3 {
        assert records[i].id == ids(i - 3) && records[j].id == ids(j - 3);
      }
    }
  }

  lemma StoredRecords(records: seq<Record>, names: Record -> string)
    ensures Stored(FilesOf(records, names)) == Sorting.Elements(records)
    ensures Readable(FilesOf(records, names))
  {
    var files := FilesOf(records, names);
    forall r | r in records ensures r in Stored(files) {
      var i :| 0 <= i < |records| && records[i] == r;
      assert files[i] in files;
    }
  }

  lemma IdsIdentifyRecords(records: seq<Record>, names: Record -> string)
    requires IdsDiffer(records)
    ensures IdsIdentify(Stored(FilesOf(records, names)))
  {
    StoredRecords(records, names);
    forall a, b | a in records && b in records && a.id == b.id ensures a == b {
      var i :| 0 <= i < |records| && records[i] == a;
      var j :| 0 <= j < |records| && records[j] == b;
    }
  }

  // Names sort by time, and the skipped run before one of the same millisecond.
  ghost predicate NamedInOrder(c: Trio, names: Record -> string) {
    SortsByTime(names) && (c.hidden.timestamp == 3 ==> Text.Less(names(c.skipped), names(c.hidden)))
  }

  lemma ArrangedIsStamped(records: seq<Record>, c: Trio, names: Record -> string)
    requires c.Timed() && NamedInOrder(c, names) && Arranged(records, c)
    ensures Stamped(FilesOf(records, names), names)
  {
    var files := FilesOf(records, names);
    forall i, j | 0 <= i < j < |files| ensures Text.Less(files[i].name, files[j].name) {
      if i != 1 || j != 2 {
        assert records[i].timestamp < records[j].timestamp;
      }
    }
  }

  // The fillers are approvals: only the three samples are selected from.
  lemma EligibleSamples(records: seq<Record>, c: Trio, names: Record -> string)
    requires c.Counting() && Arranged(records, c)
    ensures var s := Native(FilesOf(records, names));
            c.All() <= s && forall r :: Eligible(r, CODE) ==> (r in s <==> r in c.All())
  {
    StoredRecords(records, names);
    forall r | Eligible(r, CODE) && r in records ensures r in c.All() {
      EligibleAreFirst(records, c, r);
    }
    assert records[0] in records && records[1] in records && records[2] in records;
  }

  lemma EligibleAreFirst(records: seq<Record>, c: Trio, r: Record)
    requires Arranged(records, c) && r in records && Eligible(r, CODE)
    ensures r in c.All()
  {
    var i :| 0 <= i < |records| && records[i] == r;
  }

  lemma SelectedFrom(records: seq<Record>, c: Trio, names: Record -> string)
    requires c.Fits() && Arranged(records, c)
    ensures var s := Native(FilesOf(records, names));
            && c.All() <= s && c.failed in Current(s, CODE) && c.failed !in Current(s - {c.skipped}, CODE)
  {
    var s := Native(FilesOf(records, names));
    EligibleSamples(records, c, names);
    EligibleDecide(s, c.All(), CODE);
    EligibleDecide(s - {c.skipped}, c.All() - {c.skipped}, CODE);
    UnbackedPassLosesNegative(c);
  }

  // The failure is protected; once the skipped Pass is forgotten it is not.
  lemma FailureStands(records: seq<Record>, c: Trio, names: Record -> string)
    requires c.Fits() && NamedInOrder(c, names) && Arranged(records, c)
    ensures var (files, k) := (FilesOf(records, names), SkippedAt(c));
            && files[k].content == Some(c.skipped) && !Protected(c.skipped, files, CODE)
            && Protected(c.failed, files, CODE) && !Protected(c.failed, Without(files, k), CODE)
  {
    var (files, k) := (FilesOf(records, names), SkippedAt(c));
    SelectedFrom(records, c, names);
    ArrangedIsStamped(records, c, names);
    NativeWithout(files, k);
    RecordForgotten(files, names, k);
  }

  // ---- Pruning does forget it ---------------------------------------------------------

  // An incoming record other than the skipped Pass; the hidden one if that is older.
  predicate ComesIn(c: Trio, names: Record -> string, incoming: string) {
    incoming != names(c.skipped) && (c.hidden.timestamp < 3 ==> incoming == names(c.hidden))
  }

  lemma NoneReclaimable(records: seq<Record>, c: Trio)
    requires c.Counting() && Arranged(records, c)
    ensures forall i :: 0 <= i < |records| ==> !Reclaimable(records[i], CODE)
  {
    forall i | 0 <= i < |records| ensures !Reclaimable(records[i], CODE) {
      if i < 3 {
        assert records[i] in c.All();
      }
    }
  }

  // With nothing reclaimable, the first file not kept is the victim.
  lemma FirstIsVictim(files: Files, k: nat, incoming: string)
    requires Readable(files) && k < |files| && !Kept(files[k], files, incoming, CODE)
    requires forall j :: 0 <= j < |files| ==> !Reclaimable(files[j].content.value, CODE)
    requires forall j :: 0 <= j < k ==> Kept(files[j], files, incoming, CODE)
    ensures IsVictim(files, k, incoming, CODE)
  {
  }

  lemma BeforeSkipped(records: seq<Record>, c: Trio, names: Record -> string, incoming: string)
    requires Arranged(records, c) && ComesIn(c, names, incoming)
    requires Protected(c.failed, FilesOf(records, names), CODE)
    ensures forall j :: 0 <= j < SkippedAt(c) ==>
              Kept(FilesOf(records, names)[j], FilesOf(records, names), incoming, CODE)
  {
    var files := FilesOf(records, names);
    assert Kept(files[0], files, incoming, CODE);
    if SkippedAt(c) == 2 {
      assert files[1].name == incoming;
    }
  }

  // All files before the skipped Pass are kept.
  lemma SkippedIsVictim(records: seq<Record>, c: Trio, names: Record -> string, incoming: string)
    requires c.Counting() && Arranged(records, c) && ComesIn(c, names, incoming)
    requires Protected(c.failed, FilesOf(records, names), CODE) && !Protected(c.skipped, FilesOf(records, names), CODE)
    ensures Readable(FilesOf(records, names)) && IsVictim(FilesOf(records, names), SkippedAt(c), incoming, CODE)
  {
    StoredRecords(records, names);
    NoneReclaimable(records, c);
    BeforeSkipped(records, c, names, incoming);
    FirstIsVictim(FilesOf(records, names), SkippedAt(c), incoming);
  }

  lemma VictimIsPruned(files: Files, k: nat, incoming: string)
    requires |files| == MAX_STORED + 1 && Readable(files) && IdsIdentify(Stored(files))
    requires IsVictim(files, k, incoming, CODE)
    ensures PruneError(files, incoming, CODE).None? && Pruned(files, incoming, CODE, Without(files, k))
  {
    assert files[k] in files && !Kept(files[k], files, incoming, CODE);
  }

  lemma SkippedIsPruned(records: seq<Record>, c: Trio, names: Record -> string, incoming: string)
    requires c.Fits() && NamedInOrder(c, names) && Arranged(records, c) && IdsDiffer(records)
    requires |records| == MAX_STORED + 1 && ComesIn(c, names, incoming)
    ensures var (files, k) := (FilesOf(records, names), SkippedAt(c));
            && Readable(files) && IsVictim(files, k, incoming, CODE)
            && PruneError(files, incoming, CODE).None? && Pruned(files, incoming, CODE, Without(files, k))
  {
    var (files, k) := (FilesOf(records, names), SkippedAt(c));
    FailureStands(records, c, names);
    SkippedIsVictim(records, c, names, incoming);
    IdsIdentifyRecords(records, names);
    VictimIsPruned(files, k, incoming);
  }

  function Listed(c: Trio, fillers: nat, names: Record -> string): Files
    requires fillers <= MAX_STORED
  {
    FilesOf(Records(c, fillers, FillerId), names)
  }

  // A run that comes in behind an unbacked Pass of its scope: the store is full, pruning picks
  // the Pass, and the failure is no longer selected.
  lemma BackdatedPassLosesFailure(names: Record -> string)
    requires SortsByTime(names)
    ensures var files := Listed(Samples(2), MAX_STORED - 2, names);
            var (incoming, failed) := (names(HiddenPass(2)), EarlierFailure());
            && Stamped(files, names) && |files| == MAX_STORED + 1 && Readable(files)
            && IsVictim(files, 2, incoming, CODE) && Pruned(files, incoming, CODE, Without(files, 2))
            && Protected(failed, files, CODE) && !Protected(failed, Without(files, 2), CODE)
  {
    var (c, n) := (Samples(2), MAX_STORED - 2);
    SamplesFit(2);
    FillerIdsNumber();
    RecordsArranged(c, n, FillerId);
    RecordIdsDiffer(c, n, FillerId);
    Backdated(Records(c, n, FillerId), c, names);
  }

  lemma Backdated(records: seq<Record>, c: Trio, names: Record -> string)
    requires c.Fits() && c.hidden.timestamp == 2 && SortsByTime(names) && Arranged(records, c) && IdsDiffer(records)
    requires |records| == MAX_STORED + 1
    ensures var (files, incoming) := (FilesOf(records, names), names(c.hidden));
            && Stamped(files, names) && Readable(files)
            && IsVictim(files, 2, incoming, CODE) && Pruned(files, incoming, CODE, Without(files, 2))
            && Protected(c.failed, files, CODE) && !Protected(c.failed, Without(files, 2), CODE)
  {
    Text.LessIrreflexive(names(c.skipped));
    ArrangedIsStamped(records, c, names);
    FailureStands(records, c, names);
    SkippedIsPruned(records, c, names, names(c.hidden));
  }

  // ---- An append that has nothing to do with it ----------------------------------------------

  lemma LastAdded(records: seq<Record>, e: Record, names: Record -> string)
    requires Stamped(FilesOf(records + [e], names), names)
    ensures Named(FilesOf(records, names), names(e)).None?
    ensures Appended(FilesOf(records, names), e, names) == FilesOf(records + [e], names)
  {
    var (files, all, name) := (FilesOf(records, names), FilesOf(records + [e], names), names(e));
    forall i | 0 <= i < |files| ensures files[i].name != name && Text.Less(files[i].name, name) {
      assert files[i] == all[i] && all[|files|].name == name;
      Text.LessIrreflexive(name);
    }
    assert Place(files, name) == |files|;
  }

  lemma FillerIsValid(i: nat, id: string)
    requires i <= MAX_STORED && Text.ValidId(id, 160)
    ensures Filler(i, id).Valid()
  {
    PlainId("change:code", 512);
    PlainId("operator", 160);
    PlainId("code", 160);
  }

  lemma FillerAnswersNothing(i: nat, id: string)
    requires i <= MAX_STORED
    ensures !Answers(Filler(i, id), EarlierFailure())
  {
    SampleTyped("p", 1, "quick", Fail, [CheckRun(SampleCheck(), Fail, Executed)]);
    assert IdentityOf(Filler(i, id)).kind != IdentityOf(EarlierFailure()).kind;
  }

  // One step of pruning, for a valid record with a name of its own.
  lemma PrunedStep(before: Files, e: Record, names: Record -> string, k: nat)
    requires e.Valid() && e.revision == CODE && Named(before, names(e)).None? && k <= |before|
    requires var files := Appended(before, e, names);
             PruneError(files, names(e), CODE).None? && Pruned(files, names(e), CODE, Without(files, k))
    ensures Step(before, e, names(e), 1, Success(()), Without(Appended(before, e, names), k))
  {
  }

  // A tie: the skipped and the covering run of one millisecond, the skipped one listed first.
  lemma TieIsPruned(records: seq<Record>, c: Trio, names: Record -> string, e: Record)
    requires c.Fits() && NamedInOrder(c, names) && c.hidden.timestamp == 3 && e.timestamp > 3 && e.Valid()
    requires e.revision == CODE && |records| == MAX_STORED
    requires Arranged(records, c) && Arranged(records + [e], c) && IdsDiffer(records + [e])
    ensures var before := FilesOf(records, names);
            var after := Without(Appended(before, e, names), 1);
            && Stamped(before, names) && Step(before, e, names(e), 1, Success(()), after)
            && Protected(c.failed, before, CODE) && !Protected(c.failed, after, CODE)
  {
    ArrangedIsStamped(records, c, names);
    ArrangedIsStamped(records + [e], c, names);
    LastAdded(records, e, names);
    FailureStands(records, c, names);
    FailureStands(records + [e], c, names);
    assert Text.Less(names(c.skipped), names(e));
    Text.LessIrreflexive(names(e));
    SkippedIsPruned(records + [e], c, names, names(e));
    PrunedStep(FilesOf(records, names), e, names, 1);
  }

  lemma NextFiller(c: Trio, n: nat, ids: nat -> string)
    requires n < MAX_STORED
    ensures Records(c, n, ids) + [Filler(n, ids(n))] == Records(c, n + 1, ids)
  {
  }

  // Then any append to the full store, here of an approval, loses the failure although nothing
  // answered it.
  lemma TiedPassLosesFailure(names: Record -> string)
    requires SortsByTime(names) && Text.Less(names(SkippedPass()), names(HiddenPass(3)))
    ensures var n := MAX_STORED - 3;
            var (before, e) := (Listed(Samples(3), n, names), Filler(n, FillerId(n)));
            var after := Without(Appended(before, e, names), 1);
            && Stamped(before, names) && Step(before, e, names(e), 1, Success(()), after)
            && Protected(EarlierFailure(), before, CODE) && !Protected(EarlierFailure(), after, CODE)
            && !Settled(EarlierFailure(), e, Success(()))
  {
    var (c, n) := (Samples(3), MAX_STORED - 3);
    SamplesFit(3);
    FillerIdsNumber();
    RecordsArranged(c, n, FillerId);
    RecordsArranged(c, n + 1, FillerId);
    RecordIdsDiffer(c, n + 1, FillerId);
    NextFiller(c, n, FillerId);
    FillerIsValid(n, FillerId(n));
    TieIsPruned(Records(c, n, FillerId), c, names, Filler(n, FillerId(n)));
    FillerAnswersNothing(n, FillerId(n));
  }
}
