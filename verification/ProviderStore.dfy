// The store of provider imports: loading the newest import of each provider, with a table
// of hints that spares reading records already known to be superseded.
module ProviderStore {
  import opened Wrappers
  import opened Sorting
  import Text

  const MAX_PROVIDER_HINTS: nat := 1024
  const PROVIDER_READ_BATCH: nat := 4

  // A stored import; `rest` stands for what was imported.
  datatype Stored = Stored(provider: string, importedAt: nat, rest: int)

  // A record file as one load finds it: its identity stamp before and after reading, where
  // one is available, and its content, unless that is unreadable or fails validation.
  datatype RecordFile = RecordFile(name: string, stamp: Option<int>, stampAfter: Option<int>, content: Option<Stored>)

  datatype Hint = Hint(stamp: int, provider: string, importedAt: nat)

  datatype Outcome = Nothing | Record(stored: Stored) | Changed

  // ---- The newest record of each provider ----------------------------------------------

  function Merge(latest: map<string, Stored>, content: Option<Stored>): map<string, Stored> {
    match content
    case None => latest
    case Some(s) =>
      if s.provider !in latest || latest[s.provider].importedAt < s.importedAt then latest[s.provider := s] else latest
  }

  // Reading every file from `from` on, last name first.
  function Newest(files: seq<RecordFile>, from: nat): map<string, Stored>
    requires from <= |files|
    decreases |files| - from
  {
    if from == |files| then map[] else Merge(Newest(files, from + 1), files[from].content)
  }

  predicate Holds(f: RecordFile, provider: string) {
    f.content.Some? && f.content.value.provider == provider
  }

  // The record of `provider` with the latest time among the files from `from` on; of several,
  // the one with the greatest name.
  predicate Wins(files: seq<RecordFile>, from: nat, provider: string, k: nat) {
    && from <= k < |files| && Holds(files[k], provider)
    && forall j :: from <= j < |files| && Holds(files[j], provider) ==>
         || files[j].content.value.importedAt < files[k].content.value.importedAt
         || (files[j].content.value.importedAt == files[k].content.value.importedAt && j <= k)
  }

  predicate SomeHolds(files: seq<RecordFile>, from: nat, provider: string) {
    exists j :: from <= j < |files| && Holds(files[j], provider)
  }

  ghost predicate WonBy(files: seq<RecordFile>, from: nat, provider: string, stored: Stored) {
    exists k: nat :: Wins(files, from, provider, k) && files[k].content == Some(stored)
  }

  lemma {:induction false} NewestWins(files: seq<RecordFile>, from: nat, provider: string)
    requires from <= |files|
    ensures provider in Newest(files, from) <==> SomeHolds(files, from, provider)
    ensures provider in Newest(files, from) ==> WonBy(files, from, provider, Newest(files, from)[provider])
    decreases |files| - from
  {
    if from < |files| {
      NewestWins(files, from + 1, provider);
      var rest := Newest(files, from + 1);
      if Holds(files[from], provider)
         && (provider in rest ==> rest[provider].importedAt < files[from].content.value.importedAt) {
        NewWinner(files, from, provider);
      } else if provider in rest {
        OldWinner(files, from, provider, rest[provider]);
      }
    }
  }

  lemma NewWinner(files: seq<RecordFile>, from: nat, provider: string)
    requires from < |files| && Holds(files[from], provider)
    requires SomeHolds(files, from + 1, provider) ==>
               exists s :: WonBy(files, from + 1, provider, s) && s.importedAt < files[from].content.value.importedAt
    ensures WonBy(files, from, provider, files[from].content.value)
  {
    assert Wins(files, from, provider, from);
  }

  lemma OldWinner(files: seq<RecordFile>, from: nat, provider: string, s: Stored)
    requires from < |files| && WonBy(files, from + 1, provider, s)
    requires Holds(files[from], provider) ==> s.importedAt >= files[from].content.value.importedAt
    ensures WonBy(files, from, provider, s)
  {
    var k: nat :| Wins(files, from + 1, provider, k) && files[k].content == Some(s);
    assert Wins(files, from, provider, k);
  }

  // No record is lost by reading on: what is held for a provider only gets newer.
  predicate NoOlder(before: map<string, Stored>, after: map<string, Stored>) {
    forall p :: p in before ==> p in after && before[p].importedAt <= after[p].importedAt
  }

  lemma {:induction false} NewestGrows(files: seq<RecordFile>, from: nat, before: nat)
    requires from <= before <= |files|
    ensures NoOlder(Newest(files, before), Newest(files, from))
    decreases before - from
  {
    if from < before {
      NewestGrows(files, from + 1, before);
    }
  }

  // ---- Hints ------------------------------------------------------------------

  // A hint about a file that still has the hinted stamp tells its provider and time.
  predicate Truthful(hints: map<string, Hint>, f: RecordFile) {
    f.name in hints && f.stamp == Some(hints[f.name].stamp) ==>
      f.content.Some? && f.content.value.provider == hints[f.name].provider
      && f.content.value.importedAt == hints[f.name].importedAt
  }

  predicate Consistent(hints: map<string, Hint>, files: seq<RecordFile>) {
    forall i :: 0 <= i < |files| ==> Truthful(hints, files[i])
  }

  predicate DistinctNames(files: seq<RecordFile>) {
    forall i, j :: 0 <= i < j < |files| ==> files[i].name != files[j].name
  }

  // What a record contributes besides `latest`: it is outdone already.
  predicate Outdone(latest: map<string, Stored>, content: Option<Stored>) {
    content.Some? ==> content.value.provider in latest
                      && latest[content.value.provider].importedAt >= content.value.importedAt
  }

  // What inspecting a file may report, given what was loaded before its batch.
  predicate Faithful(latest: map<string, Stored>, f: RecordFile, outcome: Outcome) {
    match outcome
    case Nothing => Outdone(latest, f.content)
    case Record(stored) => f.content == Some(stored)
    case Changed => f.stamp.Some? && f.stampAfter != f.stamp
  }

  function FirstName(names: set<string>): (first: string)
    requires names != {}
    ensures Least(first, names, Text.Less)
  {
    Text.LessIsStrictTotal();
    var ordered := Ascending(names, Text.Less);
    FirstIsLeast(ordered, Text.Less);
    ordered[0]
  }

  // `pop_first`: the hint under the least path goes.
  function WithoutFirst(hints: map<string, Hint>): map<string, Hint>
    requires |hints| > 0
  {
    hints - {FirstName(hints.Keys)}
  }

  function Remember(hints: map<string, Hint>, name: string, hint: Hint): (after: map<string, Hint>)
    ensures name in after && after[name] == hint
    ensures forall n :: n in after && n != name ==> n in hints && after[n] == hints[n]
    ensures forall n :: n in hints && n !in after ==>
              |hints| >= 1024 && name !in hints && forall o :: o in hints ==> o == n || Text.Less(n, o)
    ensures |hints| <= 1024 ==> |after| <= 1024
  {
    if |hints| >= MAX_PROVIDER_HINTS && name !in hints then
      var kept := WithoutFirst(hints);
      assert |kept.Keys| == |hints.Keys| - 1;
      kept[name := hint]
    else
      hints[name := hint]
  }

  lemma RememberTruthful(hints: map<string, Hint>, files: seq<RecordFile>, at: nat)
    requires DistinctNames(files) && Consistent(hints, files) && at < |files|
    requires files[at].stamp.Some? && files[at].content.Some?
    ensures var f := files[at];
      var hint := Hint(f.stamp.value, f.content.value.provider, f.content.value.importedAt);
      Consistent(Remember(hints, f.name, hint), files)
  {
    var f := files[at];
    var after := Remember(hints, f.name, Hint(f.stamp.value, f.content.value.provider, f.content.value.importedAt));
    forall i | 0 <= i < |files| ensures Truthful(after, files[i]) {
      assert Truthful(hints, files[i]);
      if i != at {
        assert files[i].name != f.name;
      }
    }
  }

  class Store {
    var files: seq<RecordFile>
    // The table outlives the call and serves every workspace.
    var hints: map<string, Hint>

    predicate Valid()
      reads this
    {
      DistinctNames(files) && Consistent(hints, files) && |hints| <= MAX_PROVIDER_HINTS
    }

    // One file of a batch, against what was loaded before the batch.
    method Inspect(at: nat, latest: map<string, Stored>) returns (outcome: Outcome)
      requires Valid() && at < |files|
      modifies `hints
      ensures Valid() && Faithful(latest, files[at], outcome)
    {
      var f := files[at];
      assert Truthful(hints, f);
      if f.stamp.Some? && f.name in hints {
        var hint := hints[f.name];
        if hint.stamp == f.stamp.value && hint.provider in latest
           && latest[hint.provider].importedAt >= hint.importedAt {
          return Nothing;
        }
      }
      if f.content.None? {
        return Nothing;
      }
      var stored := f.content.value;
      if f.stamp.Some? {
        if f.stampAfter != f.stamp {
          return Changed;
        }
        RememberTruthful(hints, files, at);
        hints := Remember(hints, f.name, Hint(f.stamp.value, stored.provider, stored.importedAt));
      }
      return Record(stored);
    }

    method InspectBatch(start: nat, end: nat, latest: map<string, Stored>) returns (outcomes: seq<Outcome>)
      requires Valid() && start <= end <= |files|
      modifies `hints
      ensures Valid() && |outcomes| == end - start
      ensures forall i :: 0 <= i < |outcomes| ==> Faithful(latest, files[|files| - 1 - (start + i)], outcomes[i])
    {
      outcomes := [];
      for i := start to end
        invariant Valid() && |outcomes| == i - start
        invariant forall k :: 0 <= k < |outcomes| ==> Faithful(latest, files[|files| - 1 - (start + k)], outcomes[k])
      {
        var outcome := Inspect(|files| - 1 - i, latest);
        outcomes := outcomes + [outcome];
      }
    }

    // Whatever the hints, as long as they are consistent with the files: the newest record
    // of each provider, or the news that a file changed under the load.
    method LoadLatest() returns (result: Result<map<string, Stored>, string>)
      requires Valid()
      modifies `hints
      ensures Valid()
      ensures result.Success? ==> result.value == Newest(files, 0)
      ensures result.Failure? ==> exists f :: f in files && f.stamp.Some? && f.stampAfter != f.stamp
    {
      var latest: map<string, Stored> := map[];
      var start := 0;
      while start < |files|
        invariant Valid() && start <= |files| && latest == Newest(files, |files| - start)
      {
        var end := if start + PROVIDER_READ_BATCH <= |files| then start + PROVIDER_READ_BATCH else |files|;
        var outcomes := InspectBatch(start, end, latest);
        var failed;
        latest, failed := Absorb(files, start, latest, outcomes);
        if failed {
          return Failure("graph provider record changed while loading; retry the request");
        }
        start := end;
      }
      return Success(latest);
    }
  }

  // A skipped record would have changed nothing, even though only what was known before the
  // batch was looked at.
  method Absorb(files: seq<RecordFile>, start: nat, before: map<string, Stored>, outcomes: seq<Outcome>)
    returns (latest: map<string, Stored>, failed: bool)
    requires start + |outcomes| <= |files| && before == Newest(files, |files| - start)
    requires forall i :: 0 <= i < |outcomes| ==> Faithful(before, files[|files| - 1 - (start + i)], outcomes[i])
    ensures !failed ==> latest == Newest(files, |files| - (start + |outcomes|))
    ensures failed ==> exists f :: f in files && f.stamp.Some? && f.stampAfter != f.stamp
  {
    latest, failed := before, false;
    for i := 0 to |outcomes|
      invariant latest == Newest(files, |files| - (start + i))
    {
      var f := files[|files| - 1 - (start + i)];
      assert Faithful(before, f, outcomes[i]);
      NewestGrows(files, |files| - (start + i), |files| - start);
      match outcomes[i] {
        case Changed =>
          assert f in files;
          return latest, true;
        case Nothing =>
        case Record(stored) =>
          if stored.provider !in latest || latest[stored.provider].importedAt < stored.importedAt {
            latest := latest[stored.provider := stored];
          }
      }
    }
  }
}
