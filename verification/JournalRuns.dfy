// The journal as a store, and what it keeps over any number of records.
module JournalRuns {
  import opened Wrappers
  import opened Sorting
  import opened Directory
  import opened Journal

  // The listing after a record was persisted: pruned, added to unless it is there, pruned.
  function AfterPersist(files: seq<Entry>, x: Entry): seq<Entry> {
    if Named(Pruned(files), x.name).Some? then Pruned(files) else Pruned(Add(Pruned(files), x))
  }

  class Store {
    var files: seq<Entry>

    predicate Valid()
      reads this
    {
      Listing(files)
    }

    constructor ()
      ensures Valid() && files == []
    {
      files := [];
    }

    // The newest record first, with what each code has seen so far.
    method ScanAnchors(window: seq<Entry>) returns (retained: set<string>)
      ensures retained == ScanFrom(window, 0).retained
    {
      var seen: map<FailureCode, set<string>> := map[];
      retained := {};
      for k := |window| downto 0
        invariant Scan(seen, retained) == ScanFrom(window, k)
      {
        var f := window[k];
        if f.content.None? || !f.content.value.failed || f.content.value.eventId.None? {
          continue;
        }
        var (codes, id) := (f.content.value.codes, f.content.value.eventId.value);
        for i := 0 to |codes|
          invariant Scan(seen, retained) == NoteAll(ScanFrom(window, k + 1), f.name, codes[..i], id)
        {
          assert codes[..i + 1][..i] == codes[..i];
          var ids := SeenOf(seen, codes[i]);
          if |ids| < 2 && id !in ids {
            retained := retained + {f.name};
            ids := ids + {id};
          }
          seen := seen[codes[i] := ids];
        }
        assert codes[..|codes|] == codes;
      }
    }

    method FillRing(anchors: set<string>) returns (retained: set<string>)
      ensures retained == Fill(files, |files|, anchors)
    {
      retained := anchors;
      for k := |files| downto 0
        invariant Fill(files, |files|, anchors) == Fill(files, k, retained)
      {
        if |retained| >= MAX_ENGINEERING_MILESTONES {
          return;
        }
        retained := retained + {files[k].name};
      }
    }

    // Full or not, the listing is brought down to its capacity; only a listing beyond the
    // scan bound is refused, and left alone.
    method Prune() returns (outcome: Result<(), JournalError>)
      modifies `files
      ensures outcome == if |old(files)| > 100000 then Failure(ScanBound) else Success(())
      ensures files == if outcome.Success? then Pruned(old(files)) else old(files)
    {
      if |files| > MAX_JOURNAL_SCAN_ENTRIES {
        return Failure(ScanBound);
      }
      if |files| <= MAX_ENGINEERING_MILESTONES {
        return Success(());
      }
      var anchors := ScanAnchors(Window(files));
      var retained := FillRing(anchors);
      assert retained == Kept(files);
      var left: seq<Entry> := [];
      for i := 0 to |files|
        invariant files == old(files) && left == Select(files[..i], InKept(retained))
      {
        assert files[..i + 1][..i] == files[..i];
        if files[i].name in retained {
          left := left + [files[i]];
        }
      }
      assert files[..|files|] == files;
      files := left;
      return Success(());
    }

    // `name` and `size` are those of the encoded record.
    method Persist(e: Milestone, valid: bool, name: string, size: nat) returns (outcome: Result<(), JournalError>)
      requires Valid()
      modifies `files
      ensures Valid()
      ensures outcome == if !valid then Failure(InvalidMilestone)
                         else if |old(files)| > 100000 then Failure(ScanBound)
                         else if size > 16384 then Failure(TooLarge)
                         else Success(())
      ensures files == if outcome.Success? then AfterPersist(old(files), File(name, Some(e)))
                       else if outcome == Failure(TooLarge) then Pruned(old(files))
                       else old(files)
    {
      if !valid {
        return Failure(InvalidMilestone);
      }
      PrunedHolds(files);
      outcome := Prune();
      if outcome.Failure? {
        return;
      }
      if size > MAX_MILESTONE_BYTES {
        return Failure(TooLarge);
      }
      if Named(files, name).Some? {
        return Success(());
      }
      AddSorted(files, File(name, Some(e)));
      files := Add(files, File(name, Some(e)));
      PrunedHolds(files);
      outcome := Prune();
    }
  }

  // ---- Runs ----------------------------------------------------------------------------

  predicate Run(states: seq<seq<Entry>>, xs: seq<Entry>) {
    && |states| == |xs| + 1 && Listing(states[0])
    && forall i :: 0 <= i < |xs| ==> states[i + 1] == AfterPersist(states[i], xs[i])
  }

  // Everything a journal without bounds would hold after `i` records: what the first prune
  // looks at, and all records since.
  function Everything(states: seq<seq<Entry>>, xs: seq<Entry>, i: nat): set<Entry>
    requires states != [] && i <= |xs|
  {
    if i == 0 then Elements(Window(states[0])) else Everything(states, xs, i - 1) + {xs[i - 1]}
  }

  // The listing holds no more than its capacity and, of everything, all anchors.
  ghost predicate Holds(files: seq<Entry>, everything: set<Entry>) {
    && Listing(files) && |files| <= MAX_ENGINEERING_MILESTONES && Elements(files) <= everything
    && forall f, code :: Anchor(everything, f, code) ==> f in files
  }

  lemma FirstHolds(files: seq<Entry>)
    requires Listing(files)
    ensures Holds(Pruned(files), Elements(Window(files)))
  {
    PrunedHolds(files);
  }

  lemma PrunedTwice(files: seq<Entry>)
    requires |files| <= MAX_ENGINEERING_MILESTONES
    ensures Pruned(files) == files
  {
  }

  lemma AddElements(files: seq<Entry>, x: Entry)
    ensures Elements(Add(files, x)) == Elements(files) + {x}
  {
    AddContents(files, x);
  }

  lemma AddHolds(files: seq<Entry>, everything: set<Entry>, x: Entry)
    requires Holds(files, everything) && NamedApart(everything + {x}) && Named(files, x.name).None?
    ensures Holds(Pruned(Add(files, x)), everything + {x})
  {
    var more := Add(files, x);
    AddSorted(files, x);
    AddElements(files, x);
    PrunedHolds(more);
    forall f, code | Anchor(everything + {x}, f, code) ensures f in Pruned(more) {
      AnchorInAdded(files, everything, x, f, code);
    }
    forall f | f in Elements(Pruned(more)) ensures f in everything + {x} {
      assert f in Elements(more);
    }
  }

  lemma AnchorInAdded(files: seq<Entry>, everything: set<Entry>, x: Entry, f: Entry, code: FailureCode)
    requires Holds(files, everything) && NamedApart(everything + {x}) && Anchor(everything + {x}, f, code)
    ensures Anchor(Elements(files) + {x}, f, code)
  {
    forall g | Anchor(everything + {x}, g, code) ensures g in Elements(files) + {x} {
      AnchorsOfMore(everything, x, g, code);
    }
    AnchorsStay(everything + {x}, Elements(files) + {x}, f, code);
  }

  lemma SameHolds(files: seq<Entry>, everything: set<Entry>, x: Entry)
    requires Holds(files, everything) && NamedApart(everything + {x}) && Named(files, x.name).Some?
    ensures Holds(files, everything + {x})
  {
    var at := Named(files, x.name).value;
    assert files[at] in Elements(files);
    assert everything + {x} == everything;
  }

  lemma {:induction false} RunHolds(states: seq<seq<Entry>>, xs: seq<Entry>, i: nat)
    requires Run(states, xs) && i <= |xs| && NamedApart(Everything(states, xs, i))
    ensures Holds(Pruned(states[i]), Everything(states, xs, i))
    ensures i > 0 ==> Pruned(states[i]) == states[i]
  {
    if i == 0 {
      FirstHolds(states[0]);
    } else {
      RunHolds(states, xs, i - 1);
      var (before, everything, x) := (Pruned(states[i - 1]), Everything(states, xs, i - 1), xs[i - 1]);
      if Named(before, x.name).Some? {
        SameHolds(before, everything, x);
      } else {
        AddHolds(before, everything, x);
      }
      PrunedTwice(states[i]);
    }
  }

  // After every record of every run: at most 512 records, and for each code the same two
  // latest distinct failures as a journal that had forgotten nothing.
  lemma RunKeepsAnchors(states: seq<seq<Entry>>, xs: seq<Entry>, i: nat, f: Entry, code: FailureCode)
    requires Run(states, xs) && 0 < i <= |xs| && NamedApart(Everything(states, xs, i))
    ensures |states[i]| <= 512
    ensures Anchor(Elements(states[i]), f, code) <==> Anchor(Everything(states, xs, i), f, code)
  {
    RunHolds(states, xs, i);
    AnchorsStay(Everything(states, xs, i), Elements(states[i]), f, code);
  }

  // ---- The newest records --------------------------------------------------------------

  function NewerThan(files: set<Entry>, f: Entry): set<Entry> {
    set g | g in files && Newer(g, f)
  }

  ghost predicate HoldsNewest(files: seq<Entry>, everything: set<Entry>) {
    forall f :: f in everything && |NewerThan(everything, f)| < NEWEST_KEPT ==> f in files
  }

  // What stands behind a file is newer.
  lemma FewBehind(files: seq<Entry>, k: nat, everything: set<Entry>)
    requires Listing(files) && k < |files| && forall i :: k < i < |files| ==> files[i] in everything
    ensures |files| - 1 - k <= |NewerThan(everything, files[k])|
  {
    var behind := files[k + 1..];
    forall i, j | 0 <= i < j < |behind| ensures behind[i] != behind[j] {
      Text.LessIrreflexive(behind[i].name);
    }
    DistinctSize(behind);
    forall g | g in behind ensures g in NewerThan(everything, files[k]) {
      var i :| 0 <= i < |behind| && behind[i] == g;
      assert behind[i] == files[k + 1 + i];
    }
    SubsetSize(Elements(behind), NewerThan(everything, files[k]));
  }

  lemma PrunedKeepsNewest(files: seq<Entry>, everything: set<Entry>, k: nat)
    requires Listing(files) && k < |files| && forall i :: k < i < |files| ==> files[i] in everything
    requires |NewerThan(everything, files[k])| < NEWEST_KEPT
    ensures files[k] in Pruned(files)
  {
    FewBehind(files, k, everything);
    PrunedHolds(files);
  }

  lemma SuffixKeepsNewest(files: seq<Entry>, from: nat, k: nat)
    requires Listing(files) && from <= k < |files|
    requires |NewerThan(Elements(files[from..]), files[k])| < NEWEST_KEPT
    ensures files[k] in Pruned(files)
  {
    var suffix := files[from..];
    forall i | k < i < |files| ensures files[i] in Elements(suffix) {
      assert suffix[i - from] == files[i];
    }
    PrunedKeepsNewest(files, Elements(suffix), k);
  }

  lemma SuffixKeeps(files: seq<Entry>, from: nat, f: Entry)
    requires Listing(files) && from <= |files| && f in files[from..]
    requires |NewerThan(Elements(files[from..]), f)| < NEWEST_KEPT
    ensures f in Pruned(files)
  {
    var k := PlaceInSuffix(files, from, f);
    SuffixKeepsNewest(files, from, k);
  }

  lemma PlaceInSuffix(files: seq<Entry>, from: nat, f: Entry) returns (k: nat)
    requires from <= |files| && f in files[from..]
    ensures from <= k < |files| && files[k] == f
  {
    var i :| 0 <= i < |files[from..]| && files[from..][i] == f;
    k := from + i;
  }

  lemma SuffixHoldsNewest(files: seq<Entry>, from: nat)
    requires Listing(files) && from <= |files|
    ensures HoldsNewest(Pruned(files), Elements(files[from..]))
  {
    var everything := Elements(files[from..]);
    forall f | f in everything && |NewerThan(everything, f)| < NEWEST_KEPT ensures f in Pruned(files) {
      SuffixKeeps(files, from, f);
    }
  }

  lemma FirstHoldsNewest(files: seq<Entry>)
    requires Listing(files)
    ensures HoldsNewest(Pruned(files), Elements(Window(files)))
  {
    var from := |files| - |Window(files)|;
    assert Window(files) == files[from..];
    SuffixHoldsNewest(files, from);
  }

  lemma AddHoldsNewest(files: seq<Entry>, everything: set<Entry>, x: Entry)
    requires Listing(files) && Elements(files) <= everything && Named(files, x.name).None?
    requires HoldsNewest(files, everything)
    ensures HoldsNewest(Pruned(Add(files, x)), everything + {x})
  {
    var (more, all) := (Add(files, x), everything + {x});
    AddSorted(files, x);
    AddElements(files, x);
    forall f | f in all && |NewerThan(all, f)| < NEWEST_KEPT ensures f in Pruned(more) {
      SubsetSize(NewerThan(everything, f), NewerThan(all, f));
      assert f in Elements(more);
      var k :| 0 <= k < |more| && more[k] == f;
      assert forall i :: k < i < |more| ==> more[i] in Elements(more);
      PrunedKeepsNewest(more, all, k);
    }
  }

  lemma {:induction false} RunHoldsNewest(states: seq<seq<Entry>>, xs: seq<Entry>, i: nat)
    requires Run(states, xs) && i <= |xs| && NamedApart(Everything(states, xs, i))
    ensures HoldsNewest(Pruned(states[i]), Everything(states, xs, i))
  {
    if i == 0 {
      FirstHoldsNewest(states[0]);
    } else {
      RunHolds(states, xs, i - 1);
      RunHoldsNewest(states, xs, i - 1);
      var (before, everything, x) := (Pruned(states[i - 1]), Everything(states, xs, i - 1), xs[i - 1]);
      if Named(before, x.name).Some? {
        assert before[Named(before, x.name).value] in Elements(before);
        assert everything + {x} == everything;
        PrunedTwice(before);
      } else {
        AddHoldsNewest(before, everything, x);
        RunHolds(states, xs, i);
      }
    }
  }

  // After every record of every run: a record with fewer than 496 newer ones, counted among
  // all that ever were, is still there.
  lemma NewestStay(states: seq<seq<Entry>>, xs: seq<Entry>, i: nat, f: Entry)
    requires Run(states, xs) && 0 < i <= |xs| && NamedApart(Everything(states, xs, i))
    requires f in Everything(states, xs, i) && |NewerThan(Everything(states, xs, i), f)| < 496
    ensures f in states[i]
  {
    RunHolds(states, xs, i);
    RunHoldsNewest(states, xs, i);
  }

  // A record that observes nothing of a code leaves its anchors alone.
  lemma UnrelatedRecord(everything: set<Entry>, x: Entry, f: Entry, code: FailureCode)
    requires Observes(x, code).None? && Anchor(everything, f, code)
    ensures Anchor(everything + {x}, f, code)
  {
    assert NewerIds(everything + {x}, f, code) == NewerIds(everything, f, code);
  }

  lemma {:induction false} UnrelatedRecords(
    states: seq<seq<Entry>>, xs: seq<Entry>, i: nat, j: nat, f: Entry, code: FailureCode)
    requires states != [] && i <= j <= |xs| && Anchor(Everything(states, xs, i), f, code)
    requires forall k :: i <= k < j ==> Observes(xs[k], code).None?
    ensures Anchor(Everything(states, xs, j), f, code)
  {
    if i < j {
      UnrelatedRecords(states, xs, i, j - 1, f, code);
      UnrelatedRecord(Everything(states, xs, j - 1), xs[j - 1], f, code);
    }
  }

  lemma {:induction false} EverythingGrows(states: seq<seq<Entry>>, xs: seq<Entry>, i: nat, j: nat)
    requires states != [] && i <= j <= |xs|
    ensures Everything(states, xs, i) <= Everything(states, xs, j)
  {
    if i < j {
      EverythingGrows(states, xs, i, j - 1);
    }
  }

  // However many successes, and failures of other codes, follow: the two latest distinct
  // failures of a code stay.
  lemma SuccessesEvictNoAnchor(states: seq<seq<Entry>>, xs: seq<Entry>, i: nat, j: nat, f: Entry, code: FailureCode)
    requires Run(states, xs) && 0 < i <= j <= |xs| && NamedApart(Everything(states, xs, j))
    requires Anchor(Elements(states[i]), f, code) && forall k :: i <= k < j ==> Observes(xs[k], code).None?
    ensures f in states[j] && Anchor(Elements(states[j]), f, code)
  {
    EverythingGrows(states, xs, i, j);
    RunKeepsAnchors(states, xs, i, f, code);
    UnrelatedRecords(states, xs, i, j, f, code);
    RunKeepsAnchors(states, xs, j, f, code);
  }
}
