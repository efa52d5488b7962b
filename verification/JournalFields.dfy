// What the journal keeps, said of the fields of its records alone.
module JournalFields {
  import opened Wrappers
  import opened Sorting
  import opened Directory
  import opened Journal
  import opened JournalRuns
  import Text

  // A readable record of an outcome that failed under a code, for a known failure.
  predicate Fails(f: Entry, code: FailureCode, id: string) {
    f.content.Some? && f.content.value.failed && code in f.content.value.codes && f.content.value.eventId == Some(id)
  }

  predicate After(g: Entry, f: Entry) {
    Text.Less(f.name, g.name)
  }

  ghost predicate LaterOnly(files: set<Entry>, f: Entry, code: FailureCode, other: string) {
    forall g, i :: g in files && After(g, f) && Fails(g, code, i) ==> i == other
  }

  // The later records of the code, if any, are all of one other failure.
  ghost predicate AtMostOneLater(files: set<Entry>, f: Entry, code: FailureCode, id: string) {
    exists other :: other != id && LaterOnly(files, f, code, other)
  }

  // `f` is the last record of its failure, one of the two latest failures of the code.
  ghost predicate LatestTwo(files: set<Entry>, f: Entry, code: FailureCode, id: string) {
    f in files && Fails(f, code, id) && AtMostOneLater(files, f, code, id)
  }

  lemma LaterIds(files: set<Entry>, f: Entry, code: FailureCode, i: string)
    ensures i in NewerIds(files, f, code) <==> exists g :: g in files && After(g, f) && Fails(g, code, i)
  {
    if i in NewerIds(files, f, code) {
      var g :| g in files && Newer(g, f) && Observes(g, code) == Some(i);
      assert After(g, f) && Fails(g, code, i);
    }
    if g :| g in files && After(g, f) && Fails(g, code, i) {
      assert Newer(g, f) && Observes(g, code) == Some(i);
    }
  }

  predicate Only(ids: set<string>, other: string) {
    ids <= {other}
  }

  lemma OneId(ids: set<string>, id: string)
    requires id !in ids
    ensures |ids| < 2 <==> exists other :: other != id && Only(ids, other)
  {
    if |ids| < 2 {
      var other := if ids == {} then id + "'" else var i :| i in ids; i;
      assert |id + "'"| != |id|;
      forall i | i in ids ensures i == other {
        SubsetSize({i, other}, ids);
      }
      assert other != id && Only(ids, other);
    }
    if other :| other != id && Only(ids, other) {
      SubsetSize(ids, {other});
    }
  }

  lemma LaterExactly(files: set<Entry>, f: Entry, code: FailureCode, other: string)
    ensures LaterOnly(files, f, code, other) <==> Only(NewerIds(files, f, code), other)
  {
    forall i ensures i in NewerIds(files, f, code) <==> exists g :: g in files && After(g, f) && Fails(g, code, i) {
      LaterIds(files, f, code, i);
    }
    if Only(NewerIds(files, f, code), other) {
      forall g, i | g in files && After(g, f) && Fails(g, code, i) ensures i == other {
        assert i in NewerIds(files, f, code);
      }
    }
  }

  lemma AnchorExactly(files: set<Entry>, f: Entry, code: FailureCode, id: string)
    ensures Anchor(files, f, code) && Observes(f, code) == Some(id) <==> LatestTwo(files, f, code, id)
  {
    var ids := NewerIds(files, f, code);
    if LatestTwo(files, f, code, id) {
      var other :| other != id && LaterOnly(files, f, code, other);
      LaterExactly(files, f, code, other);
      OneId(ids, id);
      assert Anchor(files, f, code) && Observes(f, code) == Some(id);
    }
    if Anchor(files, f, code) && Observes(f, code) == Some(id) {
      OneId(ids, id);
      var other :| other != id && Only(ids, other);
      LaterExactly(files, f, code, other);
      assert Fails(f, code, id) && LaterOnly(files, f, code, other);
    }
  }

  // After every record of every run there are at most 512 records. Of all that ever were, the
  // records of the two latest failures of each code are there, and so is every record with
  // fewer than 496 later ones.
  lemma RunRetains(states: seq<seq<Entry>>, xs: seq<Entry>, i: nat, f: Entry)
    requires Run(states, xs) && 0 < i <= |xs| && NamedApart(Everything(states, xs, i))
    ensures |states[i]| <= 512
    ensures forall code, id :: LatestTwo(Everything(states, xs, i), f, code, id) ==> f in states[i]
    ensures var all := Everything(states, xs, i);
      f in all && |set g | g in all && After(g, f)| < 496 ==> f in states[i]
  {
    var all := Everything(states, xs, i);
    RunHolds(states, xs, i);
    forall code, id | LatestTwo(all, f, code, id) ensures f in states[i] {
      AnchorExactly(all, f, code, id);
    }
    assert NewerThan(all, f) == set g | g in all && After(g, f);
    if f in all && |NewerThan(all, f)| < 496 {
      NewestStay(states, xs, i, f);
    }
  }

  // All that ever were: of what was there at first the last 1024 records, and all since.
  lemma EverythingExactly(states: seq<seq<Entry>>, xs: seq<Entry>, i: nat, f: Entry)
    requires states != [] && i <= |xs|
    ensures f in Everything(states, xs, i) <==>
              || (exists k :: 0 <= k < |states[0]| && |states[0]| - 1024 <= k && states[0][k] == f)
              || exists k :: 0 <= k < i && xs[k] == f
  {
    if i > 0 {
      EverythingExactly(states, xs, i - 1, f);
    } else {
      var (w, d) := (Window(states[0]), |states[0]| - |Window(states[0])|);
      assert forall k :: 0 <= k < |w| ==> w[k] == states[0][d + k];
      if f in w {
        var k :| 0 <= k < |w| && w[k] == f;
        assert states[0][d + k] == f;
      }
      if k :| 0 <= k < |states[0]| && |states[0]| - 1024 <= k && states[0][k] == f {
        assert w[k - d] == f;
      }
    }
  }
}
