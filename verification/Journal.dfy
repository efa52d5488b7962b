// The engineering journal: a ring of the newest records that also keeps, for every failure
// code, the two latest distinct failures as anchors.
module Journal {
  import opened Wrappers
  import opened Sorting
  import opened Directory
  import Text

  const MAX_ENGINEERING_MILESTONES: nat := 512
  const MAX_RECOVERY_SCAN_ENTRIES: nat := 1024
  const MAX_JOURNAL_SCAN_ENTRIES: nat := 100000
  const MAX_MILESTONE_BYTES: nat := 16384
  const MAX_ANCHORS: nat := 16
  // The places anchors cannot take.
  const NEWEST_KEPT := MAX_ENGINEERING_MILESTONES - MAX_ANCHORS

  datatype FailureCode =
    | ShaMismatch | AuthorizationRequired | ProtectedPath | SourceLimit | VerificationFailure | Timeout
    | RevisionStale | DiscoveryIncomplete

  // A valid record; `failed` covers the outcomes failed and blocked, `rest` stands for what
  // retention does not look at.
  datatype Milestone = Milestone(failed: bool, eventId: Option<string>, codes: seq<FailureCode>, rest: int)

  type Entry = File<Milestone>

  datatype JournalError = InvalidMilestone | ScanBound | TooLarge

  // ---- Anchors ------------------------------------------------------------------------

  // The failure a record is an observation of, under one code.
  function Observes(f: Entry, code: FailureCode): Option<string> {
    if f.content.Some? && f.content.value.failed && code in f.content.value.codes then f.content.value.eventId else None
  }

  predicate Newer(f: Entry, g: Entry) {
    Text.Less(g.name, f.name)
  }

  // The failures of a code observed by records newer than `f`.
  function NewerIds(files: set<Entry>, f: Entry, code: FailureCode): set<string> {
    set g | g in files && Newer(g, f) && Observes(g, code).Some? :: Observes(g, code).value
  }

  // `f` is the latest observation of its failure, and of at most one newer failure is there
  // an observation: `f` is one of the two latest distinct failures of its code.
  predicate Anchor(files: set<Entry>, f: Entry, code: FailureCode) {
    && f in files && Observes(f, code).Some?
    && Observes(f, code).value !in NewerIds(files, f, code)
    && |NewerIds(files, f, code)| < 2
  }

  // Names tell records apart: a name holds a digest of the record.
  predicate NamedApart(files: set<Entry>) {
    forall f, g :: f in files && g in files && f.name == g.name ==> f == g
  }

  // An observation of the code that is not of failure `but`.
  predicate Counts(f: Entry, code: FailureCode, but: Option<string>) {
    Observes(f, code).Some? && Observes(f, code) != but
  }

  lemma NewerTransitive(f: Entry, g: Entry, h: Entry)
    requires Newer(f, g) && Newer(g, h)
    ensures Newer(f, h)
  {
    Text.LessTransitive(h.name, g.name, f.name);
  }

  // The latest of those.
  predicate Latest(files: set<Entry>, g: Entry, code: FailureCode, but: Option<string>) {
    g in files && Counts(g, code, but) && forall h :: h in files && Counts(h, code, but) && h != g ==> Newer(g, h)
  }

  lemma {:induction false} LatestExists(files: set<Entry>, f: Entry, code: FailureCode, but: Option<string>)
    requires NamedApart(files) && f in files && Counts(f, code, but)
    ensures exists g :: Latest(files, g, code, but)
  {
    var rest := files - {f};
    if n :| n in rest && Counts(n, code, but) {
      LatestExists(rest, n, code, but);
      var g :| Latest(rest, g, code, but);
      NewerTotal(f, g);
      if Newer(f, g) {
        forall h | h in files && Counts(h, code, but) && h != f ensures Newer(f, h) {
          if h != g {
            NewerTransitive(f, g, h);
          }
        }
        assert Latest(files, f, code, but);
      } else {
        assert Latest(files, g, code, but);
      }
    } else {
      assert Latest(files, f, code, but);
    }
  }

  lemma NewerTotal(f: Entry, g: Entry)
    ensures f.name == g.name || Newer(f, g) || Newer(g, f)
  {
    Text.LessTotal(f.name, g.name);
  }

  lemma LatestIsNewer(files: set<Entry>, f: Entry, code: FailureCode, id: string, but: Option<string>)
    requires NamedApart(files) && id in NewerIds(files, f, code) && but != Some(id)
    ensures exists g :: Latest(files, g, code, but) && Newer(g, f)
  {
    var n :| n in files && Newer(n, f) && Observes(n, code) == Some(id);
    LatestExists(files, n, code, but);
    var g :| Latest(files, g, code, but);
    if n != g {
      assert Counts(n, code, but);
      NewerTransitive(g, n, f);
    }
  }

  lemma NotNewerBoth(g: Entry, h: Entry)
    ensures !(Newer(g, h) && Newer(h, g))
  {
    if Newer(g, h) {
      Text.LessAsymmetric(h.name, g.name);
    }
  }

  lemma LatestOfAllIsAnchor(files: set<Entry>, g: Entry, code: FailureCode)
    requires Latest(files, g, code, None)
    ensures Anchor(files, g, code)
  {
    forall h ensures !(Newer(g, h) && Newer(h, g)) {
      NotNewerBoth(g, h);
    }
    assert NewerIds(files, g, code) == {};
  }

  lemma LatestOfOthersIsAnchor(files: set<Entry>, g: Entry, code: FailureCode, but: string)
    requires Latest(files, g, code, Some(but))
    ensures Anchor(files, g, code)
  {
    forall h ensures !(Newer(g, h) && Newer(h, g)) {
      NotNewerBoth(g, h);
    }
    assert NewerIds(files, g, code) <= {but};
    SubsetSize(NewerIds(files, g, code), {but});
  }

  // Whatever hides a record among all hides it among the anchors too.
  lemma AnchorsHide(files: set<Entry>, kept: set<Entry>, f: Entry, code: FailureCode)
    requires NamedApart(files) && f in files && Observes(f, code).Some? && !Anchor(files, f, code)
    requires forall g :: Anchor(files, g, code) ==> g in kept
    ensures !Anchor(kept, f, code)
  {
    var ids := NewerIds(files, f, code);
    var own := Observes(f, code).value;
    var id :| id in ids;
    LatestIsNewer(files, f, code, id, None);
    var g :| Latest(files, g, code, None) && Newer(g, f);
    LatestOfAllIsAnchor(files, g, code);
    var first := Observes(g, code).value;
    assert first in NewerIds(kept, f, code);
    if own != first {
      var second := OtherId(ids, own, first);
      LatestIsNewer(files, f, code, second, Some(first));
      var h :| Latest(files, h, code, Some(first)) && Newer(h, f);
      LatestOfOthersIsAnchor(files, h, code, first);
      assert {first, Observes(h, code).value} <= NewerIds(kept, f, code);
      SubsetSize({first, Observes(h, code).value}, NewerIds(kept, f, code));
    }
  }

  ghost function OtherId(ids: set<string>, own: string, first: string): (other: string)
    requires first in ids && first != own && (own in ids || |ids| >= 2)
    ensures other in ids && other != first
  {
    if own in ids then own else
      assert |ids - {first}| >= 1;
      var other :| other in ids - {first};
      other
  }

  // A part of the records that holds all anchors has the same anchors.
  lemma AnchorsStay(files: set<Entry>, kept: set<Entry>, f: Entry, code: FailureCode)
    requires NamedApart(files) && kept <= files
    requires forall g :: Anchor(files, g, code) ==> g in kept
    ensures Anchor(kept, f, code) <==> Anchor(files, f, code)
  {
    if Anchor(files, f, code) {
      SubsetSize(NewerIds(kept, f, code), NewerIds(files, f, code));
    } else if f in files && Observes(f, code).Some? {
      AnchorsHide(files, kept, f, code);
    }
  }

  // A new record makes no old record an anchor.
  lemma AnchorsOfMore(files: set<Entry>, x: Entry, f: Entry, code: FailureCode)
    requires Anchor(files + {x}, f, code)
    ensures f == x || Anchor(files, f, code)
  {
    if f != x {
      SubsetSize(NewerIds(files, f, code), NewerIds(files + {x}, f, code));
    }
  }

  // ---- Scanning for anchors ---------------------------------------------------------------

  // What the scan has seen: up to two failures of each code, and the names kept for them.
  datatype Scan = Scan(seen: map<FailureCode, set<string>>, retained: set<string>)

  function SeenOf(seen: map<FailureCode, set<string>>, code: FailureCode): set<string> {
    if code in seen then seen[code] else {}
  }

  predicate HasRoom(ids: set<string>, id: string) {
    |ids| < 2 && id !in ids
  }

  function Taken(ids: set<string>, id: string): set<string> {
    if HasRoom(ids, id) then ids + {id} else ids
  }

  // One code of one observation.
  function Note(s: Scan, name: string, code: FailureCode, id: string): Scan {
    var ids := SeenOf(s.seen, code);
    Scan(s.seen[code := Taken(ids, id)], if HasRoom(ids, id) then s.retained + {name} else s.retained)
  }

  function NoteAll(s: Scan, name: string, codes: seq<FailureCode>, id: string): Scan {
    if codes == [] then s else Note(NoteAll(s, name, codes[..|codes| - 1], id), name, codes[|codes| - 1], id)
  }

  function ScanFile(s: Scan, f: Entry): Scan {
    if f.content.Some? && f.content.value.failed && f.content.value.eventId.Some?
    then NoteAll(s, f.name, f.content.value.codes, f.content.value.eventId.value)
    else s
  }

  // The files from `from` on, newest first.
  function ScanFrom(files: seq<Entry>, from: nat): Scan
    requires from <= |files|
    decreases |files| - from
  {
    if from == |files| then Scan(map[], {}) else ScanFile(ScanFrom(files, from + 1), files[from])
  }

  // The failures of a code observed from `from` on.
  function IdsFrom(files: seq<Entry>, from: nat, code: FailureCode): set<string>
    requires from <= |files|
    decreases |files| - from
  {
    if from == |files| then {} else
      IdsFrom(files, from + 1, code)
      + if Observes(files[from], code).Some? then {Observes(files[from], code).value} else {}
  }

  // `seen` holds what matters of `ids`.
  predicate Samples(seen: set<string>, ids: set<string>) {
    if |ids| < 2 then seen == ids else seen <= ids && |seen| == 2
  }

  lemma {:induction false} NoteAllNotes(s: Scan, name: string, codes: seq<FailureCode>, id: string, code: FailureCode)
    ensures SeenOf(NoteAll(s, name, codes, id).seen, code) == SeenAfter(SeenOf(s.seen, code), code in codes, id)
  {
    if codes != [] {
      var (front, last) := (codes[..|codes| - 1], codes[|codes| - 1]);
      NoteAllNotes(s, name, front, id, code);
      assert code in codes <==> code in front || code == last;
      TakenTwice(SeenOf(s.seen, code), id);
    }
  }

  function SeenAfter(ids: set<string>, observed: bool, id: string): set<string> {
    if observed then Taken(ids, id) else ids
  }

  lemma TakenTwice(ids: set<string>, id: string)
    ensures Taken(Taken(ids, id), id) == Taken(ids, id)
  {
  }

  predicate Fresh(s: Scan, code: FailureCode, id: string) {
    HasRoom(SeenOf(s.seen, code), id)
  }

  predicate AnyFresh(s: Scan, codes: seq<FailureCode>, id: string) {
    exists i :: 0 <= i < |codes| && Fresh(s, codes[i], id)
  }

  lemma AnyFreshStep(s: Scan, front: seq<FailureCode>, last: FailureCode, id: string)
    ensures AnyFresh(s, front + [last], id) <==> AnyFresh(s, front, id) || Fresh(s, last, id)
    ensures last in front && Fresh(s, last, id) ==> AnyFresh(s, front, id)
  {
    var codes := front + [last];
    assert codes[|front|] == last;
    forall i | 0 <= i < |front| ensures codes[i] == front[i] {
    }
  }

  lemma NoRoomTwice(ids: set<string>, id: string)
    ensures !HasRoom(Taken(ids, id), id)
  {
  }

  // A record is kept exactly when one of its codes had room for its failure.
  lemma {:induction false} NoteAllRetains(s: Scan, name: string, codes: seq<FailureCode>, id: string)
    ensures NoteAll(s, name, codes, id).retained == if AnyFresh(s, codes, id) then s.retained + {name} else s.retained
  {
    if codes != [] {
      var (front, last) := (codes[..|codes| - 1], codes[|codes| - 1]);
      assert codes == front + [last];
      NoteAllRetains(s, name, front, id);
      NoteAllNotes(s, name, front, id, last);
      NoRoomTwice(SeenOf(s.seen, last), id);
      AnyFreshStep(s, front, last, id);
    }
  }

  lemma ScanFileNotes(s: Scan, f: Entry, code: FailureCode)
    ensures SeenOf(ScanFile(s, f).seen, code) ==
              match Observes(f, code) case None => SeenOf(s.seen, code) case Some(id) => Taken(SeenOf(s.seen, code), id)
  {
    if f.content.Some? && f.content.value.failed && f.content.value.eventId.Some? {
      NoteAllNotes(s, f.name, f.content.value.codes, f.content.value.eventId.value, code);
    }
  }

  lemma {:induction false} ScanSamples(files: seq<Entry>, from: nat, code: FailureCode)
    requires from <= |files|
    ensures Samples(SeenOf(ScanFrom(files, from).seen, code), IdsFrom(files, from, code))
    decreases |files| - from
  {
    if from < |files| {
      ScanSamples(files, from + 1, code);
      ScanFileNotes(ScanFrom(files, from + 1), files[from], code);
      var seen := SeenOf(ScanFrom(files, from + 1).seen, code);
      SamplesStep(seen, IdsFrom(files, from + 1, code), Observes(files[from], code));
    }
  }

  lemma SamplesStep(seen: set<string>, ids: set<string>, observed: Option<string>)
    requires Samples(seen, ids)
    ensures observed.Some? ==> Samples(Taken(seen, observed.value), ids + {observed.value})
    ensures Samples(seen, ids + {})
  {
    assert ids + {} == ids;
    if observed.Some? {
      SamplesMore(seen, ids, observed.value);
    }
  }

  lemma SamplesMore(seen: set<string>, ids: set<string>, id: string)
    requires Samples(seen, ids)
    ensures Samples(Taken(seen, id), ids + {id})
  {
    SubsetSize(ids, ids + {id});
    if id in ids {
      assert ids + {id} == ids;
    }
    if id !in seen && |seen| < 2 {
      assert |ids + {id}| == |ids| + 1;
    }
  }

  // In a sorted listing, the ids from behind `k` on are those of newer records.
  lemma {:induction false} IdsAreNewer(files: seq<Entry>, k: nat, from: nat, code: FailureCode)
    requires Listing(files) && k < from <= |files| && forall i :: k < i < from ==> Observes(files[i], code).None?
    ensures IdsFrom(files, from, code) == NewerIds(Elements(files), files[k], code)
  {
    forall id ensures id in IdsFrom(files, from, code) <==> id in NewerIds(Elements(files), files[k], code) {
      IdsFromMembers(files, from, code, id);
      if i :| from <= i < |files| && Observes(files[i], code) == Some(id) {
        assert files[i] in Elements(files) && Newer(files[i], files[k]);
      }
      if g :| g in Elements(files) && Newer(g, files[k]) && Observes(g, code) == Some(id) {
        var i :| 0 <= i < |files| && files[i] == g;
        OrderOfIndices(files, k, i);
      }
    }
  }

  lemma OrderOfIndices(files: seq<Entry>, k: nat, i: nat)
    requires Listing(files) && k < |files| && i < |files| && Newer(files[i], files[k])
    ensures k < i
  {
    if i < k {
      Text.LessAsymmetric(files[i].name, files[k].name);
    } else {
      Text.LessIrreflexive(files[k].name);
    }
  }

  lemma {:induction false} IdsFromMembers(files: seq<Entry>, from: nat, code: FailureCode, id: string)
    requires from <= |files|
    ensures id in IdsFrom(files, from, code) <==>
              exists i :: from <= i < |files| && Observes(files[i], code) == Some(id)
    decreases |files| - from
  {
    if from < |files| {
      IdsFromMembers(files, from + 1, code, id);
    }
  }

  // ---- What the scan keeps -------------------------------------------------------------

  predicate AnchorAt(files: seq<Entry>, k: nat)
    requires k < |files|
  {
    exists code :: Anchor(Elements(files), files[k], code)
  }

  lemma FreshIsAnchor(files: seq<Entry>, k: nat, code: FailureCode)
    requires Listing(files) && k < |files| && Observes(files[k], code).Some?
    ensures Fresh(ScanFrom(files, k + 1), code, Observes(files[k], code).value) <==>
              Anchor(Elements(files), files[k], code)
  {
    ScanSamples(files, k + 1, code);
    IdsAreNewer(files, k, k + 1, code);
    assert files[k] in Elements(files);
  }

  lemma ScanFileRetains(files: seq<Entry>, k: nat)
    requires Listing(files) && k < |files|
    ensures ScanFrom(files, k).retained ==
              if AnchorAt(files, k) then ScanFrom(files, k + 1).retained + {files[k].name}
              else ScanFrom(files, k + 1).retained
  {
    var (f, s) := (files[k], ScanFrom(files, k + 1));
    if f.content.Some? && f.content.value.failed && f.content.value.eventId.Some? {
      var (codes, id) := (f.content.value.codes, f.content.value.eventId.value);
      NoteAllRetains(s, f.name, codes, id);
      forall code | code in codes ensures Fresh(s, code, id) <==> Anchor(Elements(files), f, code) {
        FreshIsAnchor(files, k, code);
      }
      if AnyFresh(s, codes, id) {
        var i :| 0 <= i < |codes| && Fresh(s, codes[i], id);
        assert codes[i] in codes && Anchor(Elements(files), f, codes[i]);
      }
      if code :| Anchor(Elements(files), f, code) {
        var i :| 0 <= i < |codes| && codes[i] == code;
        assert Fresh(s, codes[i], id);
      }
    }
  }

  // The scan keeps exactly the names of the anchors.
  lemma {:induction false} ScanKeepsAnchors(files: seq<Entry>, from: nat)
    requires Listing(files) && from <= |files|
    ensures forall k :: from <= k < |files| ==>
              (files[k].name in ScanFrom(files, from).retained <==> AnchorAt(files, k))
    ensures forall name :: name in ScanFrom(files, from).retained ==>
              exists k :: from <= k < |files| && files[k].name == name
    decreases |files| - from
  {
    if from < |files| {
      ScanKeepsAnchors(files, from + 1);
      ScanFileRetains(files, from);
      UniqueName(files, from);
    }
  }

  // ---- There are at most sixteen anchors ------------------------------------------------

  function Size(s: Scan, code: FailureCode): nat {
    |SeenOf(s.seen, code)|
  }

  function Total(s: Scan): nat {
    Size(s, ShaMismatch) + Size(s, AuthorizationRequired) + Size(s, ProtectedPath) + Size(s, SourceLimit)
    + Size(s, VerificationFailure) + Size(s, Timeout) + Size(s, RevisionStale) + Size(s, DiscoveryIncomplete)
  }

  // Each name kept took room under some code.
  predicate Paid(s: Scan) {
    |s.retained| <= Total(s) && forall code :: code in s.seen ==> |s.seen[code]| <= 2
  }

  function Grown(s: Scan, code: FailureCode, id: string): nat {
    if HasRoom(SeenOf(s.seen, code), id) then 1 else 0
  }

  lemma NoteSize(s: Scan, name: string, code: FailureCode, id: string, other: FailureCode)
    ensures Size(Note(s, name, code, id), other) == Size(s, other) + if other == code then Grown(s, code, id) else 0
  {
  }

  lemma NoteTotal(s: Scan, name: string, code: FailureCode, id: string)
    ensures Total(Note(s, name, code, id)) == Total(s) + Grown(s, code, id)
  {
    NoteSize(s, name, code, id, ShaMismatch);
    NoteSize(s, name, code, id, AuthorizationRequired);
    NoteSize(s, name, code, id, ProtectedPath);
    NoteSize(s, name, code, id, SourceLimit);
    NoteSize(s, name, code, id, VerificationFailure);
    NoteSize(s, name, code, id, Timeout);
    NoteSize(s, name, code, id, RevisionStale);
    NoteSize(s, name, code, id, DiscoveryIncomplete);
  }

  lemma OneMore(names: set<string>, name: string)
    ensures |names + {name}| <= |names| + 1
  {
  }

  lemma NotePaid(s: Scan, name: string, code: FailureCode, id: string)
    requires Paid(s)
    ensures Paid(Note(s, name, code, id))
  {
    var t := Note(s, name, code, id);
    NoteTotal(s, name, code, id);
    OneMore(s.retained, name);
    forall other | other in t.seen ensures |t.seen[other]| <= 2 {
      NoteSize(s, name, code, id, other);
    }
  }

  lemma {:induction false} NoteAllPaid(s: Scan, name: string, codes: seq<FailureCode>, id: string)
    requires Paid(s)
    ensures Paid(NoteAll(s, name, codes, id))
  {
    if codes != [] {
      NoteAllPaid(s, name, codes[..|codes| - 1], id);
      NotePaid(NoteAll(s, name, codes[..|codes| - 1], id), name, codes[|codes| - 1], id);
    }
  }

  lemma {:induction false} ScanPaid(files: seq<Entry>, from: nat)
    requires from <= |files|
    ensures Paid(ScanFrom(files, from))
    decreases |files| - from
  {
    if from < |files| {
      ScanPaid(files, from + 1);
      var f := files[from];
      if f.content.Some? && f.content.value.failed && f.content.value.eventId.Some? {
        NoteAllPaid(ScanFrom(files, from + 1), f.name, f.content.value.codes, f.content.value.eventId.value);
      }
    }
  }

  lemma FewAnchors(files: seq<Entry>)
    ensures |ScanFrom(files, 0).retained| <= MAX_ANCHORS
  {
    ScanPaid(files, 0);
    var s := ScanFrom(files, 0);
    forall code ensures Size(s, code) <= 2 {
      assert code in s.seen ==> |s.seen[code]| <= 2;
    }
  }

  // ---- Pruning ------------------------------------------------------------------------

  // The newest records, as many as anchors are looked for among.
  function Window(files: seq<Entry>): (window: seq<Entry>) {
    if |files| <= MAX_RECOVERY_SCAN_ENTRIES then files else files[|files| - MAX_RECOVERY_SCAN_ENTRIES..]
  }

  // Filling the ring from the newest record on.
  function Fill(files: seq<Entry>, upto: nat, retained: set<string>): set<string>
    requires upto <= |files|
  {
    if upto == 0 || |retained| >= MAX_ENGINEERING_MILESTONES then retained
    else Fill(files, upto - 1, retained + {files[upto - 1].name})
  }

  function Kept(files: seq<Entry>): set<string> {
    Fill(files, |files|, ScanFrom(Window(files), 0).retained)
  }

  function InKept(names: set<string>): Entry -> bool {
    (f: Entry) => f.name in names
  }

  function Pruned(files: seq<Entry>): seq<Entry> {
    if |files| <= MAX_ENGINEERING_MILESTONES then files else Select(files, InKept(Kept(files)))
  }

  // ---- What pruning keeps ----------------------------------------------------------------

  function NamesFrom(files: seq<Entry>, from: nat): set<string>
    requires from <= |files|
    decreases |files| - from
  {
    if from == |files| then {} else NamesFrom(files, from + 1) + {files[from].name}
  }

  lemma {:induction false} NamesCount(files: seq<Entry>, from: nat)
    requires Listing(files) && from <= |files|
    ensures |NamesFrom(files, from)| == |files| - from
    ensures forall n :: n in NamesFrom(files, from) <==> exists k :: from <= k < |files| && files[k].name == n
    decreases |files| - from
  {
    if from < |files| {
      NamesCount(files, from + 1);
      UniqueName(files, from);
    }
  }

  lemma {:induction false} FillKeeps(files: seq<Entry>, upto: nat, retained: set<string>)
    requires upto <= |files|
    ensures retained <= Fill(files, upto, retained)
    ensures |retained| <= MAX_ENGINEERING_MILESTONES ==> |Fill(files, upto, retained)| <= MAX_ENGINEERING_MILESTONES
    ensures forall k :: 0 <= k < upto && upto - k <= MAX_ENGINEERING_MILESTONES - |retained| ==>
              files[k].name in Fill(files, upto, retained)
  {
    if upto > 0 && |retained| < MAX_ENGINEERING_MILESTONES {
      OneMore(retained, files[upto - 1].name);
      FillKeeps(files, upto - 1, retained + {files[upto - 1].name});
    }
  }

  // The ring reaches no further back than its capacity, and is filled if there are enough
  // records.
  lemma {:induction false} FillReach(files: seq<Entry>, upto: nat, retained: set<string>)
    requires Listing(files) && upto <= |files| && NamesFrom(files, upto) <= retained
    ensures forall n :: n in Fill(files, upto, retained) && n !in retained ==>
              exists k :: 0 <= k < upto && |files| - MAX_ENGINEERING_MILESTONES <= k && files[k].name == n
    ensures |files| >= MAX_ENGINEERING_MILESTONES ==> |Fill(files, upto, retained)| >= MAX_ENGINEERING_MILESTONES
  {
    NamesCount(files, upto);
    SubsetSize(NamesFrom(files, upto), retained);
    if upto > 0 && |retained| < MAX_ENGINEERING_MILESTONES {
      FillReach(files, upto - 1, retained + {files[upto - 1].name});
    }
  }

  lemma {:induction false} SelectListing(files: seq<Entry>, p: Entry -> bool)
    requires Listing(files)
    ensures Listing(Select(files, p))
    ensures forall f :: f in Select(files, p) <==> f in files && p(f)
  {
    if files != [] {
      var (front, last) := (files[..|files| - 1], files[|files| - 1]);
      assert files == front + [last];
      SelectListing(front, p);
      BeforeLast(files);
    }
  }

  lemma BeforeLast(files: seq<Entry>)
    requires Listing(files) && files != []
    ensures Listing(files[..|files| - 1])
    ensures forall f :: f in files[..|files| - 1] ==> Text.Less(f.name, files[|files| - 1].name)
  {
  }

  // A listing whose names are exactly a set has as many files as the set has names.
  lemma ListingSize(files: seq<Entry>, names: set<string>)
    requires Listing(files) && forall n :: n in names <==> exists k :: 0 <= k < |files| && files[k].name == n
    ensures |files| == |names|
  {
    NamesCount(files, 0);
    assert NamesFrom(files, 0) == names;
  }

  lemma WindowListing(files: seq<Entry>)
    requires Listing(files)
    ensures Listing(Window(files)) && |Window(files)| <= 1024
    ensures forall k :: 0 <= k < |files| && |files| - 1024 <= k ==> files[k] in Window(files)
    ensures forall f :: f in Window(files) ==> f in files
  {
    var (w, d) := (Window(files), |files| - |Window(files)|);
    assert forall k :: 0 <= k < |w| ==> w[k] == files[d + k];
    forall k | 0 <= k < |files| && |files| - MAX_RECOVERY_SCAN_ENTRIES <= k ensures files[k] in w {
      assert w[k - d] == files[k];
    }
  }

  lemma KeptHolds(files: seq<Entry>)
    requires Listing(files) && |files| > MAX_ENGINEERING_MILESTONES
    ensures |Kept(files)| == MAX_ENGINEERING_MILESTONES
    ensures forall k :: 0 <= k < |files| && |files| - k <= NEWEST_KEPT ==> files[k].name in Kept(files)
    ensures forall n :: n in Kept(files) ==> exists f :: f in Window(files) && f.name == n
    ensures ScanFrom(Window(files), 0).retained <= Kept(files)
  {
    var w := Window(files);
    WindowListing(files);
    var anchors := ScanFrom(w, 0).retained;
    FewAnchors(w);
    FillKeeps(files, |files|, anchors);
    FillReach(files, |files|, anchors);
    ScanKeepsAnchors(w, 0);
    forall n | n in Kept(files) ensures exists f :: f in w && f.name == n {
      if n in anchors {
        var k :| 0 <= k < |w| && w[k].name == n;
        assert w[k] in w;
      } else {
        var k :| 0 <= k < |files| && |files| - MAX_ENGINEERING_MILESTONES <= k && files[k].name == n;
        assert files[k] in w;
      }
    }
  }

  lemma ListingNamedApart(files: seq<Entry>)
    requires Listing(files)
    ensures NamedApart(Elements(files))
  {
    forall f, g | f in Elements(files) && g in Elements(files) && f.name == g.name ensures f == g {
      var i :| 0 <= i < |files| && files[i] == f;
      var j :| 0 <= j < |files| && files[j] == g;
      UniqueName(files, i);
    }
  }

  // Pruning leaves a full ring at most, the newest records but for sixteen places, and all
  // anchors.
  lemma PrunedHolds(files: seq<Entry>)
    requires Listing(files)
    ensures Listing(Pruned(files))
    ensures |Pruned(files)| == if |files| <= MAX_ENGINEERING_MILESTONES then |files| else MAX_ENGINEERING_MILESTONES
    ensures forall k :: 0 <= k < |files| && |files| - k <= NEWEST_KEPT ==> files[k] in Pruned(files)
    ensures forall f :: f in Pruned(files) ==> f in Window(files)
    ensures forall f, code :: Anchor(Elements(Window(files)), f, code) ==> f in Pruned(files)
  {
    if |files| > MAX_ENGINEERING_MILESTONES {
      PrunedMembers(files);
      PrunedSize(files);
      forall k | 0 <= k < |files| && |files| - k <= NEWEST_KEPT ensures files[k] in Pruned(files) {
        PrunedHasNewest(files, k);
      }
      forall f | f in Pruned(files) ensures f in Window(files) {
        PrunedInWindow(files, f);
      }
      forall f, code | Anchor(Elements(Window(files)), f, code) ensures f in Pruned(files) {
        PrunedHasAnchor(files, f, code);
      }
    }
  }

  lemma PrunedMembers(files: seq<Entry>)
    requires Listing(files) && |files| > MAX_ENGINEERING_MILESTONES
    ensures Listing(Pruned(files))
    ensures forall f :: f in Pruned(files) <==> f in files && f.name in Kept(files)
  {
    SelectListing(files, InKept(Kept(files)));
  }

  lemma PrunedSize(files: seq<Entry>)
    requires Listing(files) && |files| > MAX_ENGINEERING_MILESTONES
    ensures |Pruned(files)| == MAX_ENGINEERING_MILESTONES
  {
    var (w, kept, g) := (Window(files), Kept(files), Pruned(files));
    KeptHolds(files);
    WindowListing(files);
    PrunedMembers(files);
    forall n ensures n in kept <==> exists k :: 0 <= k < |g| && g[k].name == n {
      if n in kept {
        var f :| f in w && f.name == n;
        assert f in g;
      }
      if k :| 0 <= k < |g| && g[k].name == n {
        assert g[k] in g;
      }
    }
    ListingSize(g, kept);
  }

  lemma PrunedInWindow(files: seq<Entry>, f: Entry)
    requires Listing(files) && |files| > MAX_ENGINEERING_MILESTONES && f in Pruned(files)
    ensures f in Window(files)
  {
    KeptHolds(files);
    PrunedMembers(files);
    WindowListing(files);
    ListingNamedApart(files);
    var h :| h in Window(files) && h.name == f.name;
    assert f in Elements(files) && h in Elements(files);
  }

  lemma PrunedHasAnchor(files: seq<Entry>, f: Entry, code: FailureCode)
    requires Listing(files) && |files| > MAX_ENGINEERING_MILESTONES && Anchor(Elements(Window(files)), f, code)
    ensures f in Pruned(files)
  {
    var w := Window(files);
    KeptHolds(files);
    PrunedMembers(files);
    WindowListing(files);
    ScanKeepsAnchors(w, 0);
    var k :| 0 <= k < |w| && w[k] == f;
    assert AnchorAt(w, k);
  }

  lemma PrunedHasNewest(files: seq<Entry>, k: nat)
    requires Listing(files) && |files| > MAX_ENGINEERING_MILESTONES
    requires k < |files| && |files| - k <= MAX_ENGINEERING_MILESTONES - MAX_ANCHORS
    ensures files[k] in Pruned(files)
  {
    KeptHolds(files);
    PrunedMembers(files);
  }
}
