// Snapshots of a reconciliation execution and the file names they are stored under.
module SnapshotNames {
  import opened Wrappers
  import opened Sorting
  import opened Reconciliation
  import Text

  datatype Snapshot = Snapshot(
    planId: string, workspace: string, tasks: seq<TaskRun>, createdAt: Text.Stamp, updatedAt: Text.Stamp)
  {
    predicate Valid() {
      && !Text.Blank(planId) && !Text.Blank(workspace) && |tasks| <= 256
      && forall r :: r in tasks ==>
           && !Text.Blank(r.task.id)
           && (r.claimedBy.Some? ==> ValidExecutor(r.claimedBy.value))
           && (r.summary.Some? ==> !Text.Blank(r.summary.value) && |r.summary.value| <= 2000)
           && (r.artifactDigest.Some? ==> !Text.Blank(r.artifactDigest.value) && |r.artifactDigest.value| <= 512)
    }
  }

  function SnapshotName(stamp: nat, planId: string, digest: string): string {
    Text.Padded(stamp, 20) + "-" + planId + "-" + digest + ".json"
  }

  // `split_once`
  function CutFirst(s: string, sep: char): Option<(string, string)> {
    match FirstIndex(s, (c: char) => c == sep)
    case None => None
    case Some(at) => Some((s[..at], s[at + 1..]))
  }

  // `rsplit_once`
  function CutLast(s: string, sep: char): Option<(string, string)> {
    match LastIndex(s, (c: char) => c == sep)
    case None => None
    case Some(at) => Some((s[..at], s[at + 1..]))
  }

  function PlanIdOfName(name: string): Option<string> {
    if |name| < 5 || name[|name| - 5..] != ".json" then None
    else match CutFirst(name[..|name| - 5], '-')
      case None => None
      case Some((_, rest)) =>
        match CutLast(rest, '-')
        case None => None
        case Some((planId, digest)) => if planId != "" && digest != "" then Some(planId) else None
  }

  lemma CutFirstAt(a: string, b: string, sep: char)
    requires sep !in a
    ensures CutFirst(a + [sep] + b, sep) == Some((a, b))
  {
    var s := a + [sep] + b;
    var at := FirstIndex(s, (c: char) => c == sep);
    assert s[|a|] == sep;
    assert forall i :: 0 <= i < |a| ==> s[i] == a[i];
    assert at == Some(|a|);
    assert s[..|a|] == a && s[|a| + 1..] == b;
  }

  lemma CutLastAt(a: string, b: string, sep: char)
    requires sep !in b
    ensures CutLast(a + [sep] + b, sep) == Some((a, b))
  {
    var s := a + [sep] + b;
    var at := LastIndex(s, (c: char) => c == sep);
    assert s[|a|] == sep;
    assert forall i :: |a| < i < |s| ==> s[i] == b[i - |a| - 1];
    assert at == Some(|a|);
    assert s[..|a|] == a && s[|a| + 1..] == b;
  }

  // A name with a stamp before the first dash and a digest behind the last one.
  ghost predicate NameOf(name: string, planId: string) {
    exists stamp: string, digest: string :: Parts(name, stamp, planId, digest)
  }

  predicate Parts(name: string, stamp: string, planId: string, digest: string) {
    && name == stamp + "-" + planId + "-" + digest + ".json"
    && '-' !in stamp && planId != "" && digest != "" && '-' !in digest
  }

  lemma PartsParse(name: string, stamp: string, planId: string, digest: string)
    requires Parts(name, stamp, planId, digest)
    ensures PlanIdOfName(name) == Some(planId)
  {
    var rest := planId + "-" + digest;
    assert name == stamp + ['-'] + rest + ".json";
    assert name[..|name| - 5] == stamp + ['-'] + rest && name[|name| - 5..] == ".json";
    CutFirstAt(stamp, rest, '-');
    CutLastAt(planId, digest, '-');
  }

  // Exactly such names give a plan id, and it is the one between the dashes.
  lemma ParsesExactly(name: string, planId: string)
    ensures PlanIdOfName(name) == Some(planId) <==> NameOf(name, planId)
  {
    if PlanIdOfName(name) == Some(planId) {
      var front := name[..|name| - 5];
      var (stamp, rest) := CutFirst(front, '-').value;
      var (id, digest) := CutLast(rest, '-').value;
      assert name == front + ".json" && front == stamp + "-" + rest && rest == id + "-" + digest;
      assert Parts(name, stamp, planId, digest);
    }
    if NameOf(name, planId) {
      var stamp: string, digest: string :| Parts(name, stamp, planId, digest);
      PartsParse(name, stamp, planId, digest);
    }
  }

  // Snapshot names print and parse back, whatever dashes the plan id holds.
  lemma NameRoundTrip(stamp: nat, planId: string, digest: string)
    requires planId != "" && digest != "" && '-' !in digest
    ensures PlanIdOfName(SnapshotName(stamp, planId, digest)) == Some(planId)
  {
    PartsParse(SnapshotName(stamp, planId, digest), Text.Padded(stamp, 20), planId, digest);
  }

  // The name of each snapshot, given the digest of its encoding.
  function NamesBy(digest: Snapshot -> string): Snapshot -> string {
    (s: Snapshot) => SnapshotName(s.updatedAt, s.planId, digest(s))
  }

  ghost predicate HexDigest(digest: Snapshot -> string) {
    forall s :: |digest(s)| == 16 && '-' !in digest(s)
  }

  // What the store needs from names: they tell the plan, and they sort by update stamp.
  ghost predicate TellsPlan(names: Snapshot -> string) {
    forall s: Snapshot {:trigger PlanIdOfName(names(s))} :: s.planId != "" ==> PlanIdOfName(names(s)) == Some(s.planId)
  }

  ghost predicate SortsByStamp(names: Snapshot -> string) {
    && (forall a: Snapshot, b: Snapshot :: a.updatedAt < b.updatedAt ==> Text.Less(names(a), names(b)))
    && (forall a: Snapshot, b: Snapshot ::
          a.planId != "" && b.planId != "" && names(a) == names(b) ==> a.planId == b.planId)
  }

  lemma NamingLaws(digest: Snapshot -> string)
    requires HexDigest(digest)
    ensures TellsPlan(NamesBy(digest)) && SortsByStamp(NamesBy(digest))
  {
    forall s: Snapshot | s.planId != "" ensures PlanIdOfName(NamesBy(digest)(s)) == Some(s.planId) {
      NameRoundTrip(s.updatedAt, s.planId, digest(s));
    }
    forall a: Snapshot, b: Snapshot | a.updatedAt < b.updatedAt
      ensures Text.Less(NamesBy(digest)(a), NamesBy(digest)(b))
    {
      SplitName(a.updatedAt, a.planId, digest(a));
      SplitName(b.updatedAt, b.planId, digest(b));
      Text.NamesFollowStamps(a.updatedAt, b.updatedAt, NameTail(a.planId, digest(a)), NameTail(b.planId, digest(b)));
    }
  }

  function NameTail(planId: string, digest: string): string {
    "-" + planId + "-" + digest + ".json"
  }

  lemma SplitName(stamp: nat, planId: string, digest: string)
    ensures SnapshotName(stamp, planId, digest) == Text.Padded(stamp, 20) + NameTail(planId, digest)
  {
  }
}
