// A store directory: files listed in ascending name order, each holding one record.
module Directory {
  import opened Wrappers
  import opened Sorting
  import Text

  // A file that cannot be read back as a valid record has no content.
  datatype File<+T> = File(name: string, content: Option<T>)

  // `read_dir` followed by `sort`: names are distinct and ascending.
  predicate Listing<T>(files: seq<File<T>>) {
    forall i, j :: 0 <= i < j < |files| ==> Text.Less(files[i].name, files[j].name)
  }

  function Named<T>(files: seq<File<T>>, name: string): Option<nat> {
    FirstIndex(files, (f: File<T>) => f.name == name)
  }

  // Where a new name belongs.
  function Place<T>(files: seq<File<T>>, name: string): (at: nat)
    ensures at <= |files|
  {
    match FirstIndex(files, (f: File<T>) => !Text.Less(f.name, name))
    case Some(at) => at
    case None => |files|
  }

  // The listing once `f` has been created.
  function Add<T>(files: seq<File<T>>, f: File<T>): (after: seq<File<T>>)
    ensures |after| == |files| + 1
  {
    var at := Place(files, f.name);
    files[..at] + [f] + files[at..]
  }

  function Without<T>(files: seq<File<T>>, k: nat): (after: seq<File<T>>)
    requires k < |files|
    ensures |after| == |files| - 1
  {
    files[..k] + files[k + 1..]
  }

  lemma AddContents<T>(files: seq<File<T>>, f: File<T>)
    ensures f in Add(files, f)
    ensures forall o :: o in Add(files, f) <==> o == f || o in files
  {
    var at := Place(files, f.name);
    assert files == files[..at] + files[at..];
    assert Add(files, f)[at] == f;
  }

  // Creating a file under a new name keeps the listing sorted: what was before it is
  // smaller, what comes after it is larger.
  lemma AddSorted<T>(files: seq<File<T>>, f: File<T>)
    requires Listing(files) && Named(files, f.name).None?
    ensures Listing(Add(files, f))
    ensures forall i :: 0 <= i < Place(files, f.name) ==> Text.Less(files[i].name, f.name)
    ensures forall i :: Place(files, f.name) <= i < |files| ==> Text.Less(f.name, files[i].name)
  {
    var at := Place(files, f.name);
    forall i | at <= i < |files| ensures Text.Less(f.name, files[i].name) {
      Text.LessTotal(files[at].name, f.name);
      if at < i {
        Text.LessTransitive(f.name, files[at].name, files[i].name);
      }
    }
    var after := Add(files, f);
    forall i, j | 0 <= i < j < |after| ensures Text.Less(after[i].name, after[j].name) {
      if i < at && at < j {
        Text.LessTransitive(files[i].name, f.name, files[j - 1].name);
      }
    }
  }

  lemma UniqueName<T>(files: seq<File<T>>, at: nat)
    requires Listing(files) && at < |files|
    ensures forall i :: 0 <= i < |files| && files[i].name == files[at].name ==> i == at
  {
    Text.LessIrreflexive(files[at].name);
  }

  lemma WithoutAt<T>(files: seq<File<T>>, k: nat, i: nat)
    requires k < |files| && i < |files| - 1
    ensures Without(files, k)[i] == files[if i < k then i else i + 1]
  {
  }

  lemma ListingWithout<T>(files: seq<File<T>>, k: nat)
    requires Listing(files) && k < |files|
    ensures Listing(Without(files, k))
    ensures files[k] !in Without(files, k)
    ensures forall f :: f in files && f != files[k] ==> f in Without(files, k)
  {
    var after := Without(files, k);
    forall i, j | 0 <= i < j < |after| ensures Text.Less(after[i].name, after[j].name) {
      WithoutAt(files, k, i);
      WithoutAt(files, k, j);
    }
    WithoutMembers(files, k);
  }

  lemma WithoutMembers<T>(files: seq<File<T>>, k: nat)
    requires Listing(files) && k < |files|
    ensures forall f :: f in Without(files, k) <==> f in files && f != files[k]
  {
    var after := Without(files, k);
    UniqueName(files, k);
    forall i | 0 <= i < |after| ensures after[i] in files && after[i] != files[k] {
      WithoutAt(files, k, i);
    }
    forall f | f in files && f != files[k] ensures f in after {
      var i :| 0 <= i < |files| && files[i] == f;
      WithoutAt(files, k, if i < k then i else i - 1);
    }
  }

  // ---- The newest names ------------------------------------------------------------

  function NamesOf<T>(files: seq<File<T>>): set<string> {
    set i | 0 <= i < |files| :: files[i].name
  }

  function Above(names: set<string>, name: string): set<string> {
    set n | n in names && Text.Less(name, n)
  }

  lemma NamesCount<T>(files: seq<File<T>>)
    requires Listing(files)
    ensures |NamesOf(files)| == |files|
  {
    var names := seq(|files|, i requires 0 <= i < |files| => files[i].name);
    forall i, j | 0 <= i < j < |names| ensures names[i] != names[j] {
      Text.LessIrreflexive(names[i]);
    }
    DistinctSize(names);
    assert Elements(names) == NamesOf(files) by {
      forall n | n in NamesOf(files) ensures n in names {
        var i :| 0 <= i < |files| && files[i].name == n;
        assert names[i] == n;
      }
    }
  }

  // In a listing, what sorts above a file is what stands behind it.
  lemma AboveIsBehind<T>(files: seq<File<T>>, k: nat)
    requires Listing(files) && k < |files|
    ensures Above(NamesOf(files), files[k].name) == NamesOf(files[k + 1..])
  {
    var (name, behind) := (files[k].name, files[k + 1..]);
    forall n ensures n in Above(NamesOf(files), name) <==> n in NamesOf(behind) {
      if n in Above(NamesOf(files), name) {
        var i :| 0 <= i < |files| && files[i].name == n;
        BehindIndex(files, k, i);
        assert behind[i - k - 1].name in NamesOf(behind);
      }
      if n in NamesOf(behind) {
        var i :| 0 <= i < |behind| && behind[i].name == n;
        assert files[k + 1 + i].name in NamesOf(files);
      }
    }
  }

  lemma BehindIndex<T>(files: seq<File<T>>, k: nat, i: nat)
    requires Listing(files) && k < |files| && i < |files| && Text.Less(files[k].name, files[i].name)
    ensures k < i
  {
    if i == k {
      Text.LessIrreflexive(files[k].name);
    } else if i < k {
      Text.LessAsymmetric(files[k].name, files[i].name);
    }
  }

  lemma AboveIndex<T>(files: seq<File<T>>, k: nat)
    requires Listing(files) && k < |files|
    ensures |Above(NamesOf(files), files[k].name)| == |files| - 1 - k
  {
    AboveIsBehind(files, k);
    var behind := files[k + 1..];
    assert forall i :: 0 <= i < |behind| ==> behind[i] == files[k + 1 + i];
    NamesCount(behind);
  }

  // Creating a file adds its name and nothing else.
  lemma AddNames<T>(files: seq<File<T>>, f: File<T>)
    ensures NamesOf(Add(files, f)) == NamesOf(files) + {f.name}
  {
    var (at, after) := (Place(files, f.name), Add(files, f));
    assert after[at].name in NamesOf(after);
    forall n | n in NamesOf(files) ensures n in NamesOf(after) {
      var i :| 0 <= i < |files| && files[i].name == n;
      assert after[if i < at then i else i + 1].name in NamesOf(after);
    }
    forall n | n in NamesOf(after) ensures n in NamesOf(files) + {f.name} {
      var i :| 0 <= i < |after| && after[i].name == n;
      assert i < at ==> files[i].name in NamesOf(files);
      assert i > at ==> files[i - 1].name in NamesOf(files);
    }
  }

  // Of at least `k` names, `k` have fewer than `k` above them.
  lemma {:induction false} TopExists(names: set<string>, k: nat) returns (top: set<string>)
    requires |names| >= k
    ensures top <= names && |top| == k
    ensures forall n :: n in top ==> |Above(names, n)| < k
  {
    if k == 0 {
      top := {};
    } else {
      Text.LessIsStrictTotal();
      LeastExists(names, Text.Less);
      var least :| Least(least, names, Text.Less);
      if |names| == k {
        top := names;
        forall n | n in top ensures |Above(names, n)| < k {
          Text.LessIrreflexive(n);
          SubsetSize(Above(names, n), names - {n});
        }
      } else {
        top := TopExists(names - {least}, k);
        forall n | n in top ensures Above(names, n) == Above(names - {least}, n) {
          Text.LessAsymmetric(least, n);
        }
      }
    }
  }

  // The `k` names that sort last.
  function Last(names: set<string>, k: nat): set<string> {
    set n | n in names && |Above(names, n)| < k
  }

  lemma InLast<T>(files: seq<File<T>>, i: nat, k: nat)
    requires Listing(files) && i < |files|
    ensures files[i].name in Last(NamesOf(files), k) <==> |files| - 1 - i < k
  {
    AboveIndex(files, i);
  }

  lemma LastOfListing<T>(files: seq<File<T>>, drop: nat)
    requires Listing(files) && drop <= |files|
    ensures NamesOf(files[drop..]) == Last(NamesOf(files), |files| - drop)
  {
    var k := |files| - drop;
    forall i | 0 <= i < |files[drop..]| ensures files[drop..][i].name in Last(NamesOf(files), k) {
      InLast(files, drop + i, k);
    }
    LastIsBehind(files, drop);
  }

  lemma LastIsBehind<T>(files: seq<File<T>>, drop: nat)
    requires Listing(files) && drop <= |files|
    ensures Last(NamesOf(files), |files| - drop) <= NamesOf(files[drop..])
  {
    forall n | n in Last(NamesOf(files), |files| - drop) ensures n in NamesOf(files[drop..]) {
      var i: nat :| i < |files| && files[i].name == n;
      InLast(files, i, |files| - drop);
      assert files[drop..][i - drop].name == n;
    }
  }

  lemma AboveGrows(names: set<string>, more: set<string>, name: string)
    requires names <= more
    ensures |Above(names, name)| <= |Above(more, name)|
  {
    SubsetSize(Above(names, name), Above(more, name));
  }

  // What has fewer above it sorts higher.
  lemma FewerAbove(names: set<string>, low: string, high: string)
    requires low in names && high in names && |Above(names, high)| < |Above(names, low)|
    ensures Text.Less(low, high)
  {
    Text.LessTotal(low, high);
    if !Text.Less(low, high) {
      forall n | n in Above(names, low) ensures n in Above(names, high) {
        if high != low {
          Text.LessTransitive(high, low, n);
        }
      }
      SubsetSize(Above(names, low), Above(names, high));
    }
  }

  lemma TopIsAbove(kept: set<string>, names: set<string>, k: nat, low: string)
    requires low in kept && kept <= names && |Above(names, low)| >= k
    requires Last(names, k) <= kept
    ensures |Above(kept, low)| >= k
  {
    SubsetSize(Above(names, low), names);
    var top := TopExists(names, k);
    forall n | n in top ensures n in Above(kept, low) {
      FewerAbove(names, low, n);
    }
    SubsetSize(top, Above(kept, low));
  }

  // Dropping names that are not among the last loses nothing for later.
  lemma LastOfLast(names: set<string>, n: string, k: nat)
    ensures Last(Last(names, k) + {n}, k) == Last(names + {n}, k)
  {
    var (kept, all) := (Last(names, k) + {n}, names + {n});
    forall m | m in Last(all, k) ensures m in kept && m in Last(kept, k) {
      AboveGrows(names, all, m);
      AboveGrows(kept, all, m);
    }
    forall m | m in Last(kept, k) ensures m in Last(all, k) {
      if |Above(all, m)| >= k {
        TopIsAbove(kept, all, k, m);
      }
    }
  }
}
