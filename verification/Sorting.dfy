// Listing a finite set in the order of a strict total order: what `BTreeSet` iteration
// and `sort` followed by `dedup` produce.
module Sorting {
  import opened Wrappers

  ghost predicate StrictTotal<T(!new)>(less: (T, T) -> bool) {
    && (forall a :: !less(a, a))
    && (forall a, b, c :: less(a, b) && less(b, c) ==> less(a, c))
    && (forall a, b :: a == b || less(a, b) || less(b, a))
  }

  ghost predicate Increasing<T(!new)>(s: seq<T>, less: (T, T) -> bool) {
    forall i, j :: 0 <= i < j < |s| ==> less(s[i], s[j])
  }

  function Elements<T>(s: seq<T>): set<T> {
    set x | x in s
  }

  predicate Least<T(!new)>(x: T, s: set<T>, less: (T, T) -> bool) {
    x in s && forall y :: y in s && y != x ==> less(x, y)
  }

  lemma {:induction false} LeastExists<T(!new)>(s: set<T>, less: (T, T) -> bool)
    requires s != {} && StrictTotal(less)
    ensures exists x :: Least(x, s, less)
  {
    var x :| x in s;
    if s == {x} {
      assert Least(x, s, less);
    } else {
      LeastExists(s - {x}, less);
      var m :| Least(m, s - {x}, less);
      var least := if less(x, m) then x else m;
      forall y | y in s && y != least ensures less(least, y) {
        assert y == x || y in s - {x};
      }
      assert Least(least, s, less);
    }
  }

  function Ascending<T(!new)>(s: set<T>, less: (T, T) -> bool): (list: seq<T>)
    requires StrictTotal(less)
    ensures Increasing(list, less)
    ensures Elements(list) == s && |list| == |s|
  {
    if s == {} then [] else
      var least := LeastOf(s, less);
      var rest := Ascending(s - {least}, less);
      ElementsCons(least, rest);
      [least] + rest
  }

  function LeastOf<T(!new)>(s: set<T>, less: (T, T) -> bool): (least: T)
    requires s != {} && StrictTotal(less)
    ensures Least(least, s, less)
  {
    LeastExists(s, less);
    var least :| Least(least, s, less);
    least
  }

  lemma ElementsCons<T(!new)>(x: T, s: seq<T>)
    ensures Elements([x] + s) == {x} + Elements(s)
  {
    assert forall y :: y in [x] + s <==> y == x || y in s;
  }

  lemma NextElement<T>(s: seq<T>, i: nat)
    requires i < |s|
    ensures Elements(s[..i + 1]) == Elements(s[..i]) + {s[i]}
    ensures Distinct(s) ==> s[i] !in Elements(s[..i])
  {
    assert s[..i + 1] == s[..i] + [s[i]];
  }

  lemma FirstIsLeast<T(!new)>(a: seq<T>, less: (T, T) -> bool)
    requires a != [] && Increasing(a, less)
    ensures a[0] in Elements(a)
    ensures forall x :: x in Elements(a) ==> x == a[0] || less(a[0], x)
  {
    forall x | x in Elements(a) ensures x == a[0] || less(a[0], x) {
      var i :| 0 <= i < |a| && a[i] == x;
    }
  }

  lemma EmptyElements<T(!new)>(s: seq<T>)
    ensures Elements(s) == {} <==> s == []
  {
    assert s != [] ==> s[0] in Elements(s);
  }

  // A set has one increasing listing.
  lemma {:induction false} IncreasingUnique<T(!new)>(a: seq<T>, b: seq<T>, less: (T, T) -> bool)
    requires StrictTotal(less) && Increasing(a, less) && Increasing(b, less)
    requires Elements(a) == Elements(b)
    ensures a == b
  {
    EmptyElements(a);
    EmptyElements(b);
    if a != [] {
      FirstIsLeast(a, less);
      FirstIsLeast(b, less);
      assert a[0] == b[0];
      TailElements(a, less);
      TailElements(b, less);
      IncreasingUnique(a[1..], b[1..], less);
      assert a == [a[0]] + a[1..] && b == [b[0]] + b[1..];
    }
  }

  lemma TailElements<T(!new)>(a: seq<T>, less: (T, T) -> bool)
    requires a != [] && StrictTotal(less) && Increasing(a, less)
    ensures Elements(a[1..]) == Elements(a) - {a[0]} && Increasing(a[1..], less)
  {
    forall x | x in Elements(a) - {a[0]} ensures x in Elements(a[1..]) {
      var i :| 0 <= i < |a| && a[i] == x;
      assert a[1..][i - 1] == x;
    }
    forall x | x in Elements(a[1..]) ensures x in Elements(a) - {a[0]} {
      var i :| 0 <= i < |a[1..]| && a[1..][i] == x;
      assert a[i + 1] == x && less(a[0], a[i + 1]);
    }
  }

  // ---- Searching ------------------------------------------------------------

  // `Iterator::position`: the first index whose element satisfies `p`.
  function FirstIndex<T>(s: seq<T>, p: T -> bool): (at: Option<nat>)
    ensures at.Some? ==> at.value < |s| && p(s[at.value]) && forall i :: 0 <= i < at.value ==> !p(s[i])
    ensures at.None? ==> forall i :: 0 <= i < |s| ==> !p(s[i])
  {
    FirstFrom(s, p, 0)
  }

  function FirstFrom<T>(s: seq<T>, p: T -> bool, from: nat): (at: Option<nat>)
    requires from <= |s|
    ensures at.Some? ==> from <= at.value < |s| && p(s[at.value]) && forall i :: from <= i < at.value ==> !p(s[i])
    ensures at.None? ==> forall i :: from <= i < |s| ==> !p(s[i])
    decreases |s| - from
  {
    if from == |s| then None else if p(s[from]) then Some(from) else FirstFrom(s, p, from + 1)
  }

  // The last index whose element satisfies `p`, as a reverse scan finds it.
  function LastIndex<T>(s: seq<T>, p: T -> bool): (at: Option<nat>)
    ensures at.Some? ==> at.value < |s| && p(s[at.value]) && forall i :: at.value < i < |s| ==> !p(s[i])
    ensures at.None? ==> forall i :: 0 <= i < |s| ==> !p(s[i])
  {
    LastBelow(s, p, |s|)
  }

  function LastBelow<T>(s: seq<T>, p: T -> bool, below: nat): (at: Option<nat>)
    requires below <= |s|
    ensures at.Some? ==> at.value < below && p(s[at.value]) && forall i :: at.value < i < below ==> !p(s[i])
    ensures at.None? ==> forall i :: 0 <= i < below ==> !p(s[i])
  {
    if below == 0 then None else if p(s[below - 1]) then Some(below - 1) else LastBelow(s, p, below - 1)
  }

  lemma LastIndexOfSuffix<T>(s: seq<T>, p: T -> bool, drop: nat)
    requires drop <= |s|
    ensures LastIndex(s[drop..], p) == match LastIndex(s, p)
              case None => None
              case Some(k) => if k >= drop then Some(k - drop) else None
  {
    var (k, l) := (LastIndex(s, p), LastIndex(s[drop..], p));
    assert forall i :: drop <= i < |s| ==> s[i] == s[drop..][i - drop];
  }

  // Inserting an element that does not satisfy `p` moves the last index along.
  lemma LastIndexOfInsertion<T>(s: seq<T>, p: T -> bool, at: nat, x: T)
    requires at <= |s| && !p(x)
    ensures LastIndex(s[..at] + [x] + s[at..], p) == match LastIndex(s, p)
              case None => None
              case Some(k) => Some(if k < at then k else k + 1)
  {
    var t := s[..at] + [x] + s[at..];
    assert forall i :: 0 <= i < at ==> s[i] == t[i];
    assert forall i :: at <= i < |s| ==> s[i] == t[i + 1];
    assert forall i :: at < i < |t| ==> t[i] == s[i - 1];
  }

  // ---- Sequences without repetition ----------------------------------------

  predicate Distinct<T(==)>(s: seq<T>) {
    forall i, j :: 0 <= i < j < |s| ==> s[i] != s[j]
  }

  lemma {:induction false} DistinctSize<T>(s: seq<T>)
    ensures |Elements(s)| <= |s|
    ensures Distinct(s) <==> |Elements(s)| == |s|
  {
    if s != [] {
      var (init, last) := (s[..|s| - 1], s[|s| - 1]);
      DistinctSize(init);
      assert s == init + [last];
      assert Elements(s) == Elements(init) + {last};
      if last in init {
        var i :| 0 <= i < |init| && init[i] == last;
        assert s[i] == s[|s| - 1];
        assert Elements(s) == Elements(init);
      }
      assert Distinct(s) ==> Distinct(init);
      if Distinct(init) && last !in init {
        assert forall i, j :: 0 <= i < j < |s| ==> s[i] != s[j];
      }
    }
  }

  lemma {:induction false} SubsetSize<T>(a: set<T>, b: set<T>)
    requires a <= b
    ensures |a| <= |b|
    ensures a != b ==> |a| < |b|
  {
    if a != {} {
      var x :| x in a;
      SubsetSize(a - {x}, b - {x});
      assert a - {x} == b - {x} ==> a == b;
    }
  }

  lemma IncreasingDistinct<T(!new)>(s: seq<T>, less: (T, T) -> bool)
    requires Increasing(s, less) && forall x :: !less(x, x)
    ensures Distinct(s)
  {
  }

  // ---- Filtering and stable sorting ----------------------------------------------------

  function Select<T>(s: seq<T>, p: T -> bool): (kept: seq<T>)
    ensures |kept| <= |s|
  {
    if s == [] then [] else
      Select(s[..|s| - 1], p) + (if p(s[|s| - 1]) then [s[|s| - 1]] else [])
  }

  lemma {:induction false} SelectCount<T>(s: seq<T>, p: T -> bool, x: T)
    ensures multiset(Select(s, p))[x] == if p(x) then multiset(s)[x] else 0
  {
    if s != [] {
      SelectCount(s[..|s| - 1], p, x);
      assert s == s[..|s| - 1] + [s[|s| - 1]];
    }
  }

  function Insert<T>(x: T, s: seq<T>, less: (T, T) -> bool): seq<T> {
    if s == [] || !less(x, s[|s| - 1]) then s + [x]
    else Insert(x, s[..|s| - 1], less) + [s[|s| - 1]]
  }

  // `sort_by`: equal elements keep their order.
  function Sorted<T>(s: seq<T>, less: (T, T) -> bool): seq<T> {
    if s == [] then [] else Insert(s[|s| - 1], Sorted(s[..|s| - 1], less), less)
  }

  ghost predicate WeakOrder<T(!new)>(less: (T, T) -> bool) {
    && (forall a :: !less(a, a))
    && (forall a, b, c :: less(a, c) ==> less(a, b) || less(b, c))
    && (forall a, b, c :: less(a, b) && less(b, c) ==> less(a, c))
  }

  predicate NonDescending<T>(s: seq<T>, less: (T, T) -> bool) {
    forall i, j :: 0 <= i < j < |s| ==> !less(s[j], s[i])
  }

  lemma {:induction false} InsertContents<T>(x: T, s: seq<T>, less: (T, T) -> bool)
    ensures multiset(Insert(x, s, less)) == multiset(s) + multiset{x}
  {
    if s != [] && less(x, s[|s| - 1]) {
      InsertContents(x, s[..|s| - 1], less);
      assert s == s[..|s| - 1] + [s[|s| - 1]];
    }
  }

  lemma {:induction false} InsertOrder<T(!new)>(x: T, s: seq<T>, less: (T, T) -> bool)
    requires WeakOrder(less) && NonDescending(s, less)
    ensures NonDescending(Insert(x, s, less), less)
  {
    if s == [] {
    } else if !less(x, s[|s| - 1]) {
      InsertLast(x, s, less);
    } else {
      var (front, last) := (s[..|s| - 1], s[|s| - 1]);
      InsertOrder(x, front, less);
      InsertContents(x, front, less);
      assert less(x, last) && less(last, x) ==> less(x, x);
      assert s == front + [last];
      InsertedBelow(Insert(x, front, less), front, x, last, less);
    }
  }

  lemma NotLessChains<T(!new)>(x: T, y: T, z: T, less: (T, T) -> bool)
    requires WeakOrder(less) && !less(x, y) && !less(y, z)
    ensures !less(x, z)
  {
  }

  lemma InsertLast<T(!new)>(x: T, s: seq<T>, less: (T, T) -> bool)
    requires WeakOrder(less) && NonDescending(s, less) && s != [] && !less(x, s[|s| - 1])
    ensures NonDescending(s + [x], less)
  {
    var last := s[|s| - 1];
    forall i | 0 <= i < |s| ensures !less(x, s[i]) {
      NotLessChains(x, last, s[i], less);
    }
  }

  lemma InsertedBelow<T(!new)>(t: seq<T>, front: seq<T>, x: T, last: T, less: (T, T) -> bool)
    requires NonDescending(t, less) && NonDescending(front + [last], less)
    requires multiset(t) == multiset(front) + multiset{x} && !less(last, x)
    ensures NonDescending(t + [last], less)
  {
    forall i | 0 <= i < |t| ensures !less(last, t[i]) {
      assert t[i] in multiset(t);
      if t[i] in front {
        var j :| 0 <= j < |front| && front[j] == t[i];
        assert (front + [last])[j] == t[i] && (front + [last])[|front|] == last;
      }
    }
  }

  lemma {:induction false} SortedContents<T>(s: seq<T>, less: (T, T) -> bool)
    ensures multiset(Sorted(s, less)) == multiset(s)
  {
    if s != [] {
      SortedContents(s[..|s| - 1], less);
      InsertContents(s[|s| - 1], Sorted(s[..|s| - 1], less), less);
      assert s == s[..|s| - 1] + [s[|s| - 1]];
    }
  }

  lemma {:induction false} SortedOrder<T(!new)>(s: seq<T>, less: (T, T) -> bool)
    requires WeakOrder(less)
    ensures NonDescending(Sorted(s, less), less)
  {
    if s != [] {
      SortedOrder(s[..|s| - 1], less);
      InsertOrder(s[|s| - 1], Sorted(s[..|s| - 1], less), less);
    }
  }

  function Image<T, U>(s: seq<T>, f: T -> U): (image: seq<U>)
    ensures |image| == |s| && forall i :: 0 <= i < |s| ==> image[i] == f(s[i])
  {
    seq(|s|, i requires 0 <= i < |s| => f(s[i]))
  }

  lemma WithoutOne<T>(s: seq<T>, j: nat)
    requires j < |s|
    ensures multiset(s) == multiset(s[..j] + s[j + 1..]) + multiset{s[j]}
    ensures multiset(s) - multiset{s[j]} == multiset(s[..j] + s[j + 1..])
  {
    assert s == (s[..j] + [s[j]]) + s[j + 1..];
  }

  lemma ImageWithoutOne<T, U>(s: seq<T>, j: nat, f: T -> U)
    requires j < |s|
    ensures multiset(Image(s, f)) == multiset(Image(s[..j] + s[j + 1..], f)) + multiset{f(s[j])}
  {
    var t := Image(s, f);
    WithoutOne(t, j);
    assert t[..j] + t[j + 1..] == Image(s[..j] + s[j + 1..], f);
  }

  // Mapping the elements of a permutation yields a permutation.
  lemma {:induction false} ImagePermutation<T, U>(a: seq<T>, b: seq<T>, f: T -> U)
    requires multiset(a) == multiset(b)
    ensures multiset(Image(a, f)) == multiset(Image(b, f))
  {
    if a == [] {
      assert |multiset(b)| == |multiset(a)|;
    } else {
      var i := |a| - 1;
      assert a[i] in multiset(b);
      var j :| 0 <= j < |b| && b[j] == a[i];
      WithoutOne(a, i);
      WithoutOne(b, j);
      ImagePermutation(a[..i] + a[i + 1..], b[..j] + b[j + 1..], f);
      ImageWithoutOne(a, i, f);
      ImageWithoutOne(b, j, f);
    }
  }

  lemma SortedMembers<T>(s: seq<T>, less: (T, T) -> bool)
    ensures forall x :: x in Sorted(s, less) <==> x in s
  {
    SortedContents(s, less);
    forall x ensures x in Sorted(s, less) <==> x in s {
      assert x in Sorted(s, less) <==> x in multiset(Sorted(s, less));
      assert x in s <==> x in multiset(s);
    }
  }
}
