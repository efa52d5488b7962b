// Folds over a history, and when the order of the history does not matter.
module Folding {
  import Sorting

  function Fold<S, X>(step: (S, X) -> S, init: S, xs: seq<X>): S {
    if xs == [] then init else step(Fold(step, init, xs[..|xs| - 1]), xs[|xs| - 1])
  }

  lemma {:induction false} FoldAppend<S, X>(step: (S, X) -> S, init: S, a: seq<X>, b: seq<X>)
    ensures Fold(step, init, a + b) == Fold(step, Fold(step, init, a), b)
  {
    if b == [] {
      assert a + b == a;
    } else {
      var n := |b| - 1;
      FoldAppend(step, init, a, b[..n]);
      assert (a + b)[..|a + b| - 1] == a + b[..n];
    }
  }

  // A fold keeps what its step keeps and, once a step has done its element, it stays done.
  lemma {:induction false} FoldCovers<S(!new), X>(
    step: (S, X) -> S, init: S, xs: seq<X>, inv: S -> bool, done: (S, X) -> bool)
    requires inv(init)
    requires forall s, x :: x in xs && inv(s) ==> inv(step(s, x)) && done(step(s, x), x)
    requires forall s, x, y :: x in xs && y in xs && inv(s) && done(s, y) ==> done(step(s, x), y)
    ensures inv(Fold(step, init, xs)) && forall x :: x in xs ==> done(Fold(step, init, xs), x)
  {
    if xs != [] {
      var (front, last) := (xs[..|xs| - 1], xs[|xs| - 1]);
      assert xs == front + [last];
      forall s, x, y | x in front && y in front && inv(s) && done(s, y) ensures done(step(s, x), y) {
        assert x in xs && y in xs;
      }
      assert forall x :: x in front ==> x in xs;
      FoldCovers(step, init, front, inv, done);
    }
  }

  ghost predicate Commute<S(!new), X>(step: (S, X) -> S, x: X, y: X) {
    forall s :: step(step(s, x), y) == step(step(s, y), x)
  }

  // An element that commutes with all that follow may go last.
  lemma {:induction false} FoldPostpone<S(!new), X>(step: (S, X) -> S, init: S, x: X, q: seq<X>)
    requires forall y :: y in q ==> Commute(step, x, y)
    ensures Fold(step, init, [x] + q) == Fold(step, init, q + [x])
  {
    if q == [] {
      assert [x] + q == q + [x];
    } else {
      var n := |q| - 1;
      var (front, z) := (q[..n], q[n]);
      FoldPostpone(step, init, x, front);
      assert ([x] + q)[..n + 1] == [x] + front;
      assert (q + [x])[..n + 1] == q;
      assert (front + [x])[..n] == front;
      assert Commute(step, x, z);
    }
  }

  lemma FoldMoveLast<S(!new), X>(step: (S, X) -> S, init: S, a: seq<X>, j: nat)
    requires j < |a| && forall i :: j < i < |a| ==> Commute(step, a[j], a[i])
    ensures Fold(step, init, a) == Fold(step, init, (a[..j] + a[j + 1..]) + [a[j]])
  {
    assert a == a[..j] + ([a[j]] + a[j + 1..]);
    FoldMove(step, init, a[..j], a[j], a[j + 1..]);
  }

  lemma FoldMove<S(!new), X>(step: (S, X) -> S, init: S, front: seq<X>, x: X, back: seq<X>)
    requires forall y :: y in back ==> Commute(step, x, y)
    ensures Fold(step, init, front + ([x] + back)) == Fold(step, init, (front + back) + [x])
  {
    FoldAppend(step, init, front, [x] + back);
    FoldPostpone(step, Fold(step, init, front), x, back);
    FoldAppend(step, init, front, back + [x]);
    assert front + (back + [x]) == (front + back) + [x];
  }

  predicate SortedBy<X>(key: X -> nat, xs: seq<X>) {
    forall i, j :: 0 <= i < j < |xs| ==> key(xs[i]) <= key(xs[j])
  }

  // Two sorted histories of the same entries fold alike if entries of equal key commute.
  lemma {:induction false} FoldPermutation<S(!new), X(!new)>(
    step: (S, X) -> S, init: S, key: X -> nat, a: seq<X>, b: seq<X>)
    requires SortedBy(key, a) && SortedBy(key, b) && multiset(a) == multiset(b)
    requires forall x, y :: key(x) == key(y) ==> Commute(step, x, y)
    ensures Fold(step, init, a) == Fold(step, init, b)
    decreases |b|
  {
    if b == [] {
      assert |multiset(a)| == |multiset(b)|;
    } else {
      var n := |b| - 1;
      var y := b[n];
      assert y in multiset(b);
      var j :| 0 <= j < |a| && a[j] == y;
      LastKeys(key, a, b, j);
      FoldMoveLast(step, init, a, j);
      RemovedBoth(key, a, b, j);
      FoldPermutation(step, init, key, a[..j] + a[j + 1..], b[..n]);
      LastStep(step, init, a[..j] + a[j + 1..], y);
    }
  }

  lemma LastStep<S, X>(step: (S, X) -> S, init: S, xs: seq<X>, y: X)
    ensures Fold(step, init, xs + [y]) == step(Fold(step, init, xs), y)
  {
    assert (xs + [y])[..|xs|] == xs;
  }

  lemma RemovedBoth<X>(key: X -> nat, a: seq<X>, b: seq<X>, j: nat)
    requires multiset(a) == multiset(b) && b != [] && j < |a| && a[j] == b[|b| - 1]
    requires SortedBy(key, a) && SortedBy(key, b)
    ensures multiset(a[..j] + a[j + 1..]) == multiset(b[..|b| - 1])
    ensures SortedBy(key, a[..j] + a[j + 1..]) && SortedBy(key, b[..|b| - 1])
  {
    var n := |b| - 1;
    assert b[..n] + b[n + 1..] == b[..n];
    RemovedOne(key, a, j);
    RemovedOne(key, b, n);
  }

  lemma RemovedOne<X>(key: X -> nat, s: seq<X>, j: nat)
    requires j < |s| && SortedBy(key, s)
    ensures multiset(s[..j] + s[j + 1..]) == multiset(s) - multiset{s[j]} && SortedBy(key, s[..j] + s[j + 1..])
  {
    Sorting.WithoutOne(s, j);
    RemovedSorted(key, s, j);
  }

  lemma RemovedSorted<X>(key: X -> nat, s: seq<X>, j: nat)
    requires j < |s| && SortedBy(key, s)
    ensures SortedBy(key, s[..j] + s[j + 1..])
  {
    var rest := s[..j] + s[j + 1..];
    assert forall i :: 0 <= i < |rest| ==> rest[i] == s[if i < j then i else i + 1];
  }

  // Settling once before a batch, instead of before each of its entries, changes nothing
  // when a taught state stays settled.
  lemma {:induction false} FoldBatch<S(!new), X(!new)>(
    step: (S, X) -> S, teach: (S, X) -> S, settle: S -> S, init: S, prefix: seq<X>, batch: seq<X>)
    requires batch != []
    requires forall s, x :: x in batch ==> step(s, x) == teach(settle(s), x)
    requires forall s, x :: settle(teach(settle(s), x)) == teach(settle(s), x)
    ensures Fold(teach, settle(Fold(step, init, prefix)), batch) == Fold(step, init, prefix + batch)
    ensures settle(Fold(step, init, prefix + batch)) == Fold(step, init, prefix + batch)
  {
    var n := |batch| - 1;
    var x := batch[n];
    assert (prefix + batch)[..|prefix + batch| - 1] == prefix + batch[..n];
    if n == 0 {
      assert batch[..n] == [] && prefix + [] == prefix;
    } else {
      FoldBatch(step, teach, settle, init, prefix, batch[..n]);
    }
    assert step(Fold(step, init, prefix + batch[..n]), x) == teach(settle(Fold(step, init, prefix + batch[..n])), x);
  }

  // From an occurrence of the last entry on, all keys are equal.
  lemma LastKeys<X>(key: X -> nat, a: seq<X>, b: seq<X>, j: nat)
    requires SortedBy(key, a) && SortedBy(key, b) && multiset(a) == multiset(b)
    requires b != [] && j < |a| && a[j] == b[|b| - 1]
    ensures forall i :: j <= i < |a| ==> key(a[i]) == key(a[j])
  {
    forall i | j <= i < |a| ensures key(a[i]) == key(a[j]) {
      assert a[i] in multiset(a);
      var k :| 0 <= k < |b| && b[k] == a[i];
    }
  }
}
