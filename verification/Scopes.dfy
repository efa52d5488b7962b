// Write scopes: when two sets of repository path scopes may touch a common path.
module Scopes {
  import Text

  function LowerChar(c: char): char {
    if 'A' <= c <= 'Z' then (c as int + 32) as char else c
  }

  function Lower(s: string): (t: string)
    ensures |t| == |s| && forall i :: 0 <= i < |s| ==> t[i] == LowerChar(s[i])
  {
    seq(|s|, i requires 0 <= i < |s| => LowerChar(s[i]))
  }

  // The string test of the program; file systems decide whether case counts.
  predicate ScopeContains(parent: string, child: string, ignoreCase: bool) {
    if !ignoreCase then
      parent == child || (parent <= child && |child| > |parent| && child[|parent|] == '/')
    else
      |child| >= |parent| && Lower(child[..|parent|]) == Lower(parent)
      && (|child| == |parent| || child[|parent|] == '/')
  }

  predicate WriteScopesConflict(left: seq<string>, right: seq<string>, ignoreCase: bool) {
    left == [] || right == []
    || exists l, r :: l in left && r in right
         && (ScopeContains(l, r, ignoreCase) || ScopeContains(r, l, ignoreCase))
  }

  predicate ValidWriteScope(scope: string) {
    && !Text.Blank(scope) && |scope| <= 300
    && scope[0] != '/' && '\\' !in scope && '\0' !in scope && '\n' !in scope && '\r' !in scope
    && forall c :: c in Text.Split(scope, '/') ==> c != "" && c != "." && c != ".." && ':' !in c
  }

  // ---- The meaning of a scope -----------------------------------------------

  function Components(path: string, ignoreCase: bool): seq<string> {
    Text.Split(if ignoreCase then Lower(path) else path, '/')
  }

  // `path` is the scope itself or lies below it.
  predicate Under(scope: string, path: string, ignoreCase: bool) {
    Components(scope, ignoreCase) <= Components(path, ignoreCase)
  }

  // A task without scopes may write anywhere.
  predicate Governs(scopes: seq<string>, path: string, ignoreCase: bool) {
    scopes == [] || exists s :: s in scopes && Under(s, path, ignoreCase)
  }

  lemma ExactContainment(parent: string, child: string)
    ensures ScopeContains(parent, child, false) <==> Under(parent, child, false)
  {
    if ScopeContains(parent, child, false) && parent != child {
      var tail := child[|parent| + 1..];
      assert child == parent + ['/'] + tail;
      Text.SplitConcat(parent, tail, '/');
    }
    if Text.Split(parent, '/') <= Text.Split(child, '/') {
      PrefixContains(parent, child);
    }
  }

  lemma PrefixContains(parent: string, child: string)
    requires Text.Split(parent, '/') <= Text.Split(child, '/')
    ensures ScopeContains(parent, child, false)
  {
    Text.JoinSplit(parent, '/');
    Text.JoinSplit(child, '/');
    PartsContain(parent, child, Text.Split(parent, '/'), Text.Split(child, '/'));
  }

  lemma PartsContain(parent: string, child: string, p: seq<string>, c: seq<string>)
    requires 1 <= |p| <= |c| && p <= c && parent == Text.Join(p, '/') && child == Text.Join(c, '/')
    ensures ScopeContains(parent, child, false)
  {
    if |p| < |c| {
      var rest := c[|p|..];
      assert p + rest == c;
      Text.JoinConcat(p, rest, '/');
      TailIsContained(parent, Text.Join(rest, '/'));
    } else {
      assert p == c;
    }
  }

  lemma TailIsContained(parent: string, tail: string)
    ensures ScopeContains(parent, parent + ['/'] + tail, false)
  {
  }

  // The string test is component-prefix containment, with and without case.
  lemma ContainmentIsComponentPrefix(parent: string, child: string, ignoreCase: bool)
    ensures ScopeContains(parent, child, ignoreCase) <==> Under(parent, child, ignoreCase)
  {
    if ignoreCase {
      ExactContainment(Lower(parent), Lower(child));
      if |child| >= |parent| {
        assert Lower(child[..|parent|]) == Lower(child)[..|parent|];
      }
    } else {
      ExactContainment(parent, child);
    }
  }

  // The conflict test is exact: scopes conflict when, and only when, some path is governed by both.
  lemma ConflictIsSharedPath(left: seq<string>, right: seq<string>, ignoreCase: bool)
    ensures WriteScopesConflict(left, right, ignoreCase)
       <==> exists path :: Governs(left, path, ignoreCase) && Governs(right, path, ignoreCase)
  {
    if path :| Governs(left, path, ignoreCase) && Governs(right, path, ignoreCase) {
      if left != [] && right != [] {
        var l :| l in left && Under(l, path, ignoreCase);
        var r :| r in right && Under(r, path, ignoreCase);
        PrefixesComparable(Components(l, ignoreCase), Components(r, ignoreCase), Components(path, ignoreCase));
        ContainmentIsComponentPrefix(l, r, ignoreCase);
        ContainmentIsComponentPrefix(r, l, ignoreCase);
      }
    }
    if WriteScopesConflict(left, right, ignoreCase) {
      if left == [] || right == [] {
        var path := if left != [] then left[0] else if right != [] then right[0] else "";
        assert left != [] ==> Under(left[0], path, ignoreCase);
        assert right != [] && left == [] ==> Under(right[0], path, ignoreCase);
        assert Governs(left, path, ignoreCase) && Governs(right, path, ignoreCase);
      } else {
        var l, r :| l in left && r in right
          && (ScopeContains(l, r, ignoreCase) || ScopeContains(r, l, ignoreCase));
        ContainmentIsComponentPrefix(l, r, ignoreCase);
        ContainmentIsComponentPrefix(r, l, ignoreCase);
        var path := if ScopeContains(l, r, ignoreCase) then r else l;
        assert Under(l, path, ignoreCase) && Under(r, path, ignoreCase);
        assert Governs(left, path, ignoreCase) && Governs(right, path, ignoreCase);
      }
    }
  }

  lemma PrefixesComparable<T>(a: seq<T>, b: seq<T>, c: seq<T>)
    requires a <= c && b <= c
    ensures a <= b || b <= a
  {
    if |a| <= |b| {
      assert a == b[..|a|];
    } else {
      assert b == a[..|b|];
    }
  }
}
