// Strings as the program sees them: lexical order, decimal stamps with leading
// zeros, splitting on a separator, and the identifier checks that recur in the stores.
module Text {
  import Sorting

  // The byte order Rust uses for `String`, which is the code-point order.
  predicate Less(a: string, b: string) {
    b != [] && (a == [] || a[0] < b[0] || (a[0] == b[0] && Less(a[1..], b[1..])))
  }

  lemma {:induction false} LessIrreflexive(a: string)
    ensures !Less(a, a)
  {
    if a != [] {
      LessIrreflexive(a[1..]);
    }
  }

  lemma {:induction false} LessTransitive(a: string, b: string, c: string)
    requires Less(a, b) && Less(b, c)
    ensures Less(a, c)
  {
    if a != [] && a[0] == b[0] && b[0] == c[0] {
      LessTransitive(a[1..], b[1..], c[1..]);
    }
  }

  lemma {:induction false} LessTotal(a: string, b: string)
    ensures a == b || Less(a, b) || Less(b, a)
  {
    if a != [] && b != [] && a[0] == b[0] {
      LessTotal(a[1..], b[1..]);
      if a[1..] == b[1..] {
        assert a == [a[0]] + a[1..] && b == [b[0]] + b[1..];
      }
    }
  }

  lemma LessAsymmetric(a: string, b: string)
    requires Less(a, b)
    ensures !Less(b, a)
  {
    if Less(b, a) {
      LessTransitive(a, b, a);
      LessIrreflexive(a);
    }
  }

  lemma LessIsStrictTotal()
    ensures Sorting.StrictTotal(Less)
  {
    forall a: string ensures !Less(a, a) {
      LessIrreflexive(a);
    }
    forall a: string, b: string, c: string | Less(a, b) && Less(b, c) ensures Less(a, c) {
      LessTransitive(a, b, c);
    }
    forall a: string, b: string ensures a == b || Less(a, b) || Less(b, a) {
      LessTotal(a, b);
    }
  }

  // `a` ends first, or has the smaller character where the two part.
  predicate PartAt(a: string, b: string, at: nat) {
    && at <= |a| && at < |b| && a[..at] == b[..at]
    && (at == |a| || a[at] < b[at])
  }

  // The order of a dictionary.
  lemma {:induction false} LessIsLexical(a: string, b: string)
    ensures Less(a, b) <==> exists at: nat :: PartAt(a, b, at)
  {
    if Less(a, b) {
      if a == [] || a[0] < b[0] {
        assert PartAt(a, b, 0);
      } else {
        LessIsLexical(a[1..], b[1..]);
        var at: nat :| PartAt(a[1..], b[1..], at);
        assert a[..at + 1] == [a[0]] + a[1..][..at] && b[..at + 1] == [b[0]] + b[1..][..at];
        assert PartAt(a, b, at + 1);
      }
    }
    if at: nat :| PartAt(a, b, at) {
      if at < |a| {
        LessAt(a, b, at);
      } else {
        LongerIsMore(a, b);
      }
    }
  }

  lemma {:induction false} LongerIsMore(a: string, b: string)
    requires |a| < |b| && a == b[..|a|]
    ensures Less(a, b)
  {
    if a != [] {
      assert a[1..] == b[..|a|][1..] == b[1..][..|a| - 1];
      LongerIsMore(a[1..], b[1..]);
    }
  }

  // Two strings that first differ at position `at` are ordered by that character,
  // whatever follows it.
  lemma {:induction false} LessAt(a: string, b: string, at: nat)
    requires at < |a| && at < |b| && a[..at] == b[..at] && a[at] < b[at]
    ensures Less(a, b)
  {
    if at > 0 {
      assert a[0] == a[..at][0] && b[0] == b[..at][0];
      assert a[1..][..at - 1] == a[..at][1..] && b[1..][..at - 1] == b[..at][1..];
      LessAt(a[1..], b[1..], at - 1);
    }
  }

  // The order of two strings of one length decides the order of any extensions.
  lemma {:induction false} LessExtends(a: string, b: string, x: string, y: string)
    requires |a| == |b| && Less(a, b)
    ensures Less(a + x, b + y)
  {
    if a[0] == b[0] {
      LessExtends(a[1..], b[1..], x, y);
      assert (a + x)[1..] == a[1..] + x && (b + y)[1..] == b[1..] + y;
    }
  }

  // ---- Decimal stamps -------------------------------------------------------

  function Digit(n: nat): (c: char)
    requires n < 10
    ensures c as int == '0' as int + n
  {
    ('0' as int + n) as char
  }

  // `format!("{:0width$}", n)` for a number that fits in `width` digits.
  function Padded(n: nat, width: nat): (s: string)
    ensures |s| == width
    ensures forall i :: 0 <= i < |s| ==> '0' <= s[i] <= '9'
  {
    if width == 0 then "" else Padded(n / 10, width - 1) + [Digit(n % 10)]
  }

  function Power10(width: nat): (p: nat)
    ensures p > 0
  {
    if width == 0 then 1 else 10 * Power10(width - 1)
  }

  lemma LastDecides(a: string, x: char, y: char)
    requires x < y
    ensures Less(a + [x], a + [y])
  {
    assert (a + [x])[..|a|] == a == (a + [y])[..|a|];
    LessAt(a + [x], a + [y], |a|);
  }

  lemma PaddedSplit(n: nat, width: nat) returns (tens: nat, ones: nat)
    requires width > 0
    ensures ones < 10 && n == 10 * tens + ones && Padded(n, width) == Padded(tens, width - 1) + [Digit(ones)]
  {
    tens, ones := n / 10, n % 10;
  }

  // Zero padding makes lexical order the numeric order.
  lemma {:induction false} PaddedOrder(m: nat, n: nat, width: nat)
    requires m < n < Power10(width)
    ensures Less(Padded(m, width), Padded(n, width))
  {
    var s, x := PaddedSplit(m, width);
    var t, y := PaddedSplit(n, width);
    assert s < t || (s == t && x < y);
    if s < t {
      PaddedOrder(s, t, width - 1);
      LessExtends(Padded(s, width - 1), Padded(t, width - 1), [Digit(x)], [Digit(y)]);
    } else {
      LastDecides(Padded(s, width - 1), Digit(x), Digit(y));
    }
  }

  // The number some digits stand for.
  function Number(s: string): nat
    requires forall i :: 0 <= i < |s| ==> '0' <= s[i] <= '9'
  {
    if s == "" then 0 else 10 * Number(s[..|s| - 1]) + (s[|s| - 1] as int - '0' as int)
  }

  // A number that fits reads back.
  lemma {:induction false} PaddedReadsBack(n: nat, width: nat)
    requires n < Power10(width)
    ensures Number(Padded(n, width)) == n
  {
    if width > 0 {
      var tens, ones := PaddedSplit(n, width);
      PaddedReadsBack(tens, width - 1);
      assert Padded(n, width)[..width - 1] == Padded(tens, width - 1);
    }
  }

  const MAX_STAMP: nat := 0xffff_ffff_ffff_ffff

  // A 64-bit time in milliseconds.
  type Stamp = n: nat | n <= MAX_STAMP

  lemma StampFits()
    ensures MAX_STAMP < Power10(20)
  {
    assert Power10(5) == 100000;
    assert Power10(10) == 10000000000;
    assert Power10(15) == 1000000000000000;
  }

  // Later stamps sort after earlier ones, whatever follows them in the name.
  lemma NamesFollowStamps(a: Stamp, b: Stamp, x: string, y: string)
    requires a < b
    ensures Less(Padded(a, 20) + x, Padded(b, 20) + y)
  {
    StampFits();
    PaddedOrder(a, b, 20);
    LessExtends(Padded(a, 20), Padded(b, 20), x, y);
  }

  // ---- Splitting ------------------------------------------------------------

  // `str::split`: always at least one part, none of which holds the separator.
  function Split(s: string, sep: char): (parts: seq<string>)
    ensures |parts| >= 1
    ensures forall i :: 0 <= i < |parts| ==> sep !in parts[i]
  {
    if s == [] then [""]
    else
      Prefixed(s[0], Split(s[1..], sep), sep)
  }

  function Join(parts: seq<string>, sep: char): string
    requires |parts| >= 1
  {
    if |parts| == 1 then parts[0] else parts[0] + [sep] + Join(parts[1..], sep)
  }

  // `Split` of a non-empty text from the parts of its tail.
  function Prefixed(c: char, rest: seq<string>, sep: char): (parts: seq<string>)
    requires |rest| >= 1
  {
    if c == sep then [""] + rest else [[c] + rest[0]] + rest[1..]
  }

  lemma JoinPrefixed(c: char, rest: seq<string>, sep: char)
    requires |rest| >= 1
    ensures Join(Prefixed(c, rest, sep), sep) == [c] + Join(rest, sep)
  {
    var parts := Prefixed(c, rest, sep);
    if c == sep {
      assert parts[1..] == rest;
    } else {
      assert parts[1..] == rest[1..];
      if |rest| > 1 {
        assert [c] + rest[0] + [sep] + Join(rest[1..], sep) == [c] + Join(rest, sep);
      }
    }
  }

  lemma {:induction false} JoinSplit(s: string, sep: char)
    ensures Join(Split(s, sep), sep) == s
  {
    if s != [] {
      JoinSplit(s[1..], sep);
      JoinPrefixed(s[0], Split(s[1..], sep), sep);
      assert s == [s[0]] + s[1..];
    }
  }

  lemma PrefixedConcat(c: char, x: seq<string>, y: seq<string>, sep: char)
    requires |x| >= 1
    ensures Prefixed(c, x + y, sep) == Prefixed(c, x, sep) + y
  {
    assert (x + y)[1..] == x[1..] + y;
  }

  // Splitting at a separator between two texts splits each of them.
  lemma {:induction false} SplitConcat(a: string, b: string, sep: char)
    ensures Split(a + [sep] + b, sep) == Split(a, sep) + Split(b, sep)
  {
    var whole := a + [sep] + b;
    if a == [] {
      assert whole[0] == sep && whole[1..] == b;
    } else {
      var tail := a[1..] + [sep] + b;
      assert whole[0] == a[0] && whole[1..] == tail;
      SplitConcat(a[1..], b, sep);
      PrefixedConcat(a[0], Split(a[1..], sep), Split(b, sep), sep);
    }
  }

  lemma {:induction false} JoinConcat(a: seq<string>, b: seq<string>, sep: char)
    requires |a| >= 1 && |b| >= 1
    ensures Join(a + b, sep) == Join(a, sep) + [sep] + Join(b, sep)
  {
    if |a| == 1 {
      assert (a + b)[1..] == b;
    } else {
      assert (a + b)[1..] == a[1..] + b;
      JoinConcat(a[1..], b, sep);
    }
  }

  // ---- Identifier checks ----------------------------------------------------

  predicate IsWhitespace(c: char) {
    var n := c as int;
    (0x09 <= n <= 0x0d) || n in {0x20, 0x85, 0xa0, 0x1680, 0x2028, 0x2029, 0x202f, 0x205f, 0x3000}
    || (0x2000 <= n <= 0x200a)
  }

  predicate IsControl(c: char) {
    (c as int) < 0x20 || 0x7f <= (c as int) <= 0x9f
  }

  // The code points Unicode calls white space, and those of its category `Cc`: what stands
  // below the printable half of each of the first two blocks of 128, and the delete character.
  lemma CharacterClasses(c: char)
    ensures IsWhitespace(c) <==> c as int in {
              9, 10, 11, 12, 13, 32, 133, 160, 5760, 8192, 8193, 8194, 8195, 8196, 8197, 8198, 8199, 8200, 8201, 8202,
              8232, 8233, 8239, 8287, 12288}
    ensures IsControl(c) <==> (c as int) < 160 && ((c as int) % 128 < 32 || c as int == 127)
  {
  }

  // `value.trim().is_empty()`
  predicate Blank(s: string) {
    forall i :: 0 <= i < |s| ==> IsWhitespace(s[i])
  }

  // Some character of it shows.
  predicate Says(s: string) {
    exists i :: 0 <= i < |s| && !IsWhitespace(s[i])
  }

  lemma SaysIsNotBlank(s: string)
    ensures Says(s) <==> !Blank(s)
  {
  }

  // A name shows something, is not too long and holds no control character.
  predicate Name(s: string, limit: nat) {
    Says(s) && |s| <= limit && forall i :: 0 <= i < |s| ==> !IsControl(s[i])
  }

  lemma NameIsValidId(s: string, limit: nat)
    ensures Name(s, limit) <==> ValidId(s, limit)
  {
    SaysIsNotBlank(s);
  }

  predicate ValidId(s: string, limit: nat) {
    !Blank(s) && |s| <= limit && forall i :: 0 <= i < |s| ==> !IsControl(s[i])
  }
}
