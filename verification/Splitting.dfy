/**
 * Splitting text at a separator: everywhere, at most n times from the left,
 * and at most n times from the right.
 *
 * Main results: `SplitJoined`, and `RightSplitKeepsLast`, the bounded right
 * split ends with the last n pieces of the full split.
 */
module Splitting {
  // The pieces of a text with one more character on its left, or on its right.
  function Before(c: char, r: seq<string>, sep: char): (q: seq<string>)
    requires |r| >= 1
    ensures |q| == |r| + if c == sep then 1 else 0
  {
    if c == sep then [[]] + r else [[c] + r[0]] + r[1..]
  }

  function Behind(r: seq<string>, c: char, sep: char): (q: seq<string>)
    requires |r| >= 1
    ensures |q| == |r| + if c == sep then 1 else 0
  {
    if c == sep then r + [[]] else r[..|r| - 1] + [r[|r| - 1] + [c]]
  }

  function Split(s: string, sep: char): (r: seq<string>)
    ensures |r| >= 1
  {
    if s == [] then [[]] else Before(s[0], Split(s[1..], sep), sep)
  }

  function SplitMax(s: string, sep: char, n: nat): (r: seq<string>)
    ensures 1 <= |r| <= n + 1
    decreases |s|
  {
    if n == 0 then [s]
    else if s == [] then [[]]
    else Before(s[0], SplitMax(s[1..], sep, if s[0] == sep then n - 1 else n), sep)
  }

  function RightSplitMax(s: string, sep: char, n: nat): (r: seq<string>)
    ensures 1 <= |r| <= n + 1
    decreases |s|
  {
    if n == 0 then [s]
    else if s == [] then [[]]
    else
      var c := s[|s| - 1];
      Behind(RightSplitMax(s[..|s| - 1], sep, if c == sep then n - 1 else n), c, sep)
  }

  function Join(parts: seq<string>, sep: char): string
    requires parts != []
  {
    if |parts| == 1 then parts[0] else parts[0] + ([sep] + Join(parts[1..], sep))
  }

  // parts[-n:]
  function Last(parts: seq<string>, n: nat): seq<string> {
    if |parts| <= n then parts else parts[|parts| - n..]
  }

  lemma {:induction false} NoSeparator(a: string, sep: char, n: nat)
    requires sep !in a
    ensures SplitMax(a, sep, n) == [a]
    decreases |a|
  {
    if n > 0 && a != [] {
      NoSeparator(a[1..], sep, n);
      assert [a[0]] + a[1..] == a;
    }
  }

  lemma {:induction false} SplitOne(a: string, b: string, sep: char, n: nat)
    requires sep !in a && n > 0
    ensures SplitMax(a + ([sep] + b), sep, n) == [a] + SplitMax(b, sep, n - 1)
    decreases |a|
  {
    var s := a + ([sep] + b);
    if a == [] {
      assert s[1..] == b;
    } else {
      assert s[1..] == a[1..] + ([sep] + b);
      SplitOne(a[1..], b, sep, n);
      assert [a[0]] + a[1..] == a;
    }
  }

  /** Splitting joined pieces gives the pieces back when none of them holds the separator. */
  lemma {:induction false} SplitJoined(parts: seq<string>, sep: char, n: nat)
    requires parts != [] && n + 1 >= |parts|
    requires forall i :: 0 <= i < |parts| ==> sep !in parts[i]
    ensures SplitMax(Join(parts, sep), sep, n) == parts
    decreases |parts|
  {
    hide SplitMax;
    if |parts| == 1 {
      NoSeparator(parts[0], sep, n);
    } else {
      SplitOne(parts[0], Join(parts[1..], sep), sep, n);
      SplitJoined(parts[1..], sep, n - 1);
    }
  }

  /** The pieces joined give the text back, and only the last may hold the separator, after n others. */
  lemma {:induction false} JoinedSplit(s: string, sep: char, n: nat)
    ensures var parts := SplitMax(s, sep, n);
            && Join(parts, sep) == s
            && (forall i :: 0 <= i < |parts| - 1 ==> sep !in parts[i])
            && (|parts| <= n ==> sep !in parts[|parts| - 1])
    decreases |s|
  {
    hide Join, Before;
    if n == 0 || s == [] {
      JoinOne(s, sep);
    } else {
      var m := if s[0] == sep then n - 1 else n;
      JoinedSplit(s[1..], sep, m);
      BeforeJoined(s[0], SplitMax(s[1..], sep, m), sep);
      assert [s[0]] + s[1..] == s;
    }
  }

  lemma {:induction false} JoinOne(s: string, sep: char)
    ensures Join([s], sep) == s
  {
  }

  lemma {:induction false} BeforeJoined(c: char, r: seq<string>, sep: char)
    requires r != []
    ensures Join(Before(c, r, sep), sep) == [c] + Join(r, sep)
    ensures var q := Before(c, r, sep);
            && (c == sep ==> q[0] == [] && q[1..] == r)
            && (c != sep ==> q[0] == [c] + r[0] && q[1..] == r[1..])
  {
    if c != sep && |r| > 1 { Grouped([c], r[0], [sep] + Join(r[1..], sep)); }
  }

  lemma {:induction false} Grouped(a: string, b: string, c: string)
    ensures (a + b) + c == a + (b + c)
  {
  }

  // ----- The full split, read from the right -----

  lemma {:induction false} BeforeBehind(a: char, r: seq<string>, c: char, sep: char)
    requires |r| >= 1
    ensures Before(a, Behind(r, c, sep), sep) == Behind(Before(a, r, sep), c, sep)
  {
    assert [a] + (r[0] + [c]) == ([a] + r[0]) + [c];
  }

  lemma {:induction false} SplitSnoc(s: string, c: char, sep: char)
    ensures Split(s + [c], sep) == Behind(Split(s, sep), c, sep)
  {
    hide Before, Behind;
    if s == [] {
      assert s + [c] == [c] && [c][1..] == [];
      assert Split([c], sep) == Before(c, [[]], sep);
      OneCharacter(c, sep);
    } else {
      assert (s + [c])[1..] == s[1..] + [c];
      SplitSnoc(s[1..], c, sep);
      BeforeBehind(s[0], Split(s[1..], sep), c, sep);
    }
  }

  lemma {:induction false} OneCharacter(c: char, sep: char)
    ensures Before(c, [[]], sep) == Behind([[]], c, sep)
  {
    assert [c] + "" == [c] == "" + [c];
  }

  // Adding a character on the right of two piece lists with the same last pieces.
  lemma {:induction false} BehindKeepsLast(p: seq<string>, q: seq<string>, c: char, sep: char, n: nat)
    requires |p| >= 1 && |q| >= 1 && n > 0
    requires Last(p, if c == sep then n - 1 else n) == Last(q, if c == sep then n - 1 else n)
    requires |p| <= (if c == sep then n - 1 else n) ==> p == q
    ensures Last(Behind(p, c, sep), n) == Last(Behind(q, c, sep), n)
    ensures |Behind(p, c, sep)| <= n ==> Behind(p, c, sep) == Behind(q, c, sep)
  {
    if |p| > (if c == sep then n - 1 else n) {
      BehindLast(p, c, sep, n);
      BehindLast(q, c, sep, n);
    }
  }

  lemma {:induction false} BehindLast(p: seq<string>, c: char, sep: char, n: nat)
    requires |p| >= 1 && n > 0 && |p| >= if c == sep then n - 1 else n
    ensures var l := Last(p, if c == sep then n - 1 else n);
            Last(Behind(p, c, sep), n) == if c == sep then l + [[]] else l[..|l| - 1] + [l[|l| - 1] + [c]]
  {
  }

  /** The right split into at most n + 1 pieces ends with the last n pieces of the full split. */
  lemma {:induction false} RightSplitKeepsLast(s: string, sep: char, n: nat)
    ensures Last(RightSplitMax(s, sep, n), n) == Last(Split(s, sep), n)
    ensures |RightSplitMax(s, sep, n)| <= n ==> RightSplitMax(s, sep, n) == Split(s, sep)
    decreases |s|
  {
    hide Last, Behind, Split;
    if n == 0 {
      LastNone([s]);
      LastNone(Split(s, sep));
    } else if s == [] {
      SplitNothing(sep);
    } else {
      var front, c := s[..|s| - 1], s[|s| - 1];
      var m := if c == sep then n - 1 else n;
      assert s == front + [c];
      SplitSnoc(front, c, sep);
      RightSplitKeepsLast(front, sep, m);
      BehindKeepsLast(RightSplitMax(front, sep, m), Split(front, sep), c, sep, n);
    }
  }

  lemma {:induction false} LastNone(parts: seq<string>)
    ensures Last(parts, 0) == []
  {
  }

  lemma {:induction false} SplitNothing(sep: char)
    ensures Split("", sep) == [[]]
  {
  }

  /** A separator after any text starts the pieces of what follows afresh. */
  lemma {:induction false} SplitAfter(a: string, b: string, sep: char)
    ensures Split(a + ([sep] + b), sep) == Split(a, sep) + Split(b, sep)
    decreases |a|
  {
    var s := a + ([sep] + b);
    if a == [] {
      assert s[1..] == b;
    } else {
      assert s[1..] == a[1..] + ([sep] + b);
      SplitAfter(a[1..], b, sep);
    }
  }
}
