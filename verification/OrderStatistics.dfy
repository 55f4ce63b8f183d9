/**
 * Sorting, counting and the median of real samples.
 *
 * Main results: `MedianBelow` and `MedianAbove`, a median respects any bound
 * that more than half of the samples respect; `HalfBelowMedian`; and
 * `MedianExactly`, by rank.
 */
module OrderStatistics {
  function Insert(x: real, s: seq<real>): seq<real> {
    if s == [] || x <= s[0] then [x] + s else [s[0]] + Insert(x, s[1..])
  }

  function Sort(s: seq<real>): seq<real> {
    if s == [] then [] else Insert(s[0], Sort(s[1..]))
  }

  // statistics.median of a non-empty list.
  function Median(s: seq<real>): real
    requires s != []
  {
    SortLength(s);
    var t, n := Sort(s), |s|;
    if n % 2 == 1 then t[n / 2] else (t[n / 2 - 1] + t[n / 2]) / 2.0
  }

  function Count(s: seq<real>, p: real -> bool): nat {
    if s == [] then 0 else (if p(s[0]) then 1 else 0) + Count(s[1..], p)
  }

  predicate Ascending(s: seq<real>) {
    forall i, j :: 0 <= i < j < |s| ==> s[i] <= s[j]
  }

  predicate Above(s: seq<real>, x: real) {
    forall i :: 0 <= i < |s| ==> x <= s[i]
  }

  lemma {:induction false} InsertAbove(x: real, s: seq<real>, y: real)
    requires Above(s, y) && y <= x
    ensures Above(Insert(x, s), y)
  {
    if !(s == [] || x <= s[0]) { InsertAbove(x, s[1..], y); }
  }

  lemma {:induction false} InsertSorts(x: real, s: seq<real>, p: real -> bool)
    requires Ascending(s)
    ensures Ascending(Insert(x, s)) && |Insert(x, s)| == |s| + 1
    ensures Count(Insert(x, s), p) == Count(s, p) + if p(x) then 1 else 0
  {
    if s == [] || x <= s[0] {
      assert ([x] + s)[1..] == s;
    } else {
      InsertSorts(x, s[1..], p);
      InsertAbove(x, s[1..], s[0]);
      assert ([s[0]] + Insert(x, s[1..]))[1..] == Insert(x, s[1..]);
    }
  }

  lemma {:induction false} SortSorts(s: seq<real>, p: real -> bool)
    ensures Ascending(Sort(s)) && |Sort(s)| == |s| && Count(Sort(s), p) == Count(s, p)
  {
    if s != [] {
      SortSorts(s[1..], p);
      InsertSorts(s[0], Sort(s[1..]), p);
    }
  }

  lemma {:induction false} SortLength(s: seq<real>)
    ensures |Sort(s)| == |s|
  {
    SortSorts(s, x => true);
  }

  // If only the first `k` elements can satisfy `p`, at most `k` do.
  lemma {:induction false} CountUpto(s: seq<real>, p: real -> bool, k: nat)
    requires forall j :: k <= j < |s| ==> !p(s[j])
    ensures Count(s, p) <= k
  {
    if s != [] {
      CountUpto(s[1..], p, if k == 0 then 0 else k - 1);
    }
  }

  // If none of the first `m` elements satisfies `p`, at most the others do.
  lemma {:induction false} CountFrom(s: seq<real>, p: real -> bool, m: nat)
    requires m <= |s| && forall j :: 0 <= j < m ==> !p(s[j])
    ensures Count(s, p) <= |s| - m
  {
    if s != [] {
      CountFrom(s[1..], p, if m == 0 then 0 else m - 1);
    }
  }

  // In an ascending list, more than `k` elements up to `hi` put element `k` there.
  lemma {:induction false} RankBelow(t: seq<real>, k: nat, hi: real, p: real -> bool)
    requires Ascending(t) && k < |t| && (forall x :: p(x) <==> x <= hi) && Count(t, p) > k
    ensures t[k] <= hi
  {
    if t[k] > hi {
      CountUpto(t, p, k);
    }
  }

  lemma {:induction false} RankAbove(t: seq<real>, k: nat, lo: real, p: real -> bool)
    requires Ascending(t) && k < |t| && (forall x :: p(x) <==> x >= lo) && Count(t, p) >= |t| - k
    ensures t[k] >= lo
  {
    if t[k] < lo {
      CountFrom(t, p, k + 1);
    }
  }

  /** More than half of the samples at most `hi`: so is the median. */
  lemma {:induction false} MedianBelow(s: seq<real>, hi: real, p: real -> bool)
    requires s != [] && (forall x :: p(x) <==> x <= hi) && 2 * Count(s, p) > |s|
    ensures Median(s) <= hi
  {
    hide Sort, Count;
    var t, n := Sort(s), |s|;
    SortSorts(s, p);
    RankBelow(t, n / 2, hi, p);
    if n % 2 == 0 { RankBelow(t, n / 2 - 1, hi, p); }
  }

  /** More than half of the samples at least `lo`: so is the median. */
  lemma {:induction false} MedianAbove(s: seq<real>, lo: real, p: real -> bool)
    requires s != [] && (forall x :: p(x) <==> x >= lo) && 2 * Count(s, p) > |s|
    ensures Median(s) >= lo
  {
    hide Sort, Count;
    var t, n := Sort(s), |s|;
    SortSorts(s, p);
    RankAbove(t, n / 2, lo, p);
    if n % 2 == 0 { RankAbove(t, n / 2 - 1, lo, p); }
  }

  /** At least half of the samples, rounded up, are at most the median. */
  lemma {:induction false} HalfBelowMedian(s: seq<real>, p: real -> bool)
    requires s != [] && forall x :: p(x) <==> x <= Median(s)
    ensures 2 * Count(s, p) >= |s|
  {
    hide Sort, Count;
    var t, n, m := Sort(s), |s|, Median(s);
    SortSorts(s, p);
    var k := if n % 2 == 1 then n / 2 else n / 2 - 1;
    assert t[k] <= m;
    PrefixCounts(t, p, k + 1) by {
      forall j | 0 <= j < k + 1 ensures p(t[j]) { assert t[j] <= t[k]; }
    }
  }

  lemma {:induction false} PrefixCounts(t: seq<real>, p: real -> bool, m: nat)
    requires m <= |t| && forall j :: 0 <= j < m ==> p(t[j])
    ensures Count(t, p) >= m
  {
    if m > 0 {
      PrefixCounts(t[1..], p, m - 1);
    }
  }

  // `x` is the sample that fewer than `k` are below, and at least `k` are not above.
  ghost predicate AtRank(s: seq<real>, x: real, k: nat) {
    && x in s
    && Count(s, y => y < x) < k <= Count(s, y => y <= x)
  }

  /** The median is the mean of the two middle samples by rank, which are one and the same for an odd number. */
  lemma {:induction false} MedianExactly(s: seq<real>) returns (lo: real, hi: real)
    requires s != []
    ensures AtRank(s, lo, (|s| + 1) / 2) && AtRank(s, hi, |s| / 2 + 1)
    ensures Median(s) == (lo + hi) / 2.0
  {
    hide Sort, Count, AtRank;
    var t, n := Sort(s), |s|;
    SortSorts(s, y => true);
    lo, hi := t[(n - 1) / 2], t[n / 2];
    RankOf(s, (n - 1) / 2);
    RankOf(s, n / 2);
  }

  lemma {:induction false} RankOf(s: seq<real>, i: nat)
    requires i < |s|
    ensures |Sort(s)| == |s| && AtRank(s, Sort(s)[i], i + 1)
  {
    hide Sort, Count;
    SortLength(s);
    var t := Sort(s);
    var x := t[i];
    var below, upTo := (y: real) => y < x, (y: real) => y <= x;
    SortSorts(s, below);
    SortSorts(s, upTo);
    CountUpto(t, below, i);
    PrefixCounts(t, upTo, i + 1);
    SortHolds(s, x);
    CountSame(s, below, y => y < x);
    CountSame(s, upTo, y => y <= x);
  }

  lemma {:induction false} CountSame(s: seq<real>, p: real -> bool, q: real -> bool)
    requires forall x :: p(x) <==> q(x)
    ensures Count(s, p) == Count(s, q)
  {
    if s != [] { CountSame(s[1..], p, q); }
  }

  lemma {:induction false} SortHolds(s: seq<real>, x: real)
    ensures x in Sort(s) <==> x in s
  {
    if s != [] {
      SortHolds(s[1..], x);
      InsertHolds(s[0], Sort(s[1..]), x);
    }
  }

  lemma {:induction false} InsertHolds(y: real, s: seq<real>, x: real)
    ensures x in Insert(y, s) <==> x == y || x in s
  {
    if !(s == [] || y <= s[0]) { InsertHolds(y, s[1..], x); }
  }
}
