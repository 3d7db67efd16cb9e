/** The median of a list and its robust spread. */
module Robust {
  import opened Basics

  const MIN_SPREAD := 50000.0
  const NORMAL := 1.4826

  // ----- Sorting -----

  ghost predicate Ascending(s: seq<real>) {
    forall i, j :: 0 <= i < j < |s| ==> s[i] <= s[j]
  }

  function Insert(x: real, s: seq<real>): (t: seq<real>)
    ensures |t| == |s| + 1 && forall y :: y in t <==> y == x || y in s
  {
    if s == [] then [x]
    else if s[|s| - 1] <= x then s + [x]
    else
      assert s == s[..|s| - 1] + [s[|s| - 1]];
      Insert(x, s[..|s| - 1]) + [s[|s| - 1]]
  }

  function Sort(s: seq<real>): (t: seq<real>)
    ensures |t| == |s|
  {
    if s == [] then [] else Insert(s[|s| - 1], Sort(s[..|s| - 1]))
  }

  lemma {:induction false} InsertAscends(x: real, s: seq<real>)
    requires Ascending(s)
    ensures Ascending(Insert(x, s))
  {
    if s != [] && s[|s| - 1] > x {
      var t := Insert(x, s[..|s| - 1]);
      InsertAscends(x, s[..|s| - 1]);
      forall i | 0 <= i < |t| ensures t[i] <= s[|s| - 1] {
        assert t[i] in t;
      }
    }
  }

  lemma {:induction false} SortAscends(s: seq<real>)
    ensures Ascending(Sort(s))
  {
    if s != [] {
      SortAscends(s[..|s| - 1]);
      InsertAscends(s[|s| - 1], Sort(s[..|s| - 1]));
    }
  }

  // ----- Counting -----

  type Test = real -> bool

  function Less(x: real): Test {
    (y: real) => y < x
  }

  function UpTo(x: real): Test {
    (y: real) => y <= x
  }

  function Within(lo: real, hi: real): Test {
    (y: real) => lo <= y <= hi
  }

  /** How many entries pass the test. */
  function Tally(s: seq<real>, p: Test): (c: nat)
    ensures c <= |s|
  {
    if s == [] then 0 else Tally(s[..|s| - 1], p) + if p(s[|s| - 1]) then 1 else 0
  }

  lemma TallyAppend(s: seq<real>, x: real, p: Test)
    ensures Tally(s + [x], p) == Tally(s, p) + if p(x) then 1 else 0
  {
    assert (s + [x])[..|s|] == s;
  }

  lemma {:induction false} TallyInsert(x: real, s: seq<real>, p: Test)
    ensures Tally(Insert(x, s), p) == Tally(s, p) + if p(x) then 1 else 0
  {
    if s == [] || s[|s| - 1] <= x {
      TallyAppend(s, x, p);
      assert [] + [x] == [x];
    } else {
      TallyInsert(x, s[..|s| - 1], p);
      TallyAppend(Insert(x, s[..|s| - 1]), s[|s| - 1], p);
    }
  }

  /** Sorting changes no count. */
  lemma {:induction false} TallySort(s: seq<real>, p: Test)
    ensures Tally(Sort(s), p) == Tally(s, p)
  {
    if s != [] {
      TallySort(s[..|s| - 1], p);
      TallyInsert(s[|s| - 1], Sort(s[..|s| - 1]), p);
    }
  }

  lemma {:induction false} TallyImplies(s: seq<real>, p: Test, q: Test)
    requires forall x :: x in s && p(x) ==> q(x)
    ensures Tally(s, p) <= Tally(s, q)
  {
    if s != [] {
      var front, last := s[..|s| - 1], s[|s| - 1];
      assert last in s && forall x :: x in front ==> x in s;
      TallyImplies(front, p, q);
    }
  }

  /** Entries k .. m - 1 all failing leave at most the others. */
  lemma {:induction false} TallyWithout(s: seq<real>, p: Test, k: nat, m: nat)
    requires k <= m <= |s| && forall i :: k <= i < m ==> !p(s[i])
    ensures Tally(s, p) <= |s| - (m - k)
  {
    if k < m {
      var t := s[..|s| - 1];
      if m == |s| { TallyWithout(t, p, k, m - 1); } else { TallyWithout(t, p, k, m); }
    }
  }

  /** Entries k .. m - 1 all passing make at least as many. */
  lemma {:induction false} TallyWith(s: seq<real>, p: Test, k: nat, m: nat)
    requires k <= m <= |s| && forall i :: k <= i < m ==> p(s[i])
    ensures Tally(s, p) >= m - k
  {
    if k < m {
      var t := s[..|s| - 1];
      if m == |s| { TallyWith(t, p, k, m - 1); } else { TallyWith(t, p, k, m); }
    }
  }

  /** Tests no entry can pass together share the entries out. */
  lemma {:induction false} TallyApart(s: seq<real>, p: Test, q: Test)
    requires forall x :: x in s ==> !p(x) || !q(x)
    ensures Tally(s, p) + Tally(s, q) <= |s|
  {
    if s != [] {
      var front, last := s[..|s| - 1], s[|s| - 1];
      assert last in s && forall x :: x in front ==> x in s;
      TallyApart(front, p, q);
    }
  }

  /** How many entries lie in [lo, hi]. */
  function Count(s: seq<real>, lo: real, hi: real): (c: nat)
    ensures c <= |s|
  {
    Tally(s, Within(lo, hi))
  }

  // ----- The median -----

  function Middle(t: seq<real>): real
    requires t != []
  {
    var n := |t|;
    if n % 2 == 1 then t[n / 2] else (t[n / 2 - 1] + t[n / 2]) / 2.0
  }

  function Median(s: seq<real>): real
    requires s != []
  {
    Middle(Sort(s))
  }

  /** How many entries are under x, and how many at most x. */
  function Under(s: seq<real>, x: real): nat {
    Tally(s, Less(x))
  }

  function AtMost(s: seq<real>, x: real): nat {
    Tally(s, UpTo(x))
  }

  /** x is the entry with k entries before it in ascending order. */
  ghost predicate IsKth(s: seq<real>, x: real, k: nat) {
    x in s && Under(s, x) <= k < AtMost(s, x)
  }

  /** The median is the middle entry, or the mean of the two middle entries, in ascending order. */
  ghost predicate IsMedian(s: seq<real>, m: real) {
    exists a, b :: Halves(s, m, a, b)
  }

  ghost predicate Halves(s: seq<real>, m: real, a: real, b: real) {
    s != [] && IsKth(s, a, (|s| - 1) / 2) && IsKth(s, b, |s| / 2) && m + m == a + b
  }

  lemma {:induction false} SortHolds(s: seq<real>, x: real)
    ensures x in Sort(s) <==> x in s
  {
    if s != [] { SortHolds(s[..|s| - 1], x); }
  }

  lemma SortedKth(s: seq<real>, k: nat)
    requires k < |s|
    ensures IsKth(s, Sort(s)[k], k)
  {
    var t := Sort(s);
    SortAscends(s);
    SortHolds(s, t[k]);
    AscendingKth(t, k);
    TallySort(s, Less(t[k]));
    TallySort(s, UpTo(t[k]));
  }

  lemma AscendingKth(t: seq<real>, k: nat)
    requires Ascending(t) && k < |t|
    ensures Under(t, t[k]) <= k < AtMost(t, t[k])
  {
    TallyWithout(t, Less(t[k]), k, |t|);
    TallyWith(t, UpTo(t[k]), 0, k + 1);
  }

  /** The median computed is the median. */
  lemma MedianIsMedian(s: seq<real>)
    requires s != []
    ensures IsMedian(s, Median(s))
  {
    SortedKth(s, (|s| - 1) / 2);
    SortedKth(s, |s| / 2);
    assert Halves(s, Median(s), Sort(s)[(|s| - 1) / 2], Sort(s)[|s| / 2]);
  }

  ghost predicate Majority(s: seq<real>, lo: real, hi: real) {
    2 * Count(s, lo, hi) > |s|
  }

  /** A strict majority passing a test has entries on either side of a middle one. */
  lemma KthInMajority(s: seq<real>, x: real, k: nat, p: Test)
    requires IsKth(s, x, k) && |s| - 1 <= 2 * k + 1 && 2 * k <= |s| && 2 * Tally(s, p) > |s|
    ensures exists y :: y in s && p(y) && y <= x
    ensures exists y :: y in s && p(y) && x <= y
  {
    if forall y :: y in s && y <= x ==> !p(y) { TallyApart(s, p, UpTo(x)); }
    if forall y :: y in s && x <= y ==> !p(y) { TallyImplies(s, p, Less(x)); }
  }

  /** The median lies in every interval that holds a strict majority. */
  lemma MedianInMajority(s: seq<real>, lo: real, hi: real)
    requires Majority(s, lo, hi)
    ensures s != [] && lo <= Median(s) <= hi
  {
    MedianIsMedian(s);
    MajorityHolds(s, Median(s), lo, hi);
  }

  lemma MajorityHolds(s: seq<real>, m: real, lo: real, hi: real)
    requires IsMedian(s, m) && Majority(s, lo, hi)
    ensures lo <= m <= hi
  {
    var a, b :| Halves(s, m, a, b);
    KthInMajority(s, a, (|s| - 1) / 2, Within(lo, hi));
    KthInMajority(s, b, |s| / 2, Within(lo, hi));
  }

  // ----- The spread -----

  /** How far each entry is from m. */
  function Deviations(s: seq<real>, m: real): (d: seq<real>)
    ensures |d| == |s|
  {
    if s == [] then [] else Deviations(s[..|s| - 1], m) + [AbsReal(s[|s| - 1] - m)]
  }

  lemma {:induction false} DeviationsTally(s: seq<real>, m: real, p: Test, q: Test)
    requires forall x :: p(AbsReal(x - m)) == q(x)
    ensures Tally(Deviations(s, m), p) == Tally(s, q)
  {
    if s != [] {
      DeviationsTally(s[..|s| - 1], m, p, q);
      TallyAppend(Deviations(s[..|s| - 1], m), AbsReal(s[|s| - 1] - m), p);
    }
  }

  lemma {:induction false} DeviationsHold(s: seq<real>, m: real, d: real)
    ensures d in Deviations(s, m) <==> IsDeviation(s, m, d)
  {
    if s != [] {
      var front, last := s[..|s| - 1], s[|s| - 1];
      assert s == front + [last];
      DeviationsHold(front, m, d);
      if x :| x in front && AbsReal(x - m) == d { assert x in s; }
      if x :| x in s && AbsReal(x - m) == d { assert x == last || x in front; }
      assert last in s;
    }
  }

  ghost predicate IsDeviation(s: seq<real>, m: real, d: real) {
    exists x :: x in s && AbsReal(x - m) == d
  }

  /** Median and spread: 1.4826 times the median absolute deviation, at least the floor. */
  function RobustSpread(s: seq<real>): (real, real) {
    if s == [] then (0.0, MIN_SPREAD) else
      var t := Sort(s);
      var m := Middle(t);
      (m, Max(NORMAL * Median(Deviations(t, m)), MIN_SPREAD))
  }

  function Nearer(m: real, d: real): Test {
    (x: real) => AbsReal(x - m) < d
  }

  function NoFarther(m: real, d: real): Test {
    (x: real) => AbsReal(x - m) <= d
  }

  function AsFar(m: real, d: real): Test {
    (x: real) => AbsReal(x - m) >= d
  }

  lemma DeviationKth(s: seq<real>, m: real, d: real, k: nat)
    requires IsKth(Deviations(Sort(s), m), d, k)
    ensures IsKth(Deviations(s, m), d, k)
  {
    DeviationSorted(s, m, d);
    DeviationsUnder(s, m, d);
    DeviationsAtMost(s, m, d);
  }

  lemma DeviationsUnder(s: seq<real>, m: real, d: real)
    ensures Under(Deviations(Sort(s), m), d) == Under(Deviations(s, m), d)
  {
    DeviationsSorted(s, m, Less(d), Nearer(m, d));
  }

  lemma DeviationsAtMost(s: seq<real>, m: real, d: real)
    ensures AtMost(Deviations(Sort(s), m), d) == AtMost(Deviations(s, m), d)
  {
    DeviationsSorted(s, m, UpTo(d), NoFarther(m, d));
  }

  lemma DeviationsSorted(s: seq<real>, m: real, p: Test, q: Test)
    requires forall x :: p(AbsReal(x - m)) == q(x)
    ensures Tally(Deviations(Sort(s), m), p) == Tally(Deviations(s, m), p)
  {
    DeviationsTally(Sort(s), m, p, q);
    DeviationsTally(s, m, p, q);
    TallySort(s, q);
  }

  lemma DeviationSorted(s: seq<real>, m: real, d: real)
    requires d in Deviations(Sort(s), m)
    ensures d in Deviations(s, m)
  {
    DeviationsHold(s, m, d);
    DeviationsHold(Sort(s), m, d);
    var x :| x in Sort(s) && AbsReal(x - m) == d;
    SortHolds(s, x);
  }

  /** What the two numbers are: the median, and 1.4826 times the median distance from it, or 50 microseconds if more. */
  lemma SpreadIsExact(s: seq<real>)
    ensures var (m, spread) := RobustSpread(s);
            if s == [] then m == 0.0 && spread == 50000.0
            else IsMedian(s, m) && exists mad :: IsMedian(Deviations(s, m), mad) && IsSpread(spread, mad)
  {
    if s != [] {
      var m := Median(s);
      var mad := Median(Deviations(Sort(s), m));
      MedianIsMedian(s);
      DeviationsMedian(s, m);
      assert IsMedian(Deviations(s, m), mad) && IsSpread(RobustSpread(s).1, mad);
    }
  }

  lemma DeviationsMedian(s: seq<real>, m: real)
    requires s != []
    ensures IsMedian(Deviations(s, m), Median(Deviations(Sort(s), m)))
  {
    var dev := Deviations(Sort(s), m);
    MedianIsMedian(dev);
    var a, b :| Halves(dev, Median(dev), a, b);
    DeviationKth(s, m, a, (|s| - 1) / 2);
    DeviationKth(s, m, b, |s| / 2);
    assert Halves(Deviations(s, m), Median(dev), a, b);
  }

  ghost predicate IsSpread(spread: real, mad: real) {
    if 1.4826 * mad >= 50000.0 then spread == 1.4826 * mad else spread == 50000.0
  }

  /** A strict majority of the entries are at least d from m. */
  ghost predicate Scattered(s: seq<real>, m: real, d: real) {
    2 * Tally(s, AsFar(m, d)) > |s|
  }

  lemma SpreadParts(s: seq<real>) returns (m: real, spread: real, mad: real)
    requires s != []
    ensures (m, spread) == RobustSpread(s) && IsMedian(s, m)
    ensures IsMedian(Deviations(s, m), mad) && IsSpread(spread, mad)
  {
    SpreadIsExact(s);
    m, spread := RobustSpread(s).0, RobustSpread(s).1;
    mad :| IsMedian(Deviations(s, m), mad) && IsSpread(spread, mad);
  }

  /** A strict majority far from the median make a spread as large. */
  lemma SpreadFollowsScatter(s: seq<real>, d: real)
    requires Scattered(s, RobustSpread(s).0, d)
    ensures RobustSpread(s).1 >= 1.4826 * d
  {
    var m, spread, mad := SpreadParts(s);
    ScatterBelow(s, m, mad, d);
  }

  lemma ScatterBelow(s: seq<real>, m: real, mad: real, d: real)
    requires IsMedian(Deviations(s, m), mad) && Scattered(s, m, d)
    ensures mad >= d
  {
    DeviationsTally(s, m, From(d), AsFar(m, d));
    MajorityFrom(Deviations(s, m), mad, d);
  }

  function From(d: real): Test {
    (y: real) => y >= d
  }

  lemma MajorityFrom(s: seq<real>, m: real, d: real)
    requires IsMedian(s, m) && 2 * Tally(s, From(d)) > |s|
    ensures m >= d
  {
    var a, b :| Halves(s, m, a, b);
    KthInMajority(s, a, (|s| - 1) / 2, From(d));
    KthInMajority(s, b, |s| / 2, From(d));
  }

  /**
   * If a strict majority lie in an interval, so does the median, and the spread is bounded by its width or the floor.
   */
  lemma SpreadIsRobust(s: seq<real>, lo: real, hi: real)
    requires Majority(s, lo, hi)
    ensures var (m, spread) := RobustSpread(s);
            lo <= m <= hi && MIN_SPREAD <= spread <= Max(NORMAL * (hi - lo), MIN_SPREAD)
  {
    var m, spread, mad := SpreadParts(s);
    IntervalAbove(s, m, mad, lo, hi);
    SpreadWithin(spread, mad, hi - lo);
  }

  lemma IntervalAbove(s: seq<real>, m: real, mad: real, lo: real, hi: real)
    requires IsMedian(s, m) && IsMedian(Deviations(s, m), mad) && Majority(s, lo, hi)
    ensures lo <= m <= hi && mad <= hi - lo
  {
    MajorityHolds(s, m, lo, hi);
    DeviationsMajority(s, m, lo, hi);
    MajorityHolds(Deviations(s, m), mad, 0.0, hi - lo);
  }

  lemma SpreadWithin(spread: real, mad: real, width: real)
    requires IsSpread(spread, mad) && mad <= width
    ensures MIN_SPREAD <= spread <= Max(NORMAL * width, MIN_SPREAD)
  {
  }

  lemma DeviationsMajority(s: seq<real>, m: real, lo: real, hi: real)
    requires Majority(s, lo, hi) && lo <= m <= hi
    ensures Majority(Deviations(s, m), 0.0, hi - lo)
  {
    DeviationsTally(s, m, Within(0.0, hi - lo), NoFarther(m, hi - lo));
    TallyImplies(s, Within(lo, hi), NoFarther(m, hi - lo));
  }
}
