/** Sums and maxima over the groups of a partition of 0 .. n - 1. */
module Partition {
  import opened Basics

  function Total(f: seq<real>): real {
    if f == [] then 0.0 else Total(f[..|f| - 1]) + f[|f| - 1]
  }

  predicate Within(g: seq<nat>, n: nat) {
    forall k :: 0 <= k < |g| ==> g[k] < n
  }

  /** The sum of f over the listed indices. */
  function Picked(f: seq<real>, g: seq<nat>): real
    requires Within(g, |f|)
  {
    if g == [] then 0.0 else Picked(f, g[..|g| - 1]) + f[g[|g| - 1]]
  }

  function Flat(groups: seq<seq<nat>>): seq<nat> {
    if groups == [] then [] else Flat(groups[..|groups| - 1]) + groups[|groups| - 1]
  }

  /** Every index below n is in exactly one group, once; no group is empty. */
  ghost predicate Partitions(groups: seq<seq<nat>>, n: nat) {
    && Distinct(Flat(groups)) && (forall i: nat :: i in Flat(groups) <==> i < n)
    && (forall g :: 0 <= g < |groups| ==> groups[g] != [])
  }

  lemma {:induction false} FlatHolds(groups: seq<seq<nat>>, i: nat)
    ensures i in Flat(groups) <==> exists g :: 0 <= g < |groups| && i in groups[g]
  {
    if groups != [] {
      var front, last := groups[..|groups| - 1], groups[|groups| - 1];
      FlatHolds(front, i);
      if i in last { assert i in groups[|groups| - 1]; }
      if g :| 0 <= g < |front| && i in front[g] { assert i in groups[g]; }
      if g :| 0 <= g < |front| && i in groups[g] { assert i in front[g]; }
    }
  }

  lemma {:induction false} GroupsDisjoint(groups: seq<seq<nat>>, a: nat, b: nat, j: nat)
    requires Distinct(Flat(groups)) && a < b < |groups| && j in groups[a]
    ensures j !in groups[b]
  {
    var n := |groups| - 1;
    var front := Flat(groups[..n]);
    assert Flat(groups) == front + groups[n];
    if b < n {
      forall i, k | 0 <= i < k < |front| ensures front[i] != front[k] {
        assert Flat(groups)[i] == front[i] && Flat(groups)[k] == front[k];
      }
      GroupsDisjoint(groups[..n], a, b, j);
    } else {
      assert groups[..n][a] == groups[a];
      FlatHolds(groups[..n], j);
      var i :| 0 <= i < |front| && front[i] == j;
      forall k | 0 <= k < |groups[n]| ensures groups[n][k] != j {
        assert Flat(groups)[i] == j && Flat(groups)[|front| + k] == groups[n][k];
      }
    }
  }

  lemma GroupWithin(groups: seq<seq<nat>>, n: nat, g: nat)
    requires Partitions(groups, n) && g < |groups|
    ensures Within(groups[g], n)
  {
    forall k | 0 <= k < |groups[g]| ensures groups[g][k] < n {
      assert groups[g][k] in groups[g];
      FlatHolds(groups, groups[g][k]);
    }
  }

  lemma AllWithin(s: seq<nat>, n: nat)
    requires forall i: nat :: i in s ==> i < n
    ensures Within(s, n)
  {
    forall k | 0 <= k < |s| ensures s[k] < n {
      assert s[k] in s;
    }
  }

  // ----- Sums -----

  lemma {:induction false} PickedConcat(f: seq<real>, a: seq<nat>, b: seq<nat>)
    requires Within(a, |f|) && Within(b, |f|) && Within(a + b, |f|)
    ensures Picked(f, a + b) == Picked(f, a) + Picked(f, b)
  {
    if b == [] {
      assert a + b == a;
    } else {
      var front := b[..|b| - 1];
      assert (a + b)[..|a + b| - 1] == a + front;
      PickedConcat(f, a, front);
    }
  }

  /** The entries of f with index in s. */
  ghost function Masked(f: seq<real>, s: set<nat>): real {
    if f == [] then 0.0 else Masked(f[..|f| - 1], s) + if |f| - 1 in s then f[|f| - 1] else 0.0
  }

  lemma {:induction false} MaskedAdd(f: seq<real>, s: set<nat>, x: nat)
    requires x !in s
    ensures Masked(f, s + {x}) == Masked(f, s) + if x < |f| then f[x] else 0.0
  {
    if f != [] { MaskedAdd(f[..|f| - 1], s, x); }
  }

  lemma {:induction false} MaskedAll(f: seq<real>, s: set<nat>)
    requires forall i: nat :: i < |f| ==> i in s
    ensures Masked(f, s) == Total(f)
  {
    if f != [] { MaskedAll(f[..|f| - 1], s); }
  }

  lemma {:induction false} MaskedNone(f: seq<real>)
    ensures Masked(f, {}) == 0.0
  {
    if f != [] { MaskedNone(f[..|f| - 1]); }
  }

  lemma {:induction false} PickedIsMasked(f: seq<real>, s: seq<nat>)
    requires Within(s, |f|) && Distinct(s)
    ensures Picked(f, s) == Masked(f, (set i: nat | i in s))
  {
    if s == [] {
      assert (set i: nat | i in s) == {};
      MaskedNone(f);
    } else {
      var front, x := s[..|s| - 1], s[|s| - 1];
      PickedIsMasked(f, front);
      MaskedAdd(f, (set i: nat | i in front), x);
      assert (set i: nat | i in s) == (set i: nat | i in front) + {x};
    }
  }

  /** h[g] is the sum of f over group g. */
  ghost predicate Gathers(f: seq<real>, groups: seq<seq<nat>>, h: seq<real>) {
    |h| == |groups| && forall g :: 0 <= g < |groups| ==> Within(groups[g], |f|) && h[g] == Picked(f, groups[g])
  }

  lemma {:induction false} GatheredFlat(f: seq<real>, groups: seq<seq<nat>>, h: seq<real>)
    requires Gathers(f, groups, h) && Within(Flat(groups), |f|)
    ensures Total(h) == Picked(f, Flat(groups))
  {
    if groups != [] {
      var k := |groups| - 1;
      var front := Flat(groups[..k]);
      assert Within(front, |f|) by {
        forall i | 0 <= i < |front| ensures front[i] < |f| {
          assert Flat(groups)[i] == front[i];
        }
      }
      GatheredFlat(f, groups[..k], h[..k]);
      PickedConcat(f, front, groups[k]);
    }
  }

  /** A partition conserves every sum. */
  lemma PartitionConserves(f: seq<real>, groups: seq<seq<nat>>, h: seq<real>)
    requires Partitions(groups, |f|) && Gathers(f, groups, h)
    ensures Total(h) == Total(f)
  {
    var flat := Flat(groups);
    AllWithin(flat, |f|);
    GatheredFlat(f, groups, h);
    PickedIsMasked(f, flat);
    MaskedAll(f, (set i: nat | i in flat));
  }

  // ----- Sizes -----

  lemma {:induction false} TotalOnes(f: seq<real>)
    requires forall i :: 0 <= i < |f| ==> f[i] == 1.0
    ensures Total(f) == |f| as real
  {
    if f != [] { TotalOnes(f[..|f| - 1]); }
  }

  lemma {:induction false} PickedOnes(f: seq<real>, g: seq<nat>)
    requires Within(g, |f|) && forall i :: 0 <= i < |f| ==> f[i] == 1.0
    ensures Picked(f, g) == |g| as real
  {
    if g != [] { PickedOnes(f, g[..|g| - 1]); }
  }

  lemma {:induction false} TotalAtLeast(h: seq<real>)
    requires forall i :: 0 <= i < |h| ==> h[i] >= 1.0
    ensures Total(h) >= |h| as real
  {
    if h != [] { TotalAtLeast(h[..|h| - 1]); }
  }

  /** A partition has no more groups than indices. */
  lemma PartitionShrinks(groups: seq<seq<nat>>, n: nat)
    requires Partitions(groups, n)
    ensures |groups| <= n && (n > 0 ==> |groups| > 0)
  {
    var ones := seq(n, _ => 1.0);
    var h := seq(|groups|, g requires 0 <= g < |groups| => |groups[g]| as real);
    forall g | 0 <= g < |groups| ensures Within(groups[g], n) && h[g] == Picked(ones, groups[g]) && h[g] >= 1.0 {
      GroupWithin(groups, n, g);
      PickedOnes(ones, groups[g]);
    }
    PartitionConserves(ones, groups, h);
    TotalOnes(ones);
    TotalAtLeast(h);
    assert n > 0 ==> 0 in Flat(groups);
  }

  // ----- Maxima -----

  /** m is the largest entry, or zero if none is above it. */
  ghost predicate Largest(m: real, f: seq<real>) {
    m >= 0.0 && (forall i :: 0 <= i < |f| ==> f[i] <= m) && (m == 0.0 || exists i :: 0 <= i < |f| && f[i] == m)
  }

  ghost predicate LargestOf(m: real, f: seq<real>, g: seq<nat>) {
    && Within(g, |f|) && m >= 0.0 && (forall k :: 0 <= k < |g| ==> f[g[k]] <= m)
    && (m == 0.0 || exists k :: 0 <= k < |g| && f[g[k]] == m)
  }

  /** A partition conserves the maximum. */
  lemma PartitionKeepsLargest(f: seq<real>, groups: seq<seq<nat>>, h: seq<real>, m: real)
    requires Partitions(groups, |f|) && |h| == |groups|
    requires forall g :: 0 <= g < |groups| ==> LargestOf(h[g], f, groups[g])
    requires Largest(m, f)
    ensures Largest(m, h)
  {
    forall g | 0 <= g < |h| ensures h[g] <= m {
      assert LargestOf(h[g], f, groups[g]);
    }
    if m != 0.0 {
      var i: nat :| i < |f| && f[i] == m;
      FlatHolds(groups, i);
      var g :| 0 <= g < |groups| && i in groups[g];
      assert LargestOf(h[g], f, groups[g]) && h[g] <= m;
      assert h[g] == m;
    }
  }
}
