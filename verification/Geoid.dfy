/** The geoid hierarchy: beacons gathered into regions, and regions greedily merged layer by layer. */
module Geoid {
  import opened Basics
  import opened Partition
  import R = Robust

  const DIM := 6
  type Point = seq<real>
  type Distance = (Point, Point) -> real

  /** A metric, as the Euclidean distance is. */
  ghost predicate IsMetric(dist: Distance) {
    && (forall u, v :: dist(u, v) == dist(v, u) && dist(u, v) >= 0.0)
    && (forall u, v, w :: dist(u, w) <= dist(u, v) + dist(v, w))
  }

  datatype Beacon = Beacon(position: Point, offset: real)

  datatype Edge = Edge(to: nat, meanNanos: int)

  /** A region; children and edges name regions by their place in the finer layer and in the same one. */
  datatype Region = Region(centroid: Point, radius: real, members: nat, children: seq<nat>, edges: seq<Edge>,
                           residual: real)

  ghost predicate Sound(rs: seq<Region>) {
    forall i :: 0 <= i < |rs| ==> |rs[i].centroid| == DIM && rs[i].members > 0
  }

  /** Member counts. */
  ghost function Members(rs: seq<Region>): (f: seq<real>)
    ensures |f| == |rs| && forall i :: 0 <= i < |rs| ==> f[i] == rs[i].members as real
  {
    seq(|rs|, i requires 0 <= i < |rs| => rs[i].members as real)
  }

  ghost function Moment(r: Region, d: nat): real
    requires d < |r.centroid|
  {
    r.centroid[d] * r.members as real
  }

  /** Centroids weighted by members, in dimension d. */
  ghost function Moments(rs: seq<Region>, d: nat): (f: seq<real>)
    requires Sound(rs) && d < DIM
    ensures |f| == |rs| && forall i :: 0 <= i < |rs| ==> f[i] == Moment(rs[i], d)
  {
    seq(|rs|, i requires 0 <= i < |rs| => Moment(rs[i], d))
  }

  ghost function Residuals(rs: seq<Region>): (f: seq<real>)
    ensures |f| == |rs| && forall i :: 0 <= i < |rs| ==> f[i] == rs[i].residual
  {
    seq(|rs|, i requires 0 <= i < |rs| => rs[i].residual)
  }

  // ----- Merging one group -----

  method TotalMembers(rs: seq<Region>, g: seq<nat>) returns (total: nat)
    requires Within(g, |rs|)
    ensures total as real == Picked(Members(rs), g)
    ensures Sound(rs) && g != [] ==> total > 0
  {
    total := 0;
    for k := 0 to |g|
      invariant total as real == Picked(Members(rs), g[..k]) && (Sound(rs) ==> total >= k)
    {
      assert g[..k + 1][..k] == g[..k];
      total := total + rs[g[k]].members;
    }
    assert g[..|g|] == g;
  }

  /** u + w v. */
  method AddScaled(u: Point, v: Point, w: real) returns (r: Point)
    requires |u| == DIM && |v| == DIM
    ensures |r| == DIM && forall d :: 0 <= d < DIM ==> r[d] == u[d] + v[d] * w
  {
    r := u;
    for i := 0 to DIM
      invariant |r| == DIM && (forall d :: 0 <= d < i ==> r[d] == u[d] + v[d] * w)
      invariant (forall d :: i <= d < DIM ==> r[d] == u[d])
    {
      r := r[i := r[i] + v[i] * w];
    }
  }

  ghost predicate Balanced(c: real, total: nat, sum: real) {
    c * total as real == sum
  }

  lemma BalanceStep(c: real, total: nat, sum: real, x: real, m: nat, w: real, moment: real)
    requires total > 0 && Balanced(c, total, sum) && w == m as real / Max(total as real, 1.0) && moment == x * m as real
    ensures Balanced(c + x * w, total, sum + moment)
  {
    var t := total as real;
    assert w * t == m as real;
    assert (x * w) * t == x * (w * t);
    assert (c + x * w) * t == c * t + (x * w) * t;
  }

  /** The centroid of the group, weighted by members. */
  method WeightedCentroid(rs: seq<Region>, g: seq<nat>, total: nat) returns (c: Point)
    requires Within(g, |rs|) && Sound(rs) && total > 0
    ensures |c| == DIM && forall d :: 0 <= d < DIM ==> Balanced(c[d], total, Picked(Moments(rs, d), g))
  {
    c := seq(DIM, _ => 0.0);
    for k := 0 to |g|
      invariant |c| == DIM && forall d :: 0 <= d < DIM ==> Balanced(c[d], total, Picked(Moments(rs, d), g[..k]))
    {
      var r := rs[g[k]];
      var w := r.members as real / Max(total as real, 1.0);
      ghost var before := c;
      c := AddScaled(c, r.centroid, w);
      forall d | 0 <= d < DIM ensures Balanced(c[d], total, Picked(Moments(rs, d), g[..k + 1])) {
        assert g[..k + 1][..k] == g[..k];
        BalanceStep(before[d], total, Picked(Moments(rs, d), g[..k]), r.centroid[d], r.members, w, Moment(r, d));
      }
    }
    assert g[..|g|] == g;
  }

  /** Every listed region's ball lies within radius of c, and the radius is no larger than needed. */
  ghost predicate Reaches(rs: seq<Region>, g: seq<nat>, c: Point, radius: real, dist: Distance)
    requires Within(g, |rs|)
  {
    && radius >= 0.0 && (forall k :: 0 <= k < |g| ==> dist(rs[g[k]].centroid, c) + rs[g[k]].radius <= radius)
    && (radius == 0.0 || exists k :: 0 <= k < |g| && dist(rs[g[k]].centroid, c) + rs[g[k]].radius == radius)
  }

  method Reach(rs: seq<Region>, g: seq<nat>, c: Point, dist: Distance) returns (radius: real)
    requires Within(g, |rs|)
    ensures Reaches(rs, g, c, radius, dist)
  {
    radius := 0.0;
    for k := 0 to |g|
      invariant Reaches(rs, g[..k], c, radius, dist)
    {
      ghost var before := radius;
      radius := Max(radius, dist(rs[g[k]].centroid, c) + rs[g[k]].radius);
      assert forall i :: 0 <= i < k ==> g[..k][i] == g[..k + 1][i];
      assert g[..k + 1][k] == g[k];
      if radius != before {
        assert dist(rs[g[..k + 1][k]].centroid, c) + rs[g[..k + 1][k]].radius == radius;
      } else if radius != 0.0 {
        var i :| 0 <= i < |g[..k]| && dist(rs[g[..k][i]].centroid, c) + rs[g[..k][i]].radius == before;
        assert dist(rs[g[..k + 1][i]].centroid, c) + rs[g[..k + 1][i]].radius == radius;
      }
    }
    assert g[..|g|] == g;
  }

  method WorstResidual(rs: seq<Region>, g: seq<nat>) returns (worst: real)
    requires Within(g, |rs|)
    ensures LargestOf(worst, Residuals(rs), g)
  {
    worst := 0.0;
    ghost var f := Residuals(rs);
    for k := 0 to |g|
      invariant LargestOf(worst, f, g[..k])
    {
      ghost var before := worst;
      worst := Max(worst, rs[g[k]].residual);
      assert forall i :: 0 <= i < k ==> g[..k][i] == g[..k + 1][i];
      assert g[..k + 1][k] == g[k];
      if worst != before {
        assert f[g[..k + 1][k]] == worst;
      } else if worst != 0.0 {
        var i :| 0 <= i < |g[..k]| && f[g[..k][i]] == before;
        assert f[g[..k + 1][i]] == worst;
      }
    }
    assert g[..|g|] == g;
  }

  /** r stands for the group g of regions. */
  ghost predicate Stands(rs: seq<Region>, g: seq<nat>, r: Region, dist: Distance) {
    && Sound(rs) && Within(g, |rs|) && r.children == g && |r.centroid| == DIM && r.members > 0
    && r.members as real == Picked(Members(rs), g)
    && (forall d :: 0 <= d < DIM ==> Balanced(r.centroid[d], r.members, Picked(Moments(rs, d), g)))
    && Reaches(rs, g, r.centroid, r.radius, dist)
    && LargestOf(r.residual, Residuals(rs), g)
  }

  method MergeRegions(rs: seq<Region>, g: seq<nat>, dist: Distance) returns (r: Region)
    requires Within(g, |rs|) && Sound(rs) && g != []
    ensures Stands(rs, g, r, dist) && r.edges == []
  {
    var total := TotalMembers(rs, g);
    var c := WeightedCentroid(rs, g, total);
    var radius := Reach(rs, g, c, dist);
    var residual := WorstResidual(rs, g);
    r := Region(c, radius, total, g, [], residual);
  }

  /** A parent's ball contains its children's balls. */
  lemma BallsNest(rs: seq<Region>, g: seq<nat>, r: Region, dist: Distance, k: nat, x: Point)
    requires IsMetric(dist) && Stands(rs, g, r, dist) && k < |g| && dist(x, rs[g[k]].centroid) <= rs[g[k]].radius
    ensures dist(x, r.centroid) <= r.radius
  {
    assert dist(x, r.centroid) <= dist(x, rs[g[k]].centroid) + dist(rs[g[k]].centroid, r.centroid);
  }

  // ----- Greedy grouping -----

  ghost predicate Rising(g: seq<nat>) {
    forall j, k :: 0 <= j < k < |g| ==> g[j] < g[k]
  }

  /** The group leads from its first region: every other comes after it and is within the threshold of it. */
  ghost predicate Led(rs: seq<Region>, g: seq<nat>, threshold: real, dist: Distance) {
    && g != [] && Within(g, |rs|) && Rising(g)
    && forall k :: 0 < k < |g| ==> dist(rs[g[0]].centroid, rs[g[k]].centroid) < threshold
  }

  /** Group g leads from an earlier region than h, which no region of h is near. */
  ghost predicate Apart(rs: seq<Region>, g: seq<nat>, h: seq<nat>, threshold: real, dist: Distance) {
    && g != [] && h != [] && g[0] < h[0] && Within(g, |rs|) && Within(h, |rs|)
    && forall k :: 0 <= k < |h| ==> dist(rs[g[0]].centroid, rs[h[k]].centroid) >= threshold
  }

  /** i and the unmerged regions after it near it. */
  method CollectGroup(rs: seq<Region>, i: nat, merged: seq<bool>, threshold: real, dist: Distance)
    returns (g: seq<nat>, marked: seq<bool>)
    requires |merged| == |rs| && i < |rs| && !merged[i]
    ensures |marked| == |rs| && Led(rs, g, threshold, dist) && g[0] == i && Distinct(g)
    ensures forall j :: 0 <= j < |rs| ==> (marked[j] <==> merged[j] || j in g)
    ensures forall j :: j in g ==> !merged[j]
    ensures forall j :: i < j < |rs| && !marked[j] ==> dist(rs[i].centroid, rs[j].centroid) >= threshold
  {
    g, marked := [i], merged[i := true];
    for j := i + 1 to |rs|
      invariant |marked| == |rs| && Led(rs, g, threshold, dist) && g[0] == i && Distinct(g)
      invariant (forall k :: 0 <= k < |g| ==> g[k] < j) && forall k :: k in g ==> k < j && !merged[k]
      invariant forall k :: 0 <= k < |rs| ==> (marked[k] <==> merged[k] || k in g)
      invariant forall k :: i < k < j && !marked[k] ==> dist(rs[i].centroid, rs[k].centroid) >= threshold
    {
      if !marked[j] && dist(rs[i].centroid, rs[j].centroid) < threshold {
        g, marked := g + [j], marked[j := true];
      }
    }
  }

  /**
   * The groups so far: disjoint, exactly the merged regions, every region apart from the leaders before its own, and
   * every region left apart from all of them.
   */
  ghost predicate Grouping(rs: seq<Region>, groups: seq<seq<nat>>, merged: seq<bool>, threshold: real, dist: Distance) {
    && |merged| == |rs| && Distinct(Flat(groups))
    && (forall j: nat :: j in Flat(groups) <==> j < |rs| && merged[j])
    && (forall a :: 0 <= a < |groups| ==> Led(rs, groups[a], threshold, dist))
    && (forall a, b :: 0 <= a < b < |groups| ==> Apart(rs, groups[a], groups[b], threshold, dist))
    && (forall a, j :: 0 <= a < |groups| && 0 <= j < |rs| && !merged[j] ==>
        dist(rs[groups[a][0]].centroid, rs[j].centroid) >= threshold)
  }

  ghost predicate LedBefore(groups: seq<seq<nat>>, i: nat) {
    forall a :: 0 <= a < |groups| ==> groups[a] != [] && groups[a][0] < i
  }

  lemma GroupJoins(rs: seq<Region>, groups: seq<seq<nat>>, merged: seq<bool>, i: nat, g: seq<nat>, marked: seq<bool>,
                   threshold: real, dist: Distance)
    requires Grouping(rs, groups, merged, threshold, dist) && i < |rs| && !merged[i]
    requires (forall j :: 0 <= j < i ==> merged[j]) && |marked| == |rs| && Led(rs, g, threshold, dist) && g[0] == i
    requires Distinct(g) && LedBefore(groups, i)
    requires forall j :: 0 <= j < |rs| ==> (marked[j] <==> merged[j] || j in g)
    requires forall j :: j in g ==> !merged[j]
    requires forall j :: i < j < |rs| && !marked[j] ==> dist(rs[i].centroid, rs[j].centroid) >= threshold
    ensures Grouping(rs, groups + [g], marked, threshold, dist) && LedBefore(groups + [g], i + 1)
  {
    var all := groups + [g];
    assert all[..|groups|] == groups;
    assert Flat(all) == Flat(groups) + g;
    FlatJoins(Flat(groups), g);
    FlatMarked(|rs|, Flat(groups), g, merged, marked);
    GroupsApart(rs, groups, merged, i, g, threshold, dist);
    LeftApart(rs, groups, merged, i, g, marked, threshold, dist);
  }

  lemma FlatMarked(n: nat, flat: seq<nat>, g: seq<nat>, merged: seq<bool>, marked: seq<bool>)
    requires |merged| == n == |marked| && Within(g, n) && forall j: nat :: j in flat <==> j < n && merged[j]
    requires forall j :: 0 <= j < n ==> (marked[j] <==> merged[j] || j in g)
    ensures forall j: nat :: j in flat + g <==> j < n && marked[j]
  {
    forall j: nat ensures j in flat + g <==> j < n && marked[j] {
      if j in g {
        var k :| 0 <= k < |g| && g[k] == j;
      }
    }
  }

  lemma LeftApart(rs: seq<Region>, groups: seq<seq<nat>>, merged: seq<bool>, i: nat, g: seq<nat>, marked: seq<bool>,
                  threshold: real, dist: Distance)
    requires Grouping(rs, groups, merged, threshold, dist) && Led(rs, g, threshold, dist) && g[0] == i < |rs|
    requires (forall j :: 0 <= j < i ==> merged[j]) && |marked| == |rs|
    requires forall j :: 0 <= j < |rs| ==> (marked[j] <==> merged[j] || j in g)
    requires forall j :: i < j < |rs| && !marked[j] ==> dist(rs[i].centroid, rs[j].centroid) >= threshold
    ensures forall a, j :: 0 <= a < |groups + [g]| && 0 <= j < |rs| && !marked[j] ==>
              dist(rs[(groups + [g])[a][0]].centroid, rs[j].centroid) >= threshold
  {
    var all := groups + [g];
    forall a, j | 0 <= a < |all| && 0 <= j < |rs| && !marked[j]
      ensures dist(rs[all[a][0]].centroid, rs[j].centroid) >= threshold
    {
      if a < |groups| {
        assert Led(rs, groups[a], threshold, dist);
      } else {
        assert g[0] in g;
      }
    }
  }

  lemma GroupsApart(rs: seq<Region>, groups: seq<seq<nat>>, merged: seq<bool>, i: nat, g: seq<nat>, threshold: real,
                    dist: Distance)
    requires Grouping(rs, groups, merged, threshold, dist) && LedBefore(groups, i)
    requires Led(rs, g, threshold, dist) && g[0] == i && forall j :: j in g ==> !merged[j]
    ensures forall a :: 0 <= a < |groups| ==> Apart(rs, groups[a], g, threshold, dist)
  {
    forall a | 0 <= a < |groups| ensures Apart(rs, groups[a], g, threshold, dist) {
      assert Led(rs, groups[a], threshold, dist);
      forall k | 0 <= k < |g| ensures dist(rs[groups[a][0]].centroid, rs[g[k]].centroid) >= threshold {
        assert g[k] in g;
      }
    }
  }

  lemma FlatJoins(flat: seq<nat>, g: seq<nat>)
    requires Distinct(flat) && Distinct(g) && forall j :: j in g ==> j !in flat
    ensures Distinct(flat + g)
  {
    forall i, j | 0 <= i < j < |flat + g| ensures (flat + g)[i] != (flat + g)[j] {
      if i < |flat| <= j { assert g[j - |flat|] in g && flat[i] in flat; }
    }
  }

  // ----- One layer from the finer one -----

  /** Each coarse region stands for one group of a partition of the fine ones. */
  ghost predicate Coarsened(fine: seq<Region>, groups: seq<seq<nat>>, coarse: seq<Region>, dist: Distance) {
    && Partitions(groups, |fine|) && |coarse| == |groups|
    && forall a :: 0 <= a < |groups| ==> Stands(fine, groups[a], coarse[a], dist)
  }

  /** Every region is in the group of the first leader it is near to; so leaders are near no other leader. */
  ghost predicate LeadersApart(fine: seq<Region>, groups: seq<seq<nat>>, threshold: real, dist: Distance) {
    && (forall a :: 0 <= a < |groups| ==> Led(fine, groups[a], threshold, dist))
    && forall a, b :: 0 <= a < b < |groups| ==> Apart(fine, groups[a], groups[b], threshold, dist)
  }

  /** The regions merged so far, one for each group. */
  ghost predicate MergedSoFar(fine: seq<Region>, groups: seq<seq<nat>>, coarse: seq<Region>, dist: Distance) {
    && |coarse| == |groups|
    && forall a :: 0 <= a < |groups| ==> Stands(fine, groups[a], coarse[a], dist) && coarse[a].edges == []
  }

  lemma MergedOneMore(fine: seq<Region>, groups: seq<seq<nat>>, coarse: seq<Region>, g: seq<nat>, r: Region,
                      dist: Distance)
    requires MergedSoFar(fine, groups, coarse, dist) && Stands(fine, g, r, dist) && r.edges == []
    ensures MergedSoFar(fine, groups + [g], coarse + [r], dist)
  {
  }

  /** The sweep before region i: every earlier region is in a group, and every group is merged. */
  ghost predicate Coarsening(fine: seq<Region>, groups: seq<seq<nat>>, coarse: seq<Region>, merged: seq<bool>, i: nat,
                             threshold: real, dist: Distance) {
    && i <= |fine| && Grouping(fine, groups, merged, threshold, dist) && MergedSoFar(fine, groups, coarse, dist)
    && LedBefore(groups, i)
    && forall j :: 0 <= j < i ==> merged[j]
  }

  lemma CoarseningSkips(fine: seq<Region>, groups: seq<seq<nat>>, coarse: seq<Region>, merged: seq<bool>, i: nat,
                        threshold: real, dist: Distance)
    requires Coarsening(fine, groups, coarse, merged, i, threshold, dist) && i < |fine| && merged[i]
    ensures Coarsening(fine, groups, coarse, merged, i + 1, threshold, dist)
  {
  }

  lemma CoarseningDone(fine: seq<Region>, groups: seq<seq<nat>>, coarse: seq<Region>, merged: seq<bool>,
                       threshold: real, dist: Distance)
    requires Coarsening(fine, groups, coarse, merged, |fine|, threshold, dist)
    ensures Coarsened(fine, groups, coarse, dist) && LeadersApart(fine, groups, threshold, dist)
    ensures forall a :: 0 <= a < |coarse| ==> coarse[a].edges == []
  {
  }

  /** The group that region i leads, merged into one region. */
  method MergeGroup(fine: seq<Region>, i: nat, merged: seq<bool>, coarse: seq<Region>, ghost groups: seq<seq<nat>>,
                    threshold: real, dist: Distance)
    returns (marked: seq<bool>, more: seq<Region>, ghost extended: seq<seq<nat>>)
    requires Sound(fine) && Coarsening(fine, groups, coarse, merged, i, threshold, dist) && i < |fine| && !merged[i]
    ensures Coarsening(fine, extended, more, marked, i + 1, threshold, dist)
  {
    var g;
    g, marked := CollectGroup(fine, i, merged, threshold, dist);
    GroupJoins(fine, groups, merged, i, g, marked, threshold, dist);
    var r := MergeRegions(fine, g, dist);
    MergedOneMore(fine, groups, coarse, g, r, dist);
    assert g[0] in g;
    more, extended := coarse + [r], groups + [g];
  }

  method CoarsenRegions(fine: seq<Region>, threshold: real, dist: Distance)
    returns (coarse: seq<Region>, ghost groups: seq<seq<nat>>)
    requires Sound(fine)
    ensures Coarsened(fine, groups, coarse, dist) && LeadersApart(fine, groups, threshold, dist)
    ensures forall a :: 0 <= a < |coarse| ==> coarse[a].edges == []
  {
    coarse, groups := [], [];
    var merged := seq(|fine|, _ => false);
    for i := 0 to |fine|
      invariant Coarsening(fine, groups, coarse, merged, i, threshold, dist)
    {
      if merged[i] {
        CoarseningSkips(fine, groups, coarse, merged, i, threshold, dist);
      } else {
        merged, coarse, groups := MergeGroup(fine, i, merged, coarse, groups, threshold, dist);
      }
    }
    CoarseningDone(fine, groups, coarse, merged, threshold, dist);
  }

  // ----- Edges -----

  /** The length of an edge, in whole nanoseconds. */
  function Nanos(d: real): int {
    (d * 1000000000.0).Floor
  }

  ghost predicate Near(rs: seq<Region>, i: int, j: int, threshold: real, dist: Distance)
    requires 0 <= i < |rs| && 0 <= j < |rs|
  {
    i != j && dist(rs[i].centroid, rs[j].centroid) < threshold
  }

  /** Region i's edges lead to exactly the near regions, with their distance. */
  ghost predicate EdgesOf(rs: seq<Region>, i: nat, edges: seq<Edge>, threshold: real, dist: Distance)
    requires i < |rs|
  {
    forall e :: e in edges <==>
      e.to < |rs| && Near(rs, i, e.to, threshold, dist) && e.meanNanos == Nanos(dist(rs[i].centroid, rs[e.to].centroid))
  }

  /** Pair (a, b) comes before (i, j) in the sweep over pairs. */
  predicate Swept(a: int, b: int, i: int, j: int) {
    if a < b then a < i || (a == i && b < j) else b < i || (b == i && a < j)
  }

  /** The edges of the pairs swept so far. */
  ghost predicate EdgesUpTo(rs: seq<Region>, edges: seq<seq<Edge>>, i: nat, j: nat, threshold: real, dist: Distance) {
    && |edges| == |rs|
    && forall k, e :: 0 <= k < |rs| ==>
      (e in edges[k] <==> e.to < |rs| && Near(rs, k, e.to, threshold, dist) && Swept(k, e.to, i, j)
                          && e.meanNanos == Nanos(dist(rs[k].centroid, rs[e.to].centroid)))
  }

  method LinkPair(rs: seq<Region>, edges: seq<seq<Edge>>, i: nat, j: nat, threshold: real, dist: Distance)
    returns (linked: seq<seq<Edge>>)
    requires IsMetric(dist) && i < j < |rs| && EdgesUpTo(rs, edges, i, j, threshold, dist)
    ensures EdgesUpTo(rs, linked, i, j + 1, threshold, dist)
  {
    linked := edges;
    var d := dist(rs[i].centroid, rs[j].centroid);
    assert d == dist(rs[j].centroid, rs[i].centroid);
    if d < threshold {
      linked := linked[i := linked[i] + [Edge(j, Nanos(d))]];
      linked := linked[j := linked[j] + [Edge(i, Nanos(d))]];
    }
  }

  method LinkPairs(rs: seq<Region>, threshold: real, dist: Distance) returns (edges: seq<seq<Edge>>)
    requires IsMetric(dist)
    ensures EdgesUpTo(rs, edges, |rs|, |rs| + 1, threshold, dist)
  {
    edges := seq(|rs|, _ => []);
    for i := 0 to |rs|
      invariant EdgesUpTo(rs, edges, i, i + 1, threshold, dist)
    {
      for j := i + 1 to |rs|
        invariant EdgesUpTo(rs, edges, i, j, threshold, dist)
      {
        edges := LinkPair(rs, edges, i, j, threshold, dist);
      }
      NextRow(rs, edges, i, threshold, dist);
    }
  }

  lemma NextRow(rs: seq<Region>, edges: seq<seq<Edge>>, i: nat, threshold: real, dist: Distance)
    requires i < |rs| && EdgesUpTo(rs, edges, i, |rs|, threshold, dist)
    ensures EdgesUpTo(rs, edges, i + 1, i + 2, threshold, dist)
  {
    forall k, e: Edge | 0 <= k < |rs| && e.to < |rs| && k != e.to
      ensures Swept(k, e.to, i, |rs|) <==> Swept(k, e.to, i + 1, i + 2)
    {
    }
  }

  /** Sweep the pairs, then hand every region its edges. */
  method AddInterEdges(rs: seq<Region>, threshold: real, dist: Distance) returns (linked: seq<Region>)
    requires IsMetric(dist) && forall i :: 0 <= i < |rs| ==> rs[i].edges == []
    ensures |linked| == |rs|
    ensures forall i :: 0 <= i < |rs| ==>
              linked[i] == rs[i].(edges := linked[i].edges) && EdgesOf(rs, i, linked[i].edges, threshold, dist)
  {
    var edges := LinkPairs(rs, threshold, dist);
    forall i | 0 <= i < |rs| ensures EdgesOf(rs, i, edges[i], threshold, dist) {
    }
    linked := seq(|rs|, i requires 0 <= i < |rs| => rs[i].(edges := edges[i]));
  }

  /** Every edge has its mirror image. */
  lemma EdgesAreSymmetric(rs: seq<Region>, i: nat, j: nat, ei: seq<Edge>, ej: seq<Edge>, threshold: real,
                          dist: Distance, m: int)
    requires IsMetric(dist) && i < |rs| && j < |rs| && EdgesOf(rs, i, ei, threshold, dist)
    requires EdgesOf(rs, j, ej, threshold, dist)
    ensures Edge(j, m) in ei <==> Edge(i, m) in ej
  {
    assert dist(rs[i].centroid, rs[j].centroid) == dist(rs[j].centroid, rs[i].centroid);
  }

  // ----- The finest layer -----

  datatype Accum = Accum(sum: Point, count: nat, offsets: seq<real>)

  ghost predicate Gathered(accs: seq<Accum>) {
    forall i :: 0 <= i < |accs| ==> |accs[i].sum| == DIM && accs[i].count > 0 && |accs[i].offsets| == accs[i].count
  }

  ghost function Counts(accs: seq<Accum>): (f: seq<real>)
    ensures |f| == |accs| && forall i :: 0 <= i < |accs| ==> f[i] == accs[i].count as real
  {
    seq(|accs|, i requires 0 <= i < |accs| => accs[i].count as real)
  }

  ghost function Sums(accs: seq<Accum>, d: nat): (f: seq<real>)
    requires Gathered(accs) && d < DIM
    ensures |f| == |accs| && forall i :: 0 <= i < |accs| ==> f[i] == accs[i].sum[d]
  {
    seq(|accs|, i requires 0 <= i < |accs| => accs[i].sum[d])
  }

  ghost predicate Placed(beacons: seq<Beacon>) {
    forall i :: 0 <= i < |beacons| ==> |beacons[i].position| == DIM
  }

  ghost function Positions(beacons: seq<Beacon>, d: nat): (f: seq<real>)
    requires Placed(beacons) && d < DIM
    ensures |f| == |beacons| && forall i :: 0 <= i < |beacons| ==> f[i] == beacons[i].position[d]
  {
    seq(|beacons|, i requires 0 <= i < |beacons| => beacons[i].position[d])
  }

  function Centroid(a: Accum): (c: Point)
    requires |a.sum| == DIM && a.count > 0
    ensures |c| == DIM
  {
    seq(DIM, d requires 0 <= d < DIM => a.sum[d] / a.count as real)
  }

  function Plus(u: Point, v: Point): (w: Point)
    requires |u| == DIM && |v| == DIM
    ensures |w| == DIM && forall d :: 0 <= d < DIM ==> w[d] == u[d] + v[d]
  {
    seq(DIM, d requires 0 <= d < DIM => u[d] + v[d])
  }

  /** k is the first region in progress whose centroid is within the threshold, or the end of the list if none is. */
  ghost predicate FirstNear(accs: seq<Accum>, pos: Point, threshold: real, dist: Distance, k: nat)
    requires Gathered(accs)
  {
    && k <= |accs| && (k < |accs| ==> dist(Centroid(accs[k]), pos) < threshold)
    && forall i :: 0 <= i < k ==> dist(Centroid(accs[i]), pos) >= threshold
  }

  /** b joins region k, or starts one at the end of the list. */
  ghost function Joined(accs: seq<Accum>, b: Beacon, k: nat): seq<Accum>
    requires Gathered(accs) && |b.position| == DIM && k <= |accs|
  {
    if k < |accs| then
      accs[k := Accum(Plus(accs[k].sum, b.position), accs[k].count + 1, accs[k].offsets + [b.offset])]
    else accs + [Accum(b.position, 1, [b.offset])]
  }

  /** The lists after each of the first beacons, every one put where the first region near it was. */
  ghost predicate Trail(trail: seq<seq<Accum>>, puts: seq<nat>, beacons: seq<Beacon>, threshold: real, dist: Distance) {
    && |trail| == |puts| + 1 && |puts| <= |beacons| && trail[0] == []
    && forall k {:trigger puts[k]} :: 0 <= k < |puts| ==>
        PutNext(trail[k], trail[k + 1], beacons[k], threshold, dist, puts[k])
  }

  ghost predicate PutNext(before: seq<Accum>, after: seq<Accum>, b: Beacon, threshold: real, dist: Distance, i: nat) {
    && Gathered(before) && |b.position| == DIM && FirstNear(before, b.position, threshold, dist, i)
    && after == Joined(before, b, i)
  }

  method FindNear(accs: seq<Accum>, pos: Point, threshold: real, dist: Distance) returns (k: nat)
    requires Gathered(accs)
    ensures FirstNear(accs, pos, threshold, dist, k)
  {
    k := 0;
    while k < |accs| && dist(Centroid(accs[k]), pos) >= threshold
      invariant k <= |accs| && forall i :: 0 <= i < k ==> dist(Centroid(accs[i]), pos) >= threshold
    {
      k := k + 1;
    }
  }

  lemma {:induction false} TotalUpdate(f: seq<real>, k: nat, x: real)
    requires k < |f|
    ensures Total(f[k := f[k] + x]) == Total(f) + x
  {
    var n := |f| - 1;
    if k == n {
      assert f[k := f[k] + x][..n] == f[..n];
    } else {
      TotalUpdate(f[..n], k, x);
      assert f[k := f[k] + x][..n] == f[..n][k := f[k] + x];
    }
  }

  lemma TotalAppend(f: seq<real>, x: real)
    ensures Total(f + [x]) == Total(f) + x
  {
    assert (f + [x])[..|f|] == f;
  }

  /** The regions in progress hold the first k beacons: all of them, at their positions. */
  ghost predicate Holding(accs: seq<Accum>, beacons: seq<Beacon>, k: nat)
    requires Placed(beacons) && k <= |beacons|
  {
    && Gathered(accs) && Total(Counts(accs)) == k as real && (k > 0 ==> accs != [])
    && forall d :: 0 <= d < DIM ==> Total(Sums(accs, d)) == Total(Positions(beacons, d)[..k])
  }

  method Absorb(accs: seq<Accum>, beacons: seq<Beacon>, k: nat, threshold: real, dist: Distance)
    returns (more: seq<Accum>, i: nat)
    requires Placed(beacons) && k < |beacons| && Holding(accs, beacons, k)
    ensures Holding(more, beacons, k + 1) && PutNext(accs, more, beacons[k], threshold, dist, i)
  {
    var b := beacons[k];
    i := FindNear(accs, b.position, threshold, dist);
    if i < |accs| {
      var a := accs[i];
      more := accs[i := Accum(Plus(a.sum, b.position), a.count + 1, a.offsets + [b.offset])];
      JoinedHolds(accs, more, i, beacons, k);
    } else {
      more := accs + [Accum(b.position, 1, [b.offset])];
      StartedHolds(accs, more, beacons, k);
    }
  }

  lemma JoinedHolds(accs: seq<Accum>, more: seq<Accum>, i: nat, beacons: seq<Beacon>, k: nat)
    requires Placed(beacons) && k < |beacons| && Holding(accs, beacons, k) && i < |accs|
    requires var a, b := accs[i], beacons[k];
             more == accs[i := Accum(Plus(a.sum, b.position), a.count + 1, a.offsets + [b.offset])]
    ensures Holding(more, beacons, k + 1)
  {
    JoinedCounts(accs, more, i);
    forall d | 0 <= d < DIM ensures Total(Sums(more, d)) == Total(Positions(beacons, d)[..k + 1]) {
      JoinedSums(accs, more, i, d, beacons[k].position[d]);
      OneMorePosition(beacons, d, k);
    }
  }

  lemma JoinedCounts(accs: seq<Accum>, more: seq<Accum>, i: nat)
    requires i < |accs| == |more| && more == accs[i := more[i]] && more[i].count == accs[i].count + 1
    ensures Total(Counts(more)) == Total(Counts(accs)) + 1.0
  {
    assert Counts(more) == Counts(accs)[i := Counts(accs)[i] + 1.0];
    TotalUpdate(Counts(accs), i, 1.0);
  }

  lemma JoinedSums(accs: seq<Accum>, more: seq<Accum>, i: nat, d: nat, x: real)
    requires Gathered(accs) && Gathered(more) && d < DIM && i < |accs| == |more|
    requires more == accs[i := more[i]]
    requires more[i].sum[d] == accs[i].sum[d] + x
    ensures Total(Sums(more, d)) == Total(Sums(accs, d)) + x
  {
    assert Sums(more, d) == Sums(accs, d)[i := Sums(accs, d)[i] + x];
    TotalUpdate(Sums(accs, d), i, x);
  }

  lemma StartedHolds(accs: seq<Accum>, more: seq<Accum>, beacons: seq<Beacon>, k: nat)
    requires Placed(beacons) && k < |beacons| && Holding(accs, beacons, k)
    requires more == accs + [Accum(beacons[k].position, 1, [beacons[k].offset])]
    ensures Holding(more, beacons, k + 1)
  {
    StartedCounts(accs, more);
    forall d | 0 <= d < DIM ensures Total(Sums(more, d)) == Total(Positions(beacons, d)[..k + 1]) {
      StartedSums(accs, more, d);
      OneMorePosition(beacons, d, k);
    }
  }

  lemma StartedCounts(accs: seq<Accum>, more: seq<Accum>)
    requires |more| == |accs| + 1 && more[..|accs|] == accs && more[|accs|].count == 1
    ensures Total(Counts(more)) == Total(Counts(accs)) + 1.0
  {
    assert Counts(more) == Counts(accs) + [1.0];
    TotalAppend(Counts(accs), 1.0);
  }

  lemma StartedSums(accs: seq<Accum>, more: seq<Accum>, d: nat)
    requires Gathered(accs) && Gathered(more) && |more| == |accs| + 1 && more[..|accs|] == accs && d < DIM
    ensures Total(Sums(more, d)) == Total(Sums(accs, d)) + more[|accs|].sum[d]
  {
    var x := more[|accs|].sum[d];
    assert Sums(more, d) == Sums(accs, d) + [x];
    TotalAppend(Sums(accs, d), x);
  }

  lemma OneMorePosition(beacons: seq<Beacon>, d: nat, k: nat)
    requires Placed(beacons) && k < |beacons| && d < DIM
    ensures Total(Positions(beacons, d)[..k + 1]) == Total(Positions(beacons, d)[..k]) + beacons[k].position[d]
  {
    var f := Positions(beacons, d);
    assert f[..k + 1][..k] == f[..k];
  }

  function Sum(s: seq<real>): real {
    Total(s)
  }

  /** Mean absolute deviation of the clock offsets. */
  function OffsetSpread(offsets: seq<real>): real {
    if |offsets| <= 1 then 0.0 else
      var mean := Sum(offsets) / |offsets| as real;
      Sum(R.Deviations(offsets, mean)) / |offsets| as real
  }

  function LeafRegion(a: Accum, threshold: real): Region
    requires |a.sum| == DIM && a.count > 0
  {
    Region(Centroid(a), threshold / 2.0, a.count, [], [], OffsetSpread(a.offsets))
  }

  /** The regions hold every beacon: as many members, and the same position sums. */
  ghost predicate HoldsAll(rs: seq<Region>, beacons: seq<Beacon>)
    requires Placed(beacons)
  {
    && Sound(rs) && Total(Members(rs)) == |beacons| as real
    && forall d :: 0 <= d < DIM ==> Total(Moments(rs, d)) == Total(Positions(beacons, d))
  }

  lemma LeafConserves(accs: seq<Accum>, rs: seq<Region>, beacons: seq<Beacon>, threshold: real)
    requires Placed(beacons) && Holding(accs, beacons, |beacons|) && |rs| == |accs|
    requires forall i :: 0 <= i < |rs| ==> rs[i] == LeafRegion(accs[i], threshold)
    ensures HoldsAll(rs, beacons)
  {
    assert Members(rs) == Counts(accs);
    forall d | 0 <= d < DIM
      ensures Total(Moments(rs, d)) == Total(Positions(beacons, d))
    {
      LeafMoments(accs, rs, threshold, d);
      assert Positions(beacons, d)[..|beacons|] == Positions(beacons, d);
    }
  }

  lemma LeafMoments(accs: seq<Accum>, rs: seq<Region>, threshold: real, d: nat)
    requires Gathered(accs) && |rs| == |accs| && d < DIM
    requires forall i :: 0 <= i < |rs| ==> rs[i] == LeafRegion(accs[i], threshold)
    ensures Sound(rs) && Moments(rs, d) == Sums(accs, d)
  {
    forall i | 0 <= i < |rs|
      ensures |rs[i].centroid| == DIM && rs[i].members > 0 && Moment(rs[i], d) == accs[i].sum[d]
    {
      LeafMoment(accs[i], rs[i], threshold, d);
    }
  }

  lemma LeafMoment(a: Accum, r: Region, threshold: real, d: nat)
    requires |a.sum| == DIM && a.count > 0 && d < DIM && r == LeafRegion(a, threshold)
    ensures |r.centroid| == DIM && r.members > 0 && Moment(r, d) == a.sum[d]
  {
    Undivide(a.sum[d], a.count);
  }

  lemma Undivide(x: real, n: nat)
    requires n > 0
    ensures x / n as real * n as real == x
  {
  }

  /**
   * Each beacon joins the first region near it; each region is the one its beacons make, and together they hold them
   * all.
   */
  method LeafRegions(beacons: seq<Beacon>, threshold: real, dist: Distance)
    returns (rs: seq<Region>, ghost trail: seq<seq<Accum>>, ghost puts: seq<nat>)
    requires Placed(beacons)
    ensures HoldsAll(rs, beacons) && (beacons != [] ==> rs != [])
    ensures Trail(trail, puts, beacons, threshold, dist) && |puts| == |beacons|
    ensures Gathered(trail[|beacons|]) && |rs| == |trail[|beacons|]|
    ensures forall i :: 0 <= i < |rs| ==> rs[i] == LeafRegion(trail[|beacons|][i], threshold)
  {
    var regions: seq<Accum> := [];
    trail, puts := [[]], [];
    for k := 0 to |beacons|
      invariant Holding(regions, beacons, k) && Trail(trail, puts, beacons, threshold, dist)
      invariant |puts| == k && trail[k] == regions
    {
      var more, i := Absorb(regions, beacons, k, threshold, dist);
      regions, trail, puts := more, trail + [more], puts + [i];
    }
    rs := seq(|regions|, i requires 0 <= i < |regions| && |regions[i].sum| == DIM && regions[i].count > 0 =>
                           LeafRegion(regions[i], threshold));
    LeafConserves(regions, rs, beacons, threshold);
  }
}
