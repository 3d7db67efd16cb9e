/** The whole hierarchy of layers, and what every layer keeps of the beacons. */
module GeoidHierarchy {
  import opened Basics
  import opened Partition
  import opened Geoid

  datatype Layer = Layer(level: nat, regions: seq<Region>)

  /** The resolution of a level: the base, one scale factor coarser each level. */
  function Threshold(base: real, scale: real, level: nat): real {
    if level == 0 then base else Threshold(base, scale, level - 1) * scale
  }

  /** Each coarse region stands for one group of a partition of the fine ones, grouped at the threshold. */
  ghost predicate Coarser(fine: seq<Region>, coarse: seq<Region>, threshold: real, dist: Distance) {
    exists groups: seq<seq<nat>> :: Grouped(fine, groups, coarse, threshold, dist)
  }

  ghost predicate Grouped(fine: seq<Region>, groups: seq<seq<nat>>, coarse: seq<Region>, threshold: real,
                          dist: Distance) {
    Coarsened(fine, groups, coarse, dist) && LeadersApart(fine, groups, threshold, dist)
  }

  /** The regions the beacons make when each joins the first one near it, but for the edges. */
  ghost predicate Leaves(rs: seq<Region>, beacons: seq<Beacon>, threshold: real, dist: Distance) {
    exists trail, puts :: Trail(trail, puts, beacons, threshold, dist) && LeavesOf(rs, trail, puts, beacons, threshold)
  }

  ghost predicate LeavesOf(rs: seq<Region>, trail: seq<seq<Accum>>, puts: seq<nat>, beacons: seq<Beacon>,
                           threshold: real) {
    && |puts| == |beacons| == |trail| - 1 && Gathered(trail[|beacons|]) && |rs| == |trail[|beacons|]|
    && forall i :: 0 <= i < |rs| ==> rs[i] == LeafRegion(trail[|beacons|][i], threshold).(edges := rs[i].edges)
  }

  /** Regions are joined by edges exactly where they are within the threshold. */
  ghost predicate Interlinked(rs: seq<Region>, threshold: real, dist: Distance) {
    forall i :: 0 <= i < |rs| ==> EdgesOf(rs, i, rs[i].edges, threshold, dist)
  }

  ghost predicate SameButEdges(rs: seq<Region>, linked: seq<Region>) {
    |linked| == |rs| && forall i :: 0 <= i < |rs| ==> linked[i] == rs[i].(edges := linked[i].edges)
  }

  lemma LinkedInterlinked(rs: seq<Region>, linked: seq<Region>, threshold: real, dist: Distance)
    requires SameButEdges(rs, linked) && forall i :: 0 <= i < |rs| ==> EdgesOf(rs, i, linked[i].edges, threshold, dist)
    ensures Interlinked(linked, threshold, dist)
  {
    forall i | 0 <= i < |linked| ensures EdgesOf(linked, i, linked[i].edges, threshold, dist) {
      assert EdgesOf(rs, i, linked[i].edges, threshold, dist);
      assert forall k :: 0 <= k < |rs| ==> linked[k].centroid == rs[k].centroid;
    }
  }

  lemma LinkedCoarsened(fine: seq<Region>, groups: seq<seq<nat>>, rs: seq<Region>, linked: seq<Region>, dist: Distance)
    requires Coarsened(fine, groups, rs, dist) && SameButEdges(rs, linked)
    ensures Coarsened(fine, groups, linked, dist)
  {
    forall a | 0 <= a < |groups| ensures Stands(fine, groups[a], linked[a], dist) {
      assert Stands(fine, groups[a], rs[a], dist) && linked[a] == rs[a].(edges := linked[a].edges);
    }
  }

  lemma LinkedHolds(rs: seq<Region>, linked: seq<Region>, beacons: seq<Beacon>)
    requires Placed(beacons) && HoldsAll(rs, beacons) && SameButEdges(rs, linked)
    ensures HoldsAll(linked, beacons)
  {
    assert Members(linked) == Members(rs);
    forall d | 0 <= d < DIM ensures Total(Moments(linked, d)) == Total(Positions(beacons, d)) {
      forall i | 0 <= i < |rs| ensures Moments(linked, d)[i] == Moments(rs, d)[i] {
        assert linked[i] == rs[i].(edges := linked[i].edges);
      }
      assert Moments(linked, d) == Moments(rs, d);
    }
  }

  // ----- Building -----

  method BuildLeafLayer(beacons: seq<Beacon>, threshold: real, dist: Distance) returns (layer: Layer)
    requires Placed(beacons) && IsMetric(dist)
    ensures layer.level == 0 && HoldsAll(layer.regions, beacons) && (beacons != [] ==> layer.regions != [])
    ensures Leaves(layer.regions, beacons, threshold, dist)
    ensures Interlinked(layer.regions, threshold * 3.0, dist)
  {
    var rs;
    ghost var trail, puts;
    rs, trail, puts := LeafRegions(beacons, threshold, dist);
    var linked := AddInterEdges(rs, threshold * 3.0, dist);
    assert LeavesOf(linked, trail, puts, beacons, threshold);
    LinkedInterlinked(rs, linked, threshold * 3.0, dist);
    LinkedHolds(rs, linked, beacons);
    layer := Layer(0, linked);
  }

  method CoarsenLayer(fine: Layer, base: real, scale: real, dist: Distance) returns (coarse: Layer)
    requires Sound(fine.regions) && IsMetric(dist)
    ensures Leveled(coarse, fine.level + 1, base, scale, dist)
    ensures Follows(fine, coarse, fine.level + 1, base, scale, dist)
  {
    var threshold := Threshold(base, scale, fine.level + 1);
    var rs, groups := CoarsenRegions(fine.regions, threshold, dist);
    var linked := AddInterEdges(rs, threshold * 3.0, dist);
    LinkedInterlinked(rs, linked, threshold * 3.0, dist);
    LinkedCoarsened(fine.regions, groups, rs, linked, dist);
    assert Grouped(fine.regions, groups, linked, threshold, dist);
    coarse := Layer(fine.level + 1, linked);
  }

  ghost predicate Leveled(layer: Layer, i: nat, base: real, scale: real, dist: Distance) {
    layer.level == i && Interlinked(layer.regions, Threshold(base, scale, i) * 3.0, dist)
  }

  /** The chain of layers over the beacons. */
  ghost predicate Hierarchy(layers: seq<Layer>, beacons: seq<Beacon>, base: real, scale: real, dist: Distance)
    requires Placed(beacons)
  {
    && layers != [] && HoldsAll(layers[0].regions, beacons) && layers[0].regions != []
    && Leaves(layers[0].regions, beacons, base, dist)
    && (forall i :: 0 <= i < |layers| ==> Leveled(layers[i], i, base, scale, dist))
    && (forall i :: 0 < i < |layers| ==> Follows(layers[i - 1], layers[i], i, base, scale, dist))
  }

  /** Layer i groups the one before at its own resolution. */
  ghost predicate Follows(fine: Layer, coarse: Layer, i: nat, base: real, scale: real, dist: Distance) {
    Coarser(fine.regions, coarse.regions, Threshold(base, scale, i), dist)
  }

  /** No layer without beacons; otherwise exactly as many layers as levels, and at least one. */
  method BuildHierarchy(beacons: seq<Beacon>, base: real, scale: real, levels: nat, dist: Distance)
    returns (layers: seq<Layer>)
    requires Placed(beacons) && IsMetric(dist)
    ensures beacons == [] ==> layers == []
    ensures beacons != [] ==>
              |layers| == (if levels == 0 then 1 else levels) && Hierarchy(layers, beacons, base, scale, dist)
  {
    if beacons == [] { return []; }
    var leaf := BuildLeafLayer(beacons, base, dist);
    layers := [leaf];
    var i := 1;
    while i < levels
      invariant |layers| == i && (levels == 0 ==> i == 1) && (levels > 0 ==> i <= levels)
      invariant Hierarchy(layers, beacons, base, scale, dist)
    {
      var prev := layers[|layers| - 1];
      LayersConserve(layers, beacons, base, scale, dist, |layers| - 1);
      if prev.regions == [] { break; }
      layers := AddLayer(layers, beacons, base, scale, dist);
      i := i + 1;
    }
  }

  method AddLayer(layers: seq<Layer>, ghost beacons: seq<Beacon>, base: real, scale: real, dist: Distance)
    returns (more: seq<Layer>)
    requires Placed(beacons) && IsMetric(dist) && Hierarchy(layers, beacons, base, scale, dist)
    ensures |more| == |layers| + 1 && Hierarchy(more, beacons, base, scale, dist)
  {
    LayersConserve(layers, beacons, base, scale, dist, |layers| - 1);
    assert Leveled(layers[|layers| - 1], |layers| - 1, base, scale, dist);
    var coarse := CoarsenLayer(layers[|layers| - 1], base, scale, dist);
    HierarchyGrows(layers, coarse, beacons, base, scale, dist);
    more := layers + [coarse];
  }

  lemma HierarchyGrows(layers: seq<Layer>, coarse: Layer, beacons: seq<Beacon>, base: real, scale: real, dist: Distance)
    requires Placed(beacons) && Hierarchy(layers, beacons, base, scale, dist)
    requires Leveled(coarse, |layers|, base, scale, dist)
    requires Follows(layers[|layers| - 1], coarse, |layers|, base, scale, dist)
    ensures Hierarchy(layers + [coarse], beacons, base, scale, dist)
  {
    var more := layers + [coarse];
    assert forall i :: 0 <= i < |layers| ==> more[i] == layers[i];
    forall i | 0 < i < |more| ensures Follows(more[i - 1], more[i], i, base, scale, dist) {
      if i < |layers| { assert Follows(layers[i - 1], layers[i], i, base, scale, dist); }
    }
  }

  // ----- What a coarser layer keeps -----

  lemma CoarseMembers(fine: seq<Region>, groups: seq<seq<nat>>, coarse: seq<Region>, dist: Distance)
    requires Coarsened(fine, groups, coarse, dist)
    ensures Total(Members(coarse)) == Total(Members(fine))
  {
    forall a | 0 <= a < |groups|
      ensures Within(groups[a], |fine|) && Members(coarse)[a] == Picked(Members(fine), groups[a])
    {
      assert Stands(fine, groups[a], coarse[a], dist);
    }
    PartitionConserves(Members(fine), groups, Members(coarse));
  }

  lemma CoarseMoments(fine: seq<Region>, groups: seq<seq<nat>>, coarse: seq<Region>, dist: Distance, d: nat)
    requires Sound(fine) && Sound(coarse) && Coarsened(fine, groups, coarse, dist) && d < DIM
    ensures Total(Moments(coarse, d)) == Total(Moments(fine, d))
  {
    forall a | 0 <= a < |groups|
      ensures Within(groups[a], |fine|) && Moments(coarse, d)[a] == Picked(Moments(fine, d), groups[a])
    {
      assert Stands(fine, groups[a], coarse[a], dist);
      assert Balanced(coarse[a].centroid[d], coarse[a].members, Picked(Moments(fine, d), groups[a]));
    }
    PartitionConserves(Moments(fine, d), groups, Moments(coarse, d));
  }

  /**
   * A coarser layer has no more regions, the same members, the same weighted centroid sums and the same worst
   * residual.
   */
  lemma CoarserConserves(fine: seq<Region>, coarse: seq<Region>, threshold: real, dist: Distance)
    requires Sound(fine) && Coarser(fine, coarse, threshold, dist)
    ensures Sound(coarse) && |coarse| <= |fine| && (fine != [] ==> coarse != [])
    ensures Total(Members(coarse)) == Total(Members(fine))
    ensures forall d :: 0 <= d < DIM ==> Total(Moments(coarse, d)) == Total(Moments(fine, d))
    ensures forall m :: Largest(m, Residuals(fine)) ==> Largest(m, Residuals(coarse))
  {
    var groups: seq<seq<nat>> :| Grouped(fine, groups, coarse, threshold, dist);
    assert Sound(coarse) by {
      forall a | 0 <= a < |coarse| ensures |coarse[a].centroid| == DIM && coarse[a].members > 0 {
        assert Stands(fine, groups[a], coarse[a], dist);
      }
    }
    PartitionShrinks(groups, |fine|);
    CoarseMembers(fine, groups, coarse, dist);
    forall d | 0 <= d < DIM ensures Total(Moments(coarse, d)) == Total(Moments(fine, d)) {
      CoarseMoments(fine, groups, coarse, dist, d);
    }
    forall m | Largest(m, Residuals(fine)) ensures Largest(m, Residuals(coarse)) {
      CoarseWorst(fine, groups, coarse, dist, m);
    }
  }

  lemma CoarseWorst(fine: seq<Region>, groups: seq<seq<nat>>, coarse: seq<Region>, dist: Distance, m: real)
    requires Coarsened(fine, groups, coarse, dist) && Largest(m, Residuals(fine))
    ensures Largest(m, Residuals(coarse))
  {
    forall a | 0 <= a < |groups| ensures LargestOf(Residuals(coarse)[a], Residuals(fine), groups[a]) {
      assert Stands(fine, groups[a], coarse[a], dist);
    }
    PartitionKeepsLargest(Residuals(fine), groups, Residuals(coarse), m);
  }

  /**
   * Every layer of a hierarchy holds every beacon once: as many members, the same position sums, the leaves' worst
   * residual.
   */
  lemma {:induction false} LayersConserve(layers: seq<Layer>, beacons: seq<Beacon>, base: real, scale: real,
                                          dist: Distance, i: nat)
    requires Placed(beacons) && Hierarchy(layers, beacons, base, scale, dist) && i < |layers|
    ensures HoldsAll(layers[i].regions, beacons) && layers[i].regions != []
    ensures i > 0 ==> |layers[i].regions| <= |layers[i - 1].regions|
    ensures forall m :: Largest(m, Residuals(layers[0].regions)) ==> Largest(m, Residuals(layers[i].regions))
  {
    if i > 0 {
      LayersConserve(layers, beacons, base, scale, dist, i - 1);
      assert Follows(layers[i - 1], layers[i], i, base, scale, dist);
      CoarserConserves(layers[i - 1].regions, layers[i].regions, Threshold(base, scale, i), dist);
    }
  }

  // ----- Resolution -----

  /** Level by level the threshold is the base times so many factors. */
  lemma {:induction false} ThresholdIsGeometric(base: real, scale: real, i: nat, j: nat)
    ensures Threshold(base, scale, i + j) == Threshold(Threshold(base, scale, i), scale, j)
    ensures Threshold(base, scale, i) == base * Threshold(1.0, scale, i) && Threshold(1.0, scale, 1) == scale
  {
    if j > 0 { ThresholdIsGeometric(base, scale, i, j - 1); }
    ThresholdIsMultiple(base, scale, i);
  }

  lemma {:induction false} ThresholdIsMultiple(base: real, scale: real, i: nat)
    ensures Threshold(base, scale, i) == base * Threshold(1.0, scale, i)
  {
    if i > 0 {
      ThresholdIsMultiple(base, scale, i - 1);
      assert (base * Threshold(1.0, scale, i - 1)) * scale == base * (Threshold(1.0, scale, i - 1) * scale);
    }
  }

  /** A region gathers what is near its first child, and nothing that is near the first child of one before it. */
  ghost predicate Resolves(fine: seq<Region>, coarse: seq<Region>, threshold: real, dist: Distance) {
    && (forall a :: 0 <= a < |coarse| ==> Led(fine, coarse[a].children, threshold, dist))
    && forall a, b :: 0 <= a < b < |coarse| ==>
        Apart(fine, coarse[a].children, coarse[b].children, threshold, dist)
  }

  /**
   * Every layer above the leaves resolves the one below at its own threshold: children lie within it of their region's
   * first child, and at least as far from the first child of every region before.
   */
  lemma LayerResolution(layers: seq<Layer>, beacons: seq<Beacon>, base: real, scale: real, dist: Distance, i: nat)
    requires Placed(beacons) && Hierarchy(layers, beacons, base, scale, dist) && 0 < i < |layers|
    ensures Resolves(layers[i - 1].regions, layers[i].regions, Threshold(base, scale, i), dist)
  {
    assert Follows(layers[i - 1], layers[i], i, base, scale, dist);
    CoarserResolves(layers[i - 1].regions, layers[i].regions, Threshold(base, scale, i), dist);
  }

  lemma CoarserResolves(fine: seq<Region>, coarse: seq<Region>, threshold: real, dist: Distance)
    requires Coarser(fine, coarse, threshold, dist)
    ensures Resolves(fine, coarse, threshold, dist)
  {
    var groups: seq<seq<nat>> :| Grouped(fine, groups, coarse, threshold, dist);
    forall a | 0 <= a < |coarse| ensures coarse[a].children == groups[a] {
      assert Stands(fine, groups[a], coarse[a], dist);
    }
  }

  /** Every fine region is the child of exactly one coarse region, whose ball contains its ball. */
  lemma ChildrenNest(fine: seq<Region>, coarse: seq<Region>, threshold: real, dist: Distance, j: nat) returns (a: nat)
    requires IsMetric(dist) && Coarser(fine, coarse, threshold, dist) && j < |fine|
    ensures a < |coarse| && j in coarse[a].children
    ensures forall b :: 0 <= b < |coarse| && j in coarse[b].children ==> b == a
    ensures forall x :: dist(x, fine[j].centroid) <= fine[j].radius ==> dist(x, coarse[a].centroid) <= coarse[a].radius
  {
    var groups: seq<seq<nat>> :| Grouped(fine, groups, coarse, threshold, dist);
    a := GroupNests(fine, groups, coarse, dist, j);
  }

  lemma GroupNests(fine: seq<Region>, groups: seq<seq<nat>>, coarse: seq<Region>, dist: Distance, j: nat)
    returns (a: nat)
    requires IsMetric(dist) && Coarsened(fine, groups, coarse, dist) && j < |fine|
    ensures a < |coarse| && j in coarse[a].children
    ensures forall b :: 0 <= b < |coarse| && j in coarse[b].children ==> b == a
    ensures forall x :: dist(x, fine[j].centroid) <= fine[j].radius ==> dist(x, coarse[a].centroid) <= coarse[a].radius
  {
    FlatHolds(groups, j);
    a :| 0 <= a < |groups| && j in groups[a];
    assert Stands(fine, groups[a], coarse[a], dist);
    var k :| 0 <= k < |groups[a]| && groups[a][k] == j;
    forall x | dist(x, fine[j].centroid) <= fine[j].radius ensures dist(x, coarse[a].centroid) <= coarse[a].radius {
      BallsNest(fine, groups[a], coarse[a], dist, k, x);
    }
    forall b | 0 <= b < |coarse| && j in coarse[b].children ensures b == a {
      assert Stands(fine, groups[b], coarse[b], dist);
      if b < a { GroupsDisjoint(groups, b, a, j); }
      if a < b { GroupsDisjoint(groups, a, b, j); }
    }
  }

  /** In every layer, an edge from one region to another has its mirror image, and their distance in whole ns. */
  lemma LayerEdgesSymmetric(rs: seq<Region>, threshold: real, dist: Distance, i: nat, j: nat, m: int)
    requires IsMetric(dist) && Interlinked(rs, threshold, dist) && i < |rs| && j < |rs|
    ensures Edge(j, m) in rs[i].edges <==> Edge(i, m) in rs[j].edges
    ensures Edge(j, m) in rs[i].edges ==>
              dist(rs[i].centroid, rs[j].centroid) < threshold
              && m as real <= 1000000000.0 * dist(rs[i].centroid, rs[j].centroid) < m as real + 1.0
  {
    EdgesAreSymmetric(rs, i, j, rs[i].edges, rs[j].edges, threshold, dist, m);
  }
}
