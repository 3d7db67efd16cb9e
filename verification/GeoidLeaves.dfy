/** What a region of the finest layer holds: exactly the beacons put there. */
module GeoidLeaves {
  import opened Basics
  import opened Partition
  import opened Geoid
  import R = Robust

  /** The first k beacons that were put in region i, in order. */
  ghost function PutIn(puts: seq<nat>, i: nat, k: nat): (g: seq<nat>)
    requires k <= |puts|
    ensures forall j :: 0 <= j < |g| ==> g[j] < k
  {
    if k == 0 then [] else PutIn(puts, i, k - 1) + if puts[k - 1] == i then [k - 1] else []
  }

  /** PutIn lists exactly those beacons, in order. */
  lemma {:induction false} PutInIs(puts: seq<nat>, i: nat, k: nat, j: nat)
    requires k <= |puts|
    ensures j in PutIn(puts, i, k) <==> j < k && puts[j] == i
    ensures Rising(PutIn(puts, i, k))
  {
    if k > 0 { PutInIs(puts, i, k - 1, j); }
  }

  ghost function OffsetsOf(beacons: seq<Beacon>, g: seq<nat>): (s: seq<real>)
    requires Within(g, |beacons|)
    ensures |s| == |g| && forall j :: 0 <= j < |g| ==> s[j] == beacons[g[j]].offset
  {
    seq(|g|, j requires 0 <= j < |g| => beacons[g[j]].offset)
  }

  /** The region in progress holds the beacons g: their number, the sums of their positions, and their clock offsets. */
  ghost predicate HoldsOnly(a: Accum, beacons: seq<Beacon>, g: seq<nat>)
    requires Placed(beacons)
  {
    && Within(g, |beacons|) && |a.sum| == DIM && a.count == |g| && a.offsets == OffsetsOf(beacons, g)
    && forall d :: 0 <= d < DIM ==> a.sum[d] == Picked(Positions(beacons, d), g)
  }

  lemma OneJoins(a: Accum, b: Beacon, beacons: seq<Beacon>, g: seq<nat>, k: nat)
    requires Placed(beacons) && k < |beacons| && b == beacons[k] && HoldsOnly(a, beacons, g)
    ensures HoldsOnly(Accum(Plus(a.sum, b.position), a.count + 1, a.offsets + [b.offset]), beacons, g + [k])
  {
    var h := g + [k];
    assert h[..|g|] == g;
    assert OffsetsOf(beacons, h) == OffsetsOf(beacons, g) + [b.offset];
  }

  lemma OneStarts(b: Beacon, beacons: seq<Beacon>, k: nat)
    requires Placed(beacons) && k < |beacons| && b == beacons[k]
    ensures HoldsOnly(Accum(b.position, 1, [b.offset]), beacons, [k])
  {
    var h := [k];
    assert h[..0] == [];
    forall d | 0 <= d < DIM ensures b.position[d] == Picked(Positions(beacons, d), h) {
      assert Picked(Positions(beacons, d), h) == Picked(Positions(beacons, d), h[..0]) + Positions(beacons, d)[k];
    }
  }

  /** Region i holds exactly the beacons g, and there is no region i without a beacon. */
  ghost predicate HoldsPut(accs: seq<Accum>, beacons: seq<Beacon>, i: nat, g: seq<nat>)
    requires Placed(beacons)
  {
    if i < |accs| then HoldsOnly(accs[i], beacons, g) && g != [] else g == []
  }

  /** At every point of the sweep each region in progress holds exactly the beacons put there. */
  lemma {:induction false} TrailHolds(trail: seq<seq<Accum>>, puts: seq<nat>, beacons: seq<Beacon>, threshold: real,
                                      dist: Distance, k: nat, i: nat)
    requires Placed(beacons) && Trail(trail, puts, beacons, threshold, dist) && k <= |puts|
    ensures HoldsPut(trail[k], beacons, i, PutIn(puts, i, k))
  {
    if k > 0 {
      TrailHolds(trail, puts, beacons, threshold, dist, k - 1, i);
      assert PutNext(trail[k - 1], trail[k], beacons[k - 1], threshold, dist, puts[k - 1]);
      OnePut(trail[k - 1], trail[k], puts[k - 1], beacons, threshold, dist, k - 1, i, PutIn(puts, i, k - 1));
    }
  }

  lemma OnePut(before: seq<Accum>, after: seq<Accum>, at: nat, beacons: seq<Beacon>, threshold: real, dist: Distance,
               k: nat, i: nat, g: seq<nat>)
    requires Placed(beacons) && k < |beacons| && PutNext(before, after, beacons[k], threshold, dist, at)
    requires HoldsPut(before, beacons, i, g)
    ensures HoldsPut(after, beacons, i, g + if at == i then [k] else [])
  {
    if i < |before| {
      OneOn(before, after, at, beacons, threshold, dist, k, i, g);
    } else if i < |after| {
      OneNew(before, after, at, beacons, threshold, dist, k, i);
      assert g + [k] == [k];
    }
  }

  /** A region started by its first beacon. */
  lemma OneNew(before: seq<Accum>, after: seq<Accum>, at: nat, beacons: seq<Beacon>, threshold: real, dist: Distance,
               k: nat, i: nat)
    requires Placed(beacons) && k < |beacons| && PutNext(before, after, beacons[k], threshold, dist, at)
    requires |before| <= i < |after|
    ensures at == i && HoldsOnly(after[i], beacons, [k])
  {
    OneStarts(beacons[k], beacons, k);
  }

  /** A region in progress goes on: with one more beacon, or as it was. */
  lemma OneOn(before: seq<Accum>, after: seq<Accum>, at: nat, beacons: seq<Beacon>, threshold: real, dist: Distance,
              k: nat, i: nat, g: seq<nat>)
    requires Placed(beacons) && k < |beacons| && PutNext(before, after, beacons[k], threshold, dist, at)
    requires i < |before| && HoldsOnly(before[i], beacons, g)
    ensures i < |after| && HoldsOnly(after[i], beacons, g + if at == i then [k] else [])
  {
    JoinedAt(before, beacons[k], at, i);
    if i == at { OneJoins(before[i], beacons[k], beacons, g, k); } else { assert g + [] == g; }
  }

  lemma JoinedAt(before: seq<Accum>, b: Beacon, at: nat, i: nat)
    requires Gathered(before) && |b.position| == DIM && at <= |before| && i < |before|
    ensures Joined(before, b, at)[i]
         == if i != at then before[i]
            else Accum(Plus(before[i].sum, b.position), before[i].count + 1, before[i].offsets + [b.offset])
  {
  }

  // ----- The finished region -----

  /** The region of the beacons g: at their mean position, with the mean absolute deviation of their clock offsets. */
  ghost predicate RegionOf(r: Region, beacons: seq<Beacon>, g: seq<nat>, threshold: real)
    requires Placed(beacons)
  {
    && Within(g, |beacons|) && |r.centroid| == DIM && r.members == |g| && 2.0 * r.radius == threshold
    && (forall d :: 0 <= d < DIM ==> Balanced(r.centroid[d], r.members, Picked(Positions(beacons, d), g)))
    && (forall mean :: Balanced(mean, |g|, Total(OffsetsOf(beacons, g))) ==>
        Balanced(r.residual, |g|, Total(Gaps(beacons, g, mean))))
  }

  /** How far each of the clock offsets is from x. */
  ghost function Gaps(beacons: seq<Beacon>, g: seq<nat>, x: real): (s: seq<real>)
    requires Within(g, |beacons|)
    ensures |s| == |g| && forall j :: 0 <= j < |g| ==> s[j] == AbsReal(beacons[g[j]].offset - x)
  {
    seq(|g|, j requires 0 <= j < |g| => AbsReal(beacons[g[j]].offset - x))
  }

  lemma LeafIsRegion(a: Accum, beacons: seq<Beacon>, g: seq<nat>, threshold: real)
    requires Placed(beacons) && HoldsOnly(a, beacons, g) && g != []
    ensures RegionOf(LeafRegion(a, threshold), beacons, g, threshold)
  {
    var r := LeafRegion(a, threshold);
    forall d | 0 <= d < DIM ensures Balanced(r.centroid[d], r.members, Picked(Positions(beacons, d), g)) {
      Undivide(a.sum[d], a.count);
    }
    forall mean | Balanced(mean, |g|, Total(OffsetsOf(beacons, g)))
      ensures Balanced(r.residual, |g|, Total(Gaps(beacons, g, mean)))
    {
      ResidualIs(a.offsets, beacons, g, mean);
    }
  }

  lemma ResidualIs(offsets: seq<real>, beacons: seq<Beacon>, g: seq<nat>, mean: real)
    requires Within(g, |beacons|) && g != [] && offsets == OffsetsOf(beacons, g)
    requires Balanced(mean, |g|, Total(offsets))
    ensures Balanced(OffsetSpread(offsets), |g|, Total(Gaps(beacons, g, mean)))
  {
    if |g| == 1 { LoneResidual(offsets, beacons, g, mean); } else { ManyResidual(offsets, beacons, g, mean); }
  }

  lemma LoneResidual(offsets: seq<real>, beacons: seq<Beacon>, g: seq<nat>, mean: real)
    requires Within(g, |beacons|) && |g| == 1 && offsets == OffsetsOf(beacons, g)
    requires Balanced(mean, |g|, Total(offsets))
    ensures Balanced(OffsetSpread(offsets), |g|, Total(Gaps(beacons, g, mean)))
  {
    var gaps := Gaps(beacons, g, mean);
    assert offsets[..0] == [] && gaps[..0] == [];
    assert Total(offsets) == Total(offsets[..0]) + offsets[0];
    assert Total(gaps) == Total(gaps[..0]) + gaps[0];
  }

  lemma ManyResidual(offsets: seq<real>, beacons: seq<Beacon>, g: seq<nat>, mean: real)
    requires Within(g, |beacons|) && |g| > 1 && offsets == OffsetsOf(beacons, g)
    requires Balanced(mean, |g|, Total(offsets))
    ensures Balanced(OffsetSpread(offsets), |g|, Total(Gaps(beacons, g, mean)))
  {
    MeanIs(mean, |g|, Total(offsets));
    GapsAre(offsets, beacons, g, mean);
    Undivide(Total(Gaps(beacons, g, mean)), |g|);
  }

  lemma GapsAre(offsets: seq<real>, beacons: seq<Beacon>, g: seq<nat>, mean: real)
    requires Within(g, |beacons|) && offsets == OffsetsOf(beacons, g)
    ensures R.Deviations(offsets, mean) == Gaps(beacons, g, mean)
  {
    forall j | 0 <= j < |g| ensures R.Deviations(offsets, mean)[j] == Gaps(beacons, g, mean)[j] {
      DeviationAt(offsets, mean, j);
    }
  }

  lemma {:induction false} DeviationAt(s: seq<real>, m: real, j: nat)
    requires j < |s|
    ensures R.Deviations(s, m)[j] == AbsReal(s[j] - m)
  {
    if j < |s| - 1 { DeviationAt(s[..|s| - 1], m, j); }
  }

  lemma MeanIs(mean: real, n: nat, sum: real)
    requires n > 0 && Balanced(mean, n, sum)
    ensures mean == sum / n as real
  {
  }

  /** So every region of the finest layer is the region of the beacons that were put there. */
  lemma LeavesAreRegions(trail: seq<seq<Accum>>, puts: seq<nat>, beacons: seq<Beacon>, threshold: real, dist: Distance,
                         i: nat)
    requires Placed(beacons) && Trail(trail, puts, beacons, threshold, dist) && |puts| == |beacons|
    requires Gathered(trail[|beacons|]) && i < |trail[|beacons|]|
    ensures RegionOf(LeafRegion(trail[|beacons|][i], threshold), beacons, PutIn(puts, i, |beacons|), threshold)
    ensures forall j: nat :: j in PutIn(puts, i, |beacons|) <==> j < |beacons| && puts[j] == i
  {
    TrailHolds(trail, puts, beacons, threshold, dist, |beacons|, i);
    LeafIsRegion(trail[|beacons|][i], beacons, PutIn(puts, i, |beacons|), threshold);
    forall j: nat ensures j in PutIn(puts, i, |beacons|) <==> j < |beacons| && puts[j] == i {
      PutInIs(puts, i, |beacons|, j);
    }
  }
}
