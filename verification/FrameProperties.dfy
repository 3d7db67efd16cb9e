/** What a solved frame shows and cannot show. */
module FrameProperties {
  import opened Basics
  import opened Vectors
  import opened Cholesky
  import opened Laplacian
  import opened Bfs
  import opened Cycles
  import opened Frame

  // ----- A consistent lie -----

  /** Every measurement a -> b moved by phi(b) - phi(a). */
  function Shift(obs: seq<Obs>, phi: Vec): (r: seq<Obs>)
    requires Bounded(obs, |phi|)
    ensures |r| == |obs|
    ensures forall i :: 0 <= i < |obs| ==> r[i] == Moved(obs[i], phi)
  {
    seq(|obs|, i requires 0 <= i < |obs| => Moved(obs[i], phi))
  }

  predicate Bounded(obs: seq<Obs>, n: nat) {
    forall i :: 0 <= i < |obs| ==> obs[i].a < n && obs[i].b < n
  }

  function Moved(o: Obs, phi: Vec): Obs
    requires o.a < |phi| && o.b < |phi|
  {
    o.(m := o.m + phi[o.b] - phi[o.a])
  }

  lemma ShiftJoins(obs: seq<Obs>, phi: Vec, u: nat, v: nat)
    requires Bounded(obs, |phi|)
    ensures Joined(Shift(obs, phi), u, v) <==> Joined(obs, u, v)
  {
    var obs' := Shift(obs, phi);
    if i :| 0 <= i < |obs| && ((obs[i].a == u && obs[i].b == v) || (obs[i].a == v && obs[i].b == u)) {
      assert obs'[i] == Moved(obs[i], phi);
    }
  }

  lemma ShiftConnects(obs: seq<Obs>, phi: Vec, r: nat, u: nat)
    requires Bounded(obs, |phi|)
    ensures Connected(Shift(obs, phi), r, u) <==> Connected(obs, r, u)
  {
    forall w: seq<nat>
      ensures Route(obs, r, u, w) <==> Route(Shift(obs, phi), r, u, w)
    {
      forall i | 0 < i < |w|
        ensures Joined(Shift(obs, phi), w[i - 1], w[i]) <==> Joined(obs, w[i - 1], w[i])
      {
        ShiftJoins(obs, phi, w[i - 1], w[i]);
      }
    }
  }

  lemma ShiftAppends(obs: seq<Obs>, phi: Vec, o: Obs)
    requires Bounded(obs, |phi|) && o.a < |phi| && o.b < |phi|
    ensures Bounded(obs + [o], |phi|) && Shift(obs + [o], phi) == Shift(obs, phi) + [Moved(o, phi)]
  {
  }

  lemma ProperAppends(obs: seq<Obs>, o: Obs)
    ensures Proper(obs + [o]) == if o.a != o.b then Proper(obs) + [o] else Proper(obs)
  {
    assert (obs + [o])[..|obs|] == obs;
  }

  lemma InsideAppends(obs: seq<Obs>, members: set<nat>, o: Obs)
    ensures Inside(obs + [o], members) == if o.a in members then Inside(obs, members) + [o] else Inside(obs, members)
  {
    assert (obs + [o])[..|obs|] == obs;
  }

  lemma {:induction false} ShiftProper(obs: seq<Obs>, phi: Vec)
    requires Bounded(obs, |phi|)
    ensures Bounded(Proper(obs), |phi|) && Proper(Shift(obs, phi)) == Shift(Proper(obs), phi)
    decreases |obs|
  {
    if obs != [] {
      var rest, o := obs[..|obs| - 1], obs[|obs| - 1];
      assert obs == rest + [o];
      ShiftProper(rest, phi);
      ShiftAppends(rest, phi, o);
      ProperAppends(rest, o);
      ProperAppends(Shift(rest, phi), Moved(o, phi));
      ShiftAppends(Proper(rest), phi, o);
    }
  }

  lemma {:induction false} ShiftInside(obs: seq<Obs>, phi: Vec, members: set<nat>)
    requires Bounded(obs, |phi|)
    ensures Bounded(Inside(obs, members), |phi|) && Inside(Shift(obs, phi), members) == Shift(Inside(obs, members), phi)
    decreases |obs|
  {
    if obs != [] {
      var rest, o := obs[..|obs| - 1], obs[|obs| - 1];
      assert obs == rest + [o];
      ShiftInside(rest, phi, members);
      ShiftAppends(rest, phi, o);
      InsideAppends(rest, members, o);
      InsideAppends(Shift(rest, phi), members, Moved(o, phi));
      ShiftAppends(Inside(rest, members), phi, o);
    }
  }

  lemma {:induction false} ShiftedCost(obs: seq<Obs>, phi: Vec, n: nat, t: nat, x: Vec, y: Vec)
    requires |phi| == n && |x| == n && |y| == n && Usable(obs, n) && Usable(Shift(obs, phi), n) && t <= |obs|
    requires forall o :: 0 <= o < |obs| ==> Diff(obs[o], y) == Diff(obs[o], x) + phi[obs[o].b] - phi[obs[o].a]
    ensures Cost(Shift(obs, phi), n, t, y) == Cost(obs, n, t, x)
  {
    if t > 0 {
      ShiftedCost(obs, phi, n, t - 1, x, y);
      assert Diff(Shift(obs, phi)[t - 1], y) == Diff(obs[t - 1], y);
    }
  }

  /** The least-squares solution follows the lie, up to the reference's share of it. */
  lemma LeastSquaresFollows(obs: seq<Obs>, phi: Vec, n: nat, order: seq<nat>, x: Vec, x': Vec)
    requires |phi| == n && |x| == n && |x'| == n && Usable(obs, n) && Usable(Shift(obs, phi), n)
    requires |order| > 0 && forall i :: 0 <= i < |order| ==> order[i] < n
    requires x[order[0]] == 0.0 && x'[order[0]] == 0.0
    requires LeastSquares(obs, n, order, x) && LeastSquares(Shift(obs, phi), n, order, x')
    ensures forall i :: i in order ==> x'[i] == x[i] + phi[i] - phi[order[0]]
  {
    var f := phi[order[0]];
    var y := seq(n, i requires 0 <= i < n => x[i] + phi[i] - f);
    var y' := seq(n, i requires 0 <= i < n => x'[i] - phi[i] + f);
    ShiftedCost(obs, phi, n, |obs|, x, y);
    ShiftedCost(obs, phi, n, |obs|, y', x');
  }

  lemma {:induction false} ShiftedPairWeight(obs: seq<Obs>, obs': seq<Obs>, w: Vec, w': Vec, t: nat, lo: nat, hi: nat)
    requires |w| == |w'| == |obs| == |obs'| && t <= |obs|
    requires forall o :: 0 <= o < |obs| ==> obs'[o].a == obs[o].a && obs'[o].b == obs[o].b && w'[o] == w[o]
    ensures PairWeight(obs', w', t, lo, hi) == PairWeight(obs, w, t, lo, hi)
  {
    if t > 0 { ShiftedPairWeight(obs, obs', w, w', t - 1, lo, hi); }
  }

  lemma {:induction false} PairSumAdds(obs: seq<Obs>, obs': seq<Obs>, c: Vec, c': Vec, g: Vec, t: nat, lo: nat, hi: nat)
    requires |c| == |c'| == |g| == |obs| == |obs'| && t <= |obs|
    requires forall o :: 0 <= o < |obs| ==> obs'[o].a == obs[o].a && obs'[o].b == obs[o].b && c'[o] == c[o] + g[o]
    ensures PairSum(obs', c', t, lo, hi) == PairSum(obs, c, t, lo, hi) + PairSum(obs, g, t, lo, hi)
  {
    if t > 0 { PairSumAdds(obs, obs', c, c', g, t - 1, lo, hi); }
  }

  /** If o measures lo -> hi, its gain g is d at its weight w. */
  ghost predicate Gains(o: Obs, g: real, w: real, lo: nat, hi: nat, d: real) {
    Joins(o, lo, hi) ==> Signed(o, g, lo, hi) == d * w
  }

  lemma {:induction false} PairSumScales(obs: seq<Obs>, g: Vec, w: Vec, t: nat, lo: nat, hi: nat, d: real, q: real,
                                         weight: real)
    requires |g| == |w| == |obs| && t <= |obs|
    requires forall o :: 0 <= o < |obs| ==> Gains(obs[o], g[o], w[o], lo, hi, d)
    requires q == PairSum(obs, g, t, lo, hi) && weight == PairWeight(obs, w, t, lo, hi)
    ensures q == d * weight
  {
    if t > 0 {
      var q0, weight0 := PairSum(obs, g, t - 1, lo, hi), PairWeight(obs, w, t - 1, lo, hi);
      PairSumScales(obs, g, w, t - 1, lo, hi, d, q0, weight0);
      assert Gains(obs[t - 1], g[t - 1], w[t - 1], lo, hi, d);
      if Joins(obs[t - 1], lo, hi) { Distribute(d, weight0, w[t - 1]); }
    }
  }

  lemma Distribute(d: real, x: real, y: real)
    ensures d * (x + y) == d * x + d * y
  {
  }

  lemma ShiftedCoefs(obs: seq<Obs>, phi: Vec, n: nat, o: nat, lo: nat, hi: nat, d: real, w: real, g: real)
    requires |phi| == n && Usable(obs, n) && Usable(Shift(obs, phi), n) && o < |obs| && lo < n && hi < n
    requires d == phi[hi] - phi[lo]
    requires w == WeightsOf(obs, n)[o] && g == LoadCoefs(Shift(obs, phi), n)[o] - LoadCoefs(obs, n)[o]
    ensures WeightsOf(Shift(obs, phi), n)[o] == w
    ensures Gains(obs[o], g, w, lo, hi, d)
  {
    assert Shift(obs, phi)[o] == Moved(obs[o], phi);
    var m, e := obs[o].m, phi[obs[o].b] - phi[obs[o].a];
    assert w * (m + e) == w * m + e * w;
    if Joins(obs[o], lo, hi) { SignedGain(obs[o], phi, lo, hi, d, w, g); }
  }

  /** So every merged hop moves by the lie's difference across it. */
  lemma ShiftedHop(obs: seq<Obs>, phi: Vec, n: nat, u: nat, v: nat)
    requires |phi| == n && Usable(obs, n) && Usable(Shift(obs, phi), n) && u < n && v < n && Joined(obs, u, v)
    ensures Hop(Shift(obs, phi), n, u, v) == Hop(obs, n, u, v) + phi[v] - phi[u]
  {
    assert Joined(obs, v, u);
    var (lo, hi) := Key(u, v);
    var obs' := Shift(obs, phi);
    var p, p' := PairSum(obs, LoadCoefs(obs, n), |obs|, lo, hi), PairSum(obs', LoadCoefs(obs', n), |obs|, lo, hi);
    var weight := PairWeight(obs, WeightsOf(obs, n), |obs|, lo, hi);
    var weight' := PairWeight(obs', WeightsOf(obs', n), |obs|, lo, hi);
    ShiftedOriented(obs, phi, n, lo, hi, phi[hi] - phi[lo], p, p', weight, weight');
  }

  lemma ShiftedOriented(obs: seq<Obs>, phi: Vec, n: nat, lo: nat, hi: nat, d: real, p: real, p': real, weight: real,
                        weight': real)
    requires |phi| == n && Usable(obs, n) && Usable(Shift(obs, phi), n) && lo < n && hi < n && Joined(obs, lo, hi)
    requires d == phi[hi] - phi[lo]
    requires p == PairSum(obs, LoadCoefs(obs, n), |obs|, lo, hi)
    requires p' == PairSum(Shift(obs, phi), LoadCoefs(Shift(obs, phi), n), |obs|, lo, hi)
    requires weight == PairWeight(obs, WeightsOf(obs, n), |obs|, lo, hi)
    requires weight' == PairWeight(Shift(obs, phi), WeightsOf(Shift(obs, phi), n), |obs|, lo, hi)
    ensures weight' == weight > 0.0 && p' / weight == p / weight + d
  {
    var obs', c, w := Shift(obs, phi), LoadCoefs(obs, n), WeightsOf(obs, n);
    var c', w' := LoadCoefs(obs', n), WeightsOf(obs', n);
    JoinedWeight(obs, n, lo, hi);
    var g := seq(|obs|, o requires 0 <= o < |obs| => c'[o] - c[o]);
    forall o | 0 <= o < |obs|
      ensures w'[o] == w[o] && Gains(obs[o], g[o], w[o], lo, hi, d)
    {
      ShiftedCoefs(obs, phi, n, o, lo, hi, d, w[o], g[o]);
    }
    ShiftedMean(obs, obs', c, c', w, w', g, lo, hi, d, p, p', weight, weight');
  }

  lemma SignedGain(o: Obs, phi: Vec, lo: nat, hi: nat, d: real, w: real, g: real)
    requires o.a < |phi| && o.b < |phi| && lo < |phi| && hi < |phi| && Joins(o, lo, hi)
    requires d == phi[hi] - phi[lo] && g == (phi[o.b] - phi[o.a]) * w
    ensures Signed(o, g, lo, hi) == d * w
  {
  }

  lemma ShiftedMean(obs: seq<Obs>, obs': seq<Obs>, c: Vec, c': Vec, w: Vec, w': Vec, g: Vec, lo: nat, hi: nat, d: real,
                    p: real, p': real, weight: real, weight': real)
    requires |c| == |c'| == |w| == |w'| == |g| == |obs| == |obs'|
    requires forall o :: 0 <= o < |obs| ==>
              obs'[o].a == obs[o].a && obs'[o].b == obs[o].b && w'[o] == w[o] && c'[o] == c[o] + g[o]
    requires forall o :: 0 <= o < |obs| ==> Gains(obs[o], g[o], w[o], lo, hi, d)
    requires p == PairSum(obs, c, |obs|, lo, hi) && p' == PairSum(obs', c', |obs|, lo, hi)
    requires weight == PairWeight(obs, w, |obs|, lo, hi) > 0.0 && weight' == PairWeight(obs', w', |obs|, lo, hi)
    ensures weight' == weight && p' / weight == p / weight + d
  {
    ShiftedPairWeight(obs, obs', w, w', |obs|, lo, hi);
    PairSumAdds(obs, obs', c, c', g, |obs|, lo, hi);
    var q := PairSum(obs, g, |obs|, lo, hi);
    PairSumScales(obs, g, w, |obs|, lo, hi, d, q, weight);
    DivideShare(p', p, q, d, weight);
  }

  lemma DivideShare(p: real, s: real, q: real, d: real, w: real)
    requires w > 0.0 && p == s + q && q == d * w
    ensures p / w == s / w + d
  {
    assert p / w == s / w + q / w;
  }

  lemma {:induction false} ShiftedWalk(s: Span, obs: seq<Obs>, phi: Vec, w: seq<nat>, k: nat)
    requires |phi| == s.n && Usable(obs, s.n) && Usable(Shift(obs, phi), s.n) && k < |w|
    requires forall i :: 0 <= i < |w| ==> w[i] < s.n
    requires forall i :: 0 < i < |w| ==> Joined(obs, w[i - 1], w[i])
    ensures WalkSum(Shift(obs, phi), s.n, w, k) == WalkSum(obs, s.n, w, k) + phi[w[k]] - phi[w[0]]
  {
    if k > 0 {
      ShiftedWalk(s, obs, phi, w, k - 1);
      ShiftedHop(obs, phi, s.n, w[k - 1], w[k]);
    }
  }

  lemma ShiftedClosedWalk(s: Span, obs: seq<Obs>, phi: Vec, w: seq<nat>)
    requires |phi| == s.n && Usable(obs, s.n) && Usable(Shift(obs, phi), s.n) && ClosedWalk(s, obs, w)
    requires forall i :: 0 <= i < |s.order| ==> s.order[i] < s.n
    ensures ClosedSum(Shift(obs, phi), s.n, w) == ClosedSum(obs, s.n, w)
  {
    assert forall i :: 0 <= i < |w| ==> w[i] in s.order;
    ShiftedWalk(s, obs, phi, w, |w| - 1);
    ShiftedHop(obs, phi, s.n, w[|w| - 1], w[0]);
  }

  lemma SameComponent(order: seq<nat>, order': seq<nat>, r: nat, obs: seq<Obs>, phi: Vec)
    requires Bounded(obs, |phi|)
    requires forall u :: u in order <==> Connected(Proper(obs), r, u)
    requires forall u :: u in order' <==> Connected(Proper(Shift(obs, phi)), r, u)
    ensures forall u :: u in order' <==> u in order
    ensures var inside := Inside(Proper(obs), set i: nat | i in order);
            && Bounded(inside, |phi|)
            && Inside(Proper(Shift(obs, phi)), set i: nat | i in order') == Shift(inside, phi)
  {
    ShiftProper(obs, phi);
    forall u: nat
      ensures u in order' <==> u in order
    {
      ShiftConnects(Proper(obs), phi, r, u);
    }
    assert (set i: nat | i in order) == set i: nat | i in order';
    ShiftInside(Proper(obs), phi, set i: nat | i in order);
  }

  lemma SameResiduals(obs: seq<Obs>, phi: Vec, n: nat, order: seq<nat>, x: Vec, x': Vec, res: Vec, res': Vec)
    requires |phi| == n && |x| == n && |x'| == n && Usable(obs, n) && Within(obs, order) && |order| > 0 && order[0] < n
    requires forall i :: i in order ==> i < n && x'[i] == x[i] + phi[i] - phi[order[0]]
    requires ResidualsOf(res, obs, x) && ResidualsOf(res', Shift(obs, phi), x')
    ensures res' == res
  {
    forall i | 0 <= i < |obs|
      ensures res'[i] == res[i]
    {
      assert Shift(obs, phi)[i] == Moved(obs[i], phi);
      assert obs[i].a in order && obs[i].b in order;
    }
  }

  /**
   * A lie told consistently is invisible: the frame's residuals and every closed walk's holonomy,
   * the listed cycles included, are what they were, and each node is moved by its own lie less the reference's.
   */
  lemma ConsistentLieIsInvisible(f: NetworkFrame, f': NetworkFrame, n: nat, r: nat, obs: seq<Obs>, phi: Vec)
    requires |phi| == n && Usable(obs, n) && Solved(f, n, r, obs) && Solved(f', n, r, Shift(obs, phi))
    ensures Usable(f.inside, n) && Usable(f'.inside, n)
    ensures forall i :: i in f.span.order ==> i < n && f'.value[i] == f.value[i] + phi[i] - phi[r]
    ensures f'.residuals == f.residuals
    ensures forall w :: ClosedWalk(f.span, f.inside, w) ==> ClosedSum(f'.inside, n, w) == ClosedSum(f.inside, n, w)
  {
    SolvedFacts(f, n, r, obs);
    SolvedFacts(f', n, r, Shift(obs, phi));
    SameComponent(f.span.order, f'.span.order, r, obs, phi);
    SameMinimum(f'.inside, n, f'.span.order, f.span.order, f'.value);
    LeastSquaresFollows(f.inside, phi, n, f.span.order, f.value, f'.value);
    SameResiduals(f.inside, phi, n, f.span.order, f.value, f'.value, f.residuals, f'.residuals);
    forall w | ClosedWalk(f.span, f.inside, w)
      ensures ClosedSum(f'.inside, n, w) == ClosedSum(f.inside, n, w)
    {
      ShiftedClosedWalk(f.span, f.inside, phi, w);
    }
  }

  lemma SolvedFacts(f: NetworkFrame, n: nat, r: nat, obs: seq<Obs>)
    requires Solved(f, n, r, obs)
    ensures f.span.n == n && |f.value| == n && f.value[r] == 0.0 && Usable(f.inside, n)
    ensures Within(f.inside, f.span.order)
    ensures |f.span.order| > 0 && f.span.order[0] == r && forall i :: 0 <= i < |f.span.order| ==> f.span.order[i] < n
    ensures f.inside == Inside(Proper(obs), set i: nat | i in f.span.order)
    ensures forall u :: u in f.span.order <==> Connected(Proper(obs), r, u)
    ensures LeastSquares(f.inside, n, f.span.order, f.value) && ResidualsOf(f.residuals, f.inside, f.value)
  {
  }

  lemma SameMinimum(obs: seq<Obs>, n: nat, order: seq<nat>, order': seq<nat>, x: Vec)
    requires Usable(obs, n) && |x| == n && |order| > 0 && |order'| > 0 && order[0] == order'[0]
    requires (forall i :: 0 <= i < |order| ==> order[i] < n) && (forall i :: 0 <= i < |order'| ==> order'[i] < n)
    requires forall u :: u in order <==> u in order'
    requires LeastSquares(obs, n, order, x)
    ensures LeastSquares(obs, n, order', x)
  {
  }

  /** The cycles of a solved frame miss no inconsistency. */
  lemma FrameCyclesMissNothing(f: NetworkFrame, n: nat, r: nat, obs: seq<Obs>)
    requires Solved(f, n, r, obs)
    ensures Usable(f.inside, f.span.n)
    ensures Quiet(f.cycles) <==> exists x: nat -> real :: Consistent(f.span, f.inside, x)
    ensures Quiet(f.cycles) <==> WalksVanish(f.span, f.inside)
  {
    var keys: seq<(nat, nat)> :| FundamentalCycles(f, keys);
    CyclesMissNothing(f.span, f.inside, f.pairs, f.cycles, keys);
  }

  // ----- Quiet cycles and exact solutions -----

  /** What the observations between i and the nodes below m add up to at i. */
  ghost function Around(obs: seq<Obs>, c: Vec, t: nat, i: nat, m: nat): real
    requires t <= |obs| && t <= |c|
  {
    if m == 0 then 0.0 else Around(obs, c, t, i, m - 1) + PairSum(obs, c, t, m - 1, i)
  }

  lemma {:induction false} AroundStep(obs: seq<Obs>, c: Vec, t: nat, i: nat, m: nat)
    requires t < |obs| && t < |c| && obs[t].a != obs[t].b
    ensures Around(obs, c, t + 1, i, m) == Around(obs, c, t, i, m)
              + (if obs[t].b == i && obs[t].a < m then c[t] else if obs[t].a == i && obs[t].b < m then -c[t] else 0.0)
  {
    if m > 0 { AroundStep(obs, c, t, i, m - 1); }
  }

  lemma {:induction false} AroundNothing(obs: seq<Obs>, c: Vec, i: nat, m: nat)
    ensures Around(obs, c, 0, i, m) == 0.0
  {
    if m > 0 { AroundNothing(obs, c, i, m - 1); }
  }

  /** The balance at a node, collected pair by pair. */
  lemma {:induction false} SpreadByPairs(obs: seq<Obs>, c: Vec, t: nat, i: nat, n: nat)
    requires t <= |obs| && t <= |c| && Bounded(obs, n) && NoLoops(obs)
    ensures Spread(obs, c, t, i) == Around(obs, c, t, i, n)
  {
    if t == 0 {
      AroundNothing(obs, c, i, n);
    } else {
      SpreadByPairs(obs, c, t - 1, i, n);
      AroundStep(obs, c, t - 1, i, n);
      SpreadPlus(obs, c, t, i, Around(obs, c, t - 1, i, n));
    }
  }

  lemma SpreadPlus(obs: seq<Obs>, c: Vec, t: nat, i: nat, before: real)
    requires 0 < t <= |obs| && t <= |c| && obs[t - 1].a != obs[t - 1].b && before == Spread(obs, c, t - 1, i)
    ensures Spread(obs, c, t, i) == before
              + (if obs[t - 1].b == i then c[t - 1] else if obs[t - 1].a == i then -c[t - 1] else 0.0)
  {
    TimesInc(c[t - 1], obs[t - 1], i);
  }

  lemma TimesInc(c: real, o: Obs, i: nat)
    requires o.a != o.b
    ensures c * Inc(o, i) == if o.b == i then c else if o.a == i then -c else 0.0
  {
  }

  /** y reproduces the merged measurement of a pair: then the pair's residuals cancel. */
  lemma PairBalances(obs: seq<Obs>, n: nat, y: Vec, v: nat, i: nat)
    requires Usable(obs, n) && |y| == n && v < n && i < n && v != i
    requires Joined(obs, v, i) ==> Hop(obs, n, v, i) == y[i] - y[v]
    ensures PairSum(obs, ResidualCoefs(obs, n, y), |obs|, v, i) == 0.0
  {
    var r := ResidualCoefs(obs, n, y);
    assert obs[..|obs|] == obs;
    if !Joined(obs, v, i) {
      UnjoinedIsZero(obs, r, r, |obs|, v, i);
    } else {
      var c, g, w := LoadCoefs(obs, n), FlowCoefs(obs, n, y), WeightsOf(obs, n);
      var d := y[i] - y[v];
      forall o | 0 <= o < |obs|
        ensures c[o] == r[o] + g[o] && Gains(obs[o], g[o], w[o], v, i, d)
      {
        ResidualSplits(obs, n, y, o, v, i, d, c[o], r[o], g[o], w[o]);
      }
      PairSumAdds(obs, obs, r, c, g, |obs|, v, i);
      var p, q, weight := PairSum(obs, c, |obs|, v, i), PairSum(obs, g, |obs|, v, i), PairWeight(obs, w, |obs|, v, i);
      PairSumScales(obs, g, w, |obs|, v, i, d, q, weight);
      HopIsMean(obs, n, v, i, d, p, weight);
    }
  }

  lemma ResidualSplits(obs: seq<Obs>, n: nat, y: Vec, o: nat, v: nat, i: nat, d: real, c: real, r: real, g: real,
                       w: real)
    requires Usable(obs, n) && |y| == n && o < |obs| && v < n && i < n && d == y[i] - y[v]
    requires c == LoadCoefs(obs, n)[o] && r == ResidualCoefs(obs, n, y)[o] && g == FlowCoefs(obs, n, y)[o]
    requires w == WeightsOf(obs, n)[o]
    ensures c == r + g && Gains(obs[o], g, w, v, i, d)
  {
    var m, e := obs[o].m, Diff(obs[o], y);
    assert w * (m - e) == w * m - w * e;
    if Joins(obs[o], v, i) { SignedGain(obs[o], y, v, i, d, w, g); }
  }

  lemma HopIsMean(obs: seq<Obs>, n: nat, v: nat, i: nat, d: real, p: real, weight: real)
    requires Usable(obs, n) && v != i && Joined(obs, v, i) && Hop(obs, n, v, i) == d
    requires p == PairSum(obs, LoadCoefs(obs, n), |obs|, v, i)
    requires weight == PairWeight(obs, WeightsOf(obs, n), |obs|, v, i)
    ensures p == d * weight
  {
    JoinedWeight(obs, n, v, i);
    if v < i {
      Quotient(p, weight, d);
    } else {
      PairReversed(obs, LoadCoefs(obs, n), WeightsOf(obs, n), |obs|, v, i);
      Quotient(-p, weight, -d);
    }
  }

  lemma Quotient(p: real, w: real, d: real)
    requires w > 0.0 && p / w == d
    ensures p == d * w
  {
  }

  lemma {:induction false} PairReversed(obs: seq<Obs>, c: Vec, w: Vec, t: nat, u: nat, v: nat)
    requires t <= |obs| && t <= |c| && t <= |w| && u != v
    ensures PairSum(obs, c, t, u, v) == -PairSum(obs, c, t, v, u)
    ensures PairWeight(obs, w, t, u, v) == PairWeight(obs, w, t, v, u)
  {
    if t > 0 { PairReversed(obs, c, w, t - 1, u, v); }
  }

  /** An assignment explaining every merged pair leaves every node balanced. */
  lemma ExactIsBalanced(s: Span, obs: seq<Obs>, y: Vec, i: nat)
    requires Usable(obs, s.n) && Within(obs, s.order) && NoLoops(obs) && |y| == s.n && i < s.n
    requires forall v :: v in s.order && Joined(obs, v, i) ==> v < s.n && Hop(obs, s.n, v, i) == y[i] - y[v]
    ensures Spread(obs, ResidualCoefs(obs, s.n, y), |obs|, i) == 0.0
  {
    SpreadByPairs(obs, ResidualCoefs(obs, s.n, y), |obs|, i, s.n);
    forall v | 0 <= v < s.n && Joined(obs, v, i)
      ensures v != i && Hop(obs, s.n, v, i) == y[i] - y[v]
    {
      var o :| 0 <= o < |obs| && ((obs[o].a == v && obs[o].b == i) || (obs[o].a == i && obs[o].b == v));
      assert v in s.order;
    }
    AroundBalanced(obs, s.n, y, i, s.n);
  }

  lemma {:induction false} AroundBalanced(obs: seq<Obs>, n: nat, y: Vec, i: nat, m: nat)
    requires Usable(obs, n) && |y| == n && i < n && m <= n
    requires forall v :: 0 <= v < n && Joined(obs, v, i) ==> v != i && Hop(obs, n, v, i) == y[i] - y[v]
    ensures Around(obs, ResidualCoefs(obs, n, y), |obs|, i, m) == 0.0
  {
    if m > 0 {
      AroundBalanced(obs, n, y, i, m - 1);
      if m - 1 == i {
        assert !Joined(obs, i, i) && obs[..|obs|] == obs;
        UnjoinedIsZero(obs, ResidualCoefs(obs, n, y), ResidualCoefs(obs, n, y), |obs|, i, i);
      } else {
        PairBalances(obs, n, y, m - 1, i);
      }
    }
  }

  /** The solved values reproduce every merged pair. */
  ghost predicate Exact(s: Span, obs: seq<Obs>, x: Vec)
    requires Usable(obs, s.n)
  {
    forall u, v :: u in s.order && v in s.order && Joined(obs, u, v) ==> Reproduces(x, obs, s.n, u, v)
  }

  ghost predicate Reproduces(x: Vec, obs: seq<Obs>, n: nat, u: nat, v: nat)
    requires Usable(obs, n)
  {
    u < |x| && v < |x| && Hop(obs, n, u, v) == x[v] - x[u]
  }

  lemma ConsistentIsSolved(s: Span, obs: seq<Obs>, x: nat -> real, value: Vec)
    requires Measures(s, obs) && Linked(obs, s.order) && Consistent(s, obs, x) && |value| == s.n && value[s.r] == 0.0
    requires LeastSquares(obs, s.n, s.order, value)
    ensures Exact(s, obs, value)
  {
    var y := seq(s.n, i requires 0 <= i < s.n => x(i) - x(s.r));
    var un := s.order[1..];
    forall p | 0 <= p < |un|
      ensures Spread(obs, ResidualCoefs(obs, s.n, y), |obs|, un[p]) == 0.0
    {
      assert un[p] == s.order[p + 1] && un[p] in s.order;
      forall v | v in s.order && Joined(obs, v, un[p])
        ensures v < s.n && Hop(obs, s.n, v, un[p]) == y[un[p]] - y[v]
      {
        assert Explains(x, obs, s.n, v, un[p]);
      }
      ExactIsBalanced(s, obs, y, un[p]);
    }
    TailIsUnknowns(s.order, s.n);
    StationaryIsLeastSquares(obs, s.n, un, s.order, y);
    OneMinimum(obs, s.n, s.order, value, y);
    forall u, v | u in s.order && v in s.order && Joined(obs, u, v)
      ensures Reproduces(value, obs, s.n, u, v)
    {
      assert Explains(x, obs, s.n, u, v);
    }
  }

  lemma TailIsUnknowns(order: seq<nat>, n: nat)
    requires |order| > 0 && Distinct(order) && forall i :: 0 <= i < |order| ==> order[i] < n
    ensures Unknowns(order[1..], n, order)
  {
    assert order == [order[0]] + order[1..];
    assert order[0] !in order[1..];
  }

  lemma OneMinimum(obs: seq<Obs>, n: nat, order: seq<nat>, x: Vec, y: Vec)
    requires Usable(obs, n) && |x| == n && |y| == n && |order| > 0 && forall i :: 0 <= i < |order| ==> order[i] < n
    requires LeastSquares(obs, n, order, x) && LeastSquares(obs, n, order, y) && x[order[0]] == 0.0
    requires y[order[0]] == 0.0
    ensures forall i :: i in order ==> x[i] == y[i]
  {
  }

  /** A solved frame's cycles are all quiet exactly when its solution reproduces every merged pair. */
  lemma QuietIffExact(f: NetworkFrame, n: nat, r: nat, obs: seq<Obs>)
    requires Solved(f, n, r, obs)
    ensures Usable(f.inside, f.span.n)
    ensures Quiet(f.cycles) <==> Exact(f.span, f.inside, f.value)
  {
    FrameCyclesMissNothing(f, n, r, obs);
    if Quiet(f.cycles) {
      var x: nat -> real :| Consistent(f.span, f.inside, x);
      OrderIsLinked(f.span, f.inside);
      ConsistentIsSolved(f.span, f.inside, x, f.value);
    } else if Exact(f.span, f.inside, f.value) {
      ExactIsConsistent(f.span, f.inside, f.value);
    }
  }

  lemma ExactIsConsistent(s: Span, obs: seq<Obs>, value: Vec)
    requires Usable(obs, s.n) && Exact(s, obs, value)
    ensures exists x: nat -> real :: Consistent(s, obs, x)
  {
    var x := (i: nat) => if i < |value| then value[i] else 0.0;
    forall u, v | u in s.order && v in s.order && Joined(obs, u, v)
      ensures Explains(x, obs, s.n, u, v)
    {
      assert Reproduces(value, obs, s.n, u, v);
    }
    assert Consistent(s, obs, x);
  }
}
