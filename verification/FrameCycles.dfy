/**
 * What new readings of the same edges change of a frame: not its tree, and its cycles unless they are a consistent
 * lie.
 */
module FrameCycles {
  import opened Basics
  import opened Vectors
  import opened Cholesky
  import opened Laplacian
  import opened Bfs
  import opened Cycles
  import opened Frame
  import opened FrameProperties

  // ----- New readings of the same edges -----

  ghost predicate Reread(obs: seq<Obs>, obs': seq<Obs>) {
    |obs'| == |obs| && forall i :: 0 <= i < |obs| ==> SameEdge(obs[i], obs'[i])
  }

  predicate SameEdge(o: Obs, o': Obs) {
    o'.a == o.a && o'.b == o.b && o'.sigma == o.sigma
  }

  lemma RereadJoins(obs: seq<Obs>, obs': seq<Obs>, u: nat, v: nat)
    requires Reread(obs, obs')
    ensures Joined(obs', u, v) <==> Joined(obs, u, v)
  {
    if i :| 0 <= i < |obs| && ((obs[i].a == u && obs[i].b == v) || (obs[i].a == v && obs[i].b == u)) {
      assert SameEdge(obs[i], obs'[i]);
    }
    if i :| 0 <= i < |obs'| && ((obs'[i].a == u && obs'[i].b == v) || (obs'[i].a == v && obs'[i].b == u)) {
      assert SameEdge(obs[i], obs'[i]);
    }
  }

  lemma RereadAppends(obs: seq<Obs>, obs': seq<Obs>, o: Obs, o': Obs)
    requires Reread(obs, obs') && SameEdge(o, o')
    ensures Reread(obs + [o], obs' + [o'])
  {
  }

  lemma {:induction false} RereadProper(obs: seq<Obs>, obs': seq<Obs>)
    requires Reread(obs, obs')
    ensures Reread(Proper(obs), Proper(obs'))
    decreases |obs|
  {
    if obs != [] {
      var n := |obs| - 1;
      assert SameEdge(obs[n], obs'[n]);
      assert obs == obs[..n] + [obs[n]] && obs' == obs'[..n] + [obs'[n]];
      RereadProper(obs[..n], obs'[..n]);
      ProperAppends(obs[..n], obs[n]);
      ProperAppends(obs'[..n], obs'[n]);
      RereadAppends(Proper(obs[..n]), Proper(obs'[..n]), obs[n], obs'[n]);
    }
  }

  lemma {:induction false} RereadInside(obs: seq<Obs>, obs': seq<Obs>, members: set<nat>)
    requires Reread(obs, obs')
    ensures Reread(Inside(obs, members), Inside(obs', members))
    decreases |obs|
  {
    if obs != [] {
      var n := |obs| - 1;
      assert SameEdge(obs[n], obs'[n]);
      assert obs == obs[..n] + [obs[n]] && obs' == obs'[..n] + [obs'[n]];
      RereadInside(obs[..n], obs'[..n], members);
      InsideAppends(obs[..n], members, obs[n]);
      InsideAppends(obs'[..n], members, obs'[n]);
      RereadAppends(Inside(obs[..n], members), Inside(obs'[..n], members), obs[n], obs'[n]);
    }
  }

  lemma RereadUsable(obs: seq<Obs>, obs': seq<Obs>, n: nat)
    requires Reread(obs, obs') && Usable(obs, n)
    ensures Usable(obs', n) && WeightsOf(obs', n) == WeightsOf(obs, n)
  {
    forall o | 0 <= o < |obs|
      ensures obs'[o].sigma > 0.0 && obs'[o].a < n && obs'[o].b < n && obs'[o].Weight() == obs[o].Weight()
    {
      assert SameEdge(obs[o], obs'[o]);
    }
  }

  lemma RereadMeasures(s: Span, obs: seq<Obs>, obs': seq<Obs>)
    requires Measures(s, obs) && Reread(obs, obs')
    ensures Measures(s, obs')
  {
    RereadUsable(obs, obs', s.n);
    forall o | 0 <= o < |obs'|
      ensures obs'[o].a in s.order && obs'[o].b in s.order && obs'[o].a != obs'[o].b
    {
      assert SameEdge(obs[o], obs'[o]) && obs[o].a in s.order && obs[o].b in s.order;
    }
    forall u, v | u in s.order && 0 <= v < s.n
      ensures v in s.adj[u] <==> Joined(obs', u, v)
    {
      RereadJoins(obs, obs', u, v);
    }
  }

  lemma ShiftRereads(obs: seq<Obs>, phi: Vec)
    requires Bounded(obs, |phi|)
    ensures Reread(obs, Shift(obs, phi))
  {
    forall i | 0 <= i < |obs|
      ensures SameEdge(obs[i], Shift(obs, phi)[i])
    {
      assert Shift(obs, phi)[i] == Moved(obs[i], phi);
    }
  }

  // ----- The tree -----

  lemma SameGraph(adj: Adjacency, adj': Adjacency, obs: seq<Obs>, obs': seq<Obs>, n: nat)
    requires Graph(adj, n) && Graph(adj', n) && Reread(obs, obs')
    requires AdjacencyOf(adj, obs, n) && AdjacencyOf(adj', obs', n)
    ensures adj' == adj
  {
    forall u | 0 <= u < n
      ensures adj'[u] == adj[u]
    {
      forall v: nat
        ensures v in adj'[u] <==> v in adj[u]
      {
        RereadJoins(obs, obs', u, v);
      }
    }
  }

  lemma {:induction false} SameDepth(n: nat, order: seq<nat>, parent: seq<Option<nat>>, d: seq<nat>, d': seq<nat>,
                                     k: nat)
    requires DepthsOf(n, order, parent, d) && DepthsOf(n, order, parent, d') && k < |order| && Distinct(order)
    ensures d'[order[k]] == d[order[k]]
    decreases k
  {
    if k > 0 {
      var i := Earlier(n, order, parent, d, k);
      var j := Earlier(n, order, parent, d', k);
      assert i == j;
      SameDepth(n, order, parent, d, d', i);
    }
  }

  /** The graph and the root decide the tree, depths included. */
  lemma OneSpan(s: Span, s': Span)
    requires s.Valid() && s'.Valid() && s'.n == s.n && s'.r == s.r && s'.adj == s.adj
    requires Found(s.order, s.parent) == Breadth(s.adj, s.r, |s.order|)
    requires Found(s'.order, s'.parent) == Breadth(s'.adj, s'.r, |s'.order|)
    ensures s' == s
  {
    OneSearch(s.adj, s.r, Found(s.order, s.parent), Found(s'.order, s'.parent));
    SpanDepths(s);
    SpanDepths(s');
    forall k | 0 <= k < |s.order|
      ensures s'.depth[s.order[k]] == s.depth[s.order[k]]
    {
      SameDepth(s.n, s.order, s.parent, s.depth, s'.depth, k);
    }
    SameDepths(s.n, s.order, s.depth, s'.depth);
  }

  /** The tree, and which observations are inside, do not depend on the readings. */
  lemma SameTree(f: NetworkFrame, f': NetworkFrame, n: nat, r: nat, obs: seq<Obs>, obs': seq<Obs>)
    requires Reread(obs, obs') && Solved(f, n, r, obs) && Solved(f', n, r, obs')
    requires Traced(f, n, obs) && Traced(f', n, obs')
    ensures f'.span == f.span && Reread(f.inside, f'.inside)
  {
    RereadProper(obs, obs');
    SameGraph(f.span.adj, f'.span.adj, Proper(obs), Proper(obs'), n);
    OneSpan(f.span, f'.span);
    RereadInside(Proper(obs), Proper(obs'), set i: nat | i in f.span.order);
  }

  // ----- The difference of two readings -----

  /** The same edges, reading by how much obs' reads more than obs. */
  ghost function Gain(obs: seq<Obs>, obs': seq<Obs>): (d: seq<Obs>)
    requires |obs'| == |obs|
    ensures |d| == |obs| && forall i :: 0 <= i < |obs| ==> d[i] == obs[i].(m := obs'[i].m - obs[i].m)
  {
    seq(|obs|, i requires 0 <= i < |obs| => obs[i].(m := obs'[i].m - obs[i].m))
  }

  lemma GainRereads(obs: seq<Obs>, obs': seq<Obs>)
    requires Reread(obs, obs')
    ensures Reread(obs, Gain(obs, obs'))
  {
    assert forall i :: 0 <= i < |obs| ==> SameEdge(obs[i], Gain(obs, obs')[i]);
  }

  lemma {:induction false} SameSums(obs: seq<Obs>, obs': seq<Obs>, c: Vec, t: nat, lo: nat, hi: nat)
    requires Reread(obs, obs') && t <= |obs| && t <= |c|
    ensures PairSum(obs', c, t, lo, hi) == PairSum(obs, c, t, lo, hi)
    ensures PairWeight(obs', c, t, lo, hi) == PairWeight(obs, c, t, lo, hi)
  {
    if t > 0 {
      SameSums(obs, obs', c, t - 1, lo, hi);
      assert SameEdge(obs[t - 1], obs'[t - 1]);
    }
  }

  lemma GainCoefs(obs: seq<Obs>, obs': seq<Obs>, n: nat, o: nat)
    requires Reread(obs, obs') && Usable(obs, n) && Usable(obs', n) && Usable(Gain(obs, obs'), n) && o < |obs|
    ensures LoadCoefs(obs', n)[o] == LoadCoefs(obs, n)[o] + LoadCoefs(Gain(obs, obs'), n)[o]
  {
    var w := obs[o].Weight();
    assert SameEdge(obs[o], obs'[o]) && obs'[o].Weight() == w && Gain(obs, obs')[o].Weight() == w;
    Distribute(w, obs[o].m, obs'[o].m - obs[o].m);
  }

  /** Merged hops differ by the hop of the difference. */
  lemma GainHop(obs: seq<Obs>, obs': seq<Obs>, n: nat, u: nat, v: nat)
    requires Reread(obs, obs') && Usable(obs, n) && Usable(obs', n) && Usable(Gain(obs, obs'), n)
    ensures Hop(obs', n, u, v) == Hop(obs, n, u, v) + Hop(Gain(obs, obs'), n, u, v)
  {
    var d, lo, hi := Gain(obs, obs'), if u < v then u else v, if u < v then v else u;
    var c, c', g, w := LoadCoefs(obs, n), LoadCoefs(obs', n), LoadCoefs(d, n), WeightsOf(obs, n);
    forall o | 0 <= o < |obs|
      ensures obs'[o].a == obs[o].a && obs'[o].b == obs[o].b && c'[o] == c[o] + g[o]
    {
      assert SameEdge(obs[o], obs'[o]);
      GainCoefs(obs, obs', n, o);
    }
    GainRereads(obs, obs');
    RereadUsable(obs, obs', n);
    RereadUsable(obs, d, n);
    PairSumAdds(obs, obs', c, c', g, |obs|, lo, hi);
    SameSums(obs, d, g, |obs|, lo, hi);
    SameSums(obs, obs', w, |obs|, lo, hi);
    SameSums(obs, d, w, |obs|, lo, hi);
    HopsAdd(PairSum(obs, c, |obs|, lo, hi), PairSum(obs, g, |obs|, lo, hi), PairWeight(obs, w, |obs|, lo, hi));
  }

  lemma HopsAdd(p: real, q: real, w: real)
    ensures w != 0.0 ==> (p + q) / w == p / w + q / w
  {
  }

  lemma {:induction false} GainWalk(obs: seq<Obs>, obs': seq<Obs>, n: nat, w: seq<nat>, k: nat)
    requires Reread(obs, obs') && Usable(obs, n) && Usable(obs', n) && Usable(Gain(obs, obs'), n) && k < |w|
    ensures WalkSum(obs', n, w, k) == WalkSum(obs, n, w, k) + WalkSum(Gain(obs, obs'), n, w, k)
  {
    if k > 0 {
      GainWalk(obs, obs', n, w, k - 1);
      GainHop(obs, obs', n, w[k - 1], w[k]);
    }
  }

  lemma GainAround(obs: seq<Obs>, obs': seq<Obs>, n: nat, w: seq<nat>)
    requires Reread(obs, obs') && Usable(obs, n) && Usable(obs', n) && Usable(Gain(obs, obs'), n) && |w| > 0
    ensures ClosedSum(obs', n, w) == ClosedSum(obs, n, w) + ClosedSum(Gain(obs, obs'), n, w)
  {
    GainWalk(obs, obs', n, w, |w| - 1);
    GainHop(obs, obs', n, w[|w| - 1], w[0]);
  }

  // ----- The cycles -----

  lemma SameChords(s: Span, obs: seq<Obs>, obs': seq<Obs>, pairs: map<(nat, nat), Pair>,
                   pairs': map<(nat, nat), Pair>, k: (nat, nat))
    requires Reread(obs, obs') && Usable(obs, s.n) && Usable(obs', s.n)
    requires Merged(pairs, obs, s.n, |obs|) && Merged(pairs', obs', s.n, |obs'|)
    ensures Chord(s, pairs', k) <==> Chord(s, pairs, k)
  {
    assert obs[..|obs|] == obs && obs'[..|obs'|] == obs';
    RereadJoins(obs, obs', k.0, k.1);
  }

  lemma SameVariance(obs: seq<Obs>, obs': seq<Obs>, n: nat, w: seq<nat>)
    requires Reread(obs, obs') && Usable(obs, n) && Usable(obs', n)
    ensures ClosedVariance(obs', n, w) == ClosedVariance(obs, n, w)
  {
    var v, v' := Variances(obs, n, w), Variances(obs', n, w);
    RereadUsable(obs, obs', n);
    forall i | 0 <= i < |w|
      ensures v'[i] == v[i]
    {
      var k := Key(w[i], Next(w, i));
      SameSums(obs, obs', WeightsOf(obs, n), |obs|, k.0, k.1);
    }
    assert v' == v;
  }

  ghost predicate Walked(cycles: seq<CycleDefect>) {
    forall i :: 0 <= i < |cycles| ==> |cycles[i].nodes| > 0
  }

  /** The cycles of the same tree over the difference. */
  ghost function GainCycles(s: Span, d: seq<Obs>, cycles: seq<CycleDefect>): (gained: seq<CycleDefect>)
    requires Usable(d, s.n) && Walked(cycles)
    ensures |gained| == |cycles|
    ensures forall i :: 0 <= i < |cycles| ==> gained[i] == GainCycle(s, d, cycles[i])
  {
    seq(|cycles|, i requires 0 <= i < |cycles| => GainCycle(s, d, cycles[i]))
  }

  ghost function GainCycle(s: Span, d: seq<Obs>, c: CycleDefect): CycleDefect
    requires Usable(d, s.n) && |c.nodes| > 0
  {
    CycleDefect(c.nodes, ClosedSum(d, s.n, c.nodes), ClosedVariance(d, s.n, c.nodes))
  }

  ghost function GainPairs(d: seq<Obs>, n: nat, pairs: map<(nat, nat), Pair>): map<(nat, nat), Pair>
    requires Usable(d, n)
  {
    map k | k in pairs ::
      Pair(PairSum(d, LoadCoefs(d, n), |d|, k.0, k.1), PairWeight(d, WeightsOf(d, n), |d|, k.0, k.1))
  }

  lemma GainPairsMerge(obs: seq<Obs>, d: seq<Obs>, n: nat, pairs: map<(nat, nat), Pair>)
    requires Usable(obs, n) && Usable(d, n) && Reread(obs, d) && Merged(pairs, obs, n, |obs|)
    ensures Merged(GainPairs(d, n, pairs), d, n, |d|)
  {
    assert obs[..|obs|] == obs && d[..|d|] == d;
    forall k: (nat, nat)
      ensures k in GainPairs(d, n, pairs) <==> k.0 < k.1 && Joined(d, k.0, k.1)
    {
      RereadJoins(obs, d, k.0, k.1);
    }
  }

  /** The readings of every merged pair have moved by phi(v) - phi(u). */
  ghost predicate MovedBy(s: Span, obs: seq<Obs>, obs': seq<Obs>, phi: nat -> real)
    requires Usable(obs, s.n) && Usable(obs', s.n)
  {
    forall u, v :: u in s.order && v in s.order && Joined(obs, u, v) ==>
      Hop(obs', s.n, u, v) == Hop(obs, s.n, u, v) + phi(v) - phi(u)
  }

  lemma MovedIffConsistent(s: Span, obs: seq<Obs>, obs': seq<Obs>, phi: nat -> real)
    requires Reread(obs, obs') && Usable(obs, s.n) && Usable(obs', s.n) && Usable(Gain(obs, obs'), s.n)
    ensures MovedBy(s, obs, obs', phi) <==> Consistent(s, Gain(obs, obs'), phi)
  {
    var d := Gain(obs, obs');
    GainRereads(obs, obs');
    forall u, v | u in s.order && v in s.order && Joined(obs, u, v)
      ensures Hop(obs', s.n, u, v) == Hop(obs, s.n, u, v) + phi(v) - phi(u) <==> Explains(phi, d, s.n, u, v)
      ensures Joined(d, u, v)
    {
      GainHop(obs, obs', s.n, u, v);
      RereadJoins(obs, d, u, v);
    }
    forall u, v | u in s.order && v in s.order && Joined(d, u, v)
      ensures Joined(obs, u, v)
    {
      RereadJoins(obs, d, u, v);
    }
  }

  /**
   * Two lists of the cycles of one tree, over two readings: they agree where the cycle over the difference is quiet.
   */
  ghost predicate Paired(s: Span, obs: seq<Obs>, obs': seq<Obs>, c: CycleDefect, c': CycleDefect)
    requires Usable(obs, s.n) && Usable(obs', s.n)
  {
    && c'.nodes == c.nodes && |c.nodes| > 0
    && c.offset == ClosedSum(obs, s.n, c.nodes) && c'.offset == ClosedSum(obs', s.n, c.nodes)
    && c.variance == ClosedVariance(obs, s.n, c.nodes) && c'.variance == ClosedVariance(obs', s.n, c.nodes)
  }

  lemma PairedAgree(s: Span, obs: seq<Obs>, obs': seq<Obs>, c: CycleDefect, c': CycleDefect)
    requires Reread(obs, obs') && Usable(obs, s.n) && Usable(obs', s.n) && Usable(Gain(obs, obs'), s.n)
    requires Paired(s, obs, obs', c, c')
    ensures c' == c <==> GainCycle(s, Gain(obs, obs'), c).offset == 0.0
  {
    GainAround(obs, obs', s.n, c.nodes);
    SameVariance(obs, obs', s.n, c.nodes);
  }

  // ----- The frame -----

  lemma CyclesPair(f: NetworkFrame, f': NetworkFrame, keys: seq<(nat, nat)>, keys': seq<(nat, nat)>)
    requires Usable(f.inside, f.span.n) && f'.span == f.span && Reread(f.inside, f'.inside)
    requires Merged(f.pairs, f.inside, f.span.n, |f.inside|)
    requires FundamentalCycles(f, keys) && Traversed(f.span, f.cycles, keys)
    requires FundamentalCycles(f', keys') && Traversed(f'.span, f'.cycles, keys')
    requires Merged(f'.pairs, f'.inside, f.span.n, |f'.inside|)
    ensures keys' == keys && |f'.cycles| == |f.cycles|
    ensures forall i :: 0 <= i < |f.cycles| ==> Paired(f.span, f.inside, f'.inside, f.cycles[i], f'.cycles[i])
  {
    forall k: (nat, nat)
      ensures k in keys' <==> k in keys
    {
      SameChords(f.span, f.inside, f'.inside, f.pairs, f'.pairs, k);
    }
    OneAscending(keys', keys, Before);
    forall i | 0 <= i < |f.cycles|
      ensures Paired(f.span, f.inside, f'.inside, f.cycles[i], f'.cycles[i])
    {
      OneWalk(f.span, keys[i].0, keys[i].1, f.cycles[i].nodes, f'.cycles[i].nodes);
    }
  }

  /** The cycles over the difference are quiet exactly when the two lists are the same. */
  lemma SameIffQuiet(f: NetworkFrame, f': NetworkFrame)
    requires Usable(f.inside, f.span.n) && Usable(f'.inside, f.span.n) && Reread(f.inside, f'.inside)
    requires Usable(Gain(f.inside, f'.inside), f.span.n) && |f'.cycles| == |f.cycles| && Walked(f.cycles)
    requires forall i :: 0 <= i < |f.cycles| ==> Paired(f.span, f.inside, f'.inside, f.cycles[i], f'.cycles[i])
    ensures f'.cycles == f.cycles <==> Quiet(GainCycles(f.span, Gain(f.inside, f'.inside), f.cycles))
  {
    forall i | 0 <= i < |f.cycles|
      ensures f'.cycles[i] == f.cycles[i]
         <==> GainCycle(f.span, Gain(f.inside, f'.inside), f.cycles[i]).offset == 0.0
    {
      PairedAgree(f.span, f.inside, f'.inside, f.cycles[i], f'.cycles[i]);
    }
  }

  lemma GainListing(s: Span, obs: seq<Obs>, d: seq<Obs>, cycles: seq<CycleDefect>, keys: seq<(nat, nat)>)
    requires Usable(obs, s.n) && Usable(d, s.n) && Listing(s, obs, cycles, keys)
    ensures Walked(cycles)
    ensures Listing(s, d, GainCycles(s, d, cycles), keys)
  {
  }

  lemma GainMissesNothing(f: NetworkFrame, d: seq<Obs>, keys: seq<(nat, nat)>)
    requires Measures(f.span, f.inside) && Reread(f.inside, d) && Usable(d, f.span.n)
    requires Merged(f.pairs, f.inside, f.span.n, |f.inside|) && FundamentalCycles(f, keys)
    ensures Walked(f.cycles)
    ensures Quiet(GainCycles(f.span, d, f.cycles)) <==> exists x: nat -> real :: Consistent(f.span, d, x)
  {
    RereadMeasures(f.span, f.inside, d);
    GainPairsMerge(f.inside, d, f.span.n, f.pairs);
    GainListing(f.span, f.inside, d, f.cycles, keys);
    CyclesMissNothing(f.span, d, GainPairs(d, f.span.n, f.pairs), GainCycles(f.span, d, f.cycles), keys);
  }

  /**
   * What cycles cannot see: new readings of the same edges leave the list of cycles as it was if and only if they move
   * every merged pair by the difference of some node values. The tree never changes.
   */
  lemma CyclesMissOnlyLies(f: NetworkFrame, f': NetworkFrame, n: nat, r: nat, obs: seq<Obs>, obs': seq<Obs>)
    requires Usable(obs, n) && Reread(obs, obs') && Solved(f, n, r, obs) && Solved(f', n, r, obs')
    requires Traced(f, n, obs) && Traced(f', n, obs')
    ensures f'.span == f.span && Usable(f.inside, f.span.n) && Usable(f'.inside, f.span.n)
    ensures f'.cycles == f.cycles <==> exists phi: nat -> real :: MovedBy(f.span, f.inside, f'.inside, phi)
  {
    SameTree(f, f', n, r, obs, obs');
    var d := Gain(f.inside, f'.inside);
    GainRereads(f.inside, f'.inside);
    RereadUsable(f.inside, d, n);
    var keys: seq<(nat, nat)> :| FundamentalCycles(f, keys) && Traversed(f.span, f.cycles, keys);
    var keys': seq<(nat, nat)> :| FundamentalCycles(f', keys') && Traversed(f'.span, f'.cycles, keys');
    CyclesPair(f, f', keys, keys');
    GainMissesNothing(f, d, keys);
    SameIffQuiet(f, f');
    MovedIffSomeConsistent(f.span, f.inside, f'.inside);
  }

  lemma MovedIffSomeConsistent(s: Span, obs: seq<Obs>, obs': seq<Obs>)
    requires Reread(obs, obs') && Usable(obs, s.n) && Usable(obs', s.n) && Usable(Gain(obs, obs'), s.n)
    ensures (exists phi: nat -> real :: MovedBy(s, obs, obs', phi))
       <==> exists x: nat -> real :: Consistent(s, Gain(obs, obs'), x)
  {
    if phi: nat -> real :| MovedBy(s, obs, obs', phi) { MovedIffConsistent(s, obs, obs', phi); }
    if x: nat -> real :| Consistent(s, Gain(obs, obs'), x) { MovedIffConsistent(s, obs, obs', x); }
  }

  /** In particular, adding phi[b] - phi[a] to every measurement leaves the tree, and every listed cycle, as it was. */
  lemma LieKeepsCycles(f: NetworkFrame, f': NetworkFrame, n: nat, r: nat, obs: seq<Obs>, phi: Vec)
    requires |phi| == n && Usable(obs, n) && Solved(f, n, r, obs) && Solved(f', n, r, Shift(obs, phi))
    requires Traced(f, n, obs) && Traced(f', n, Shift(obs, phi))
    ensures f'.span == f.span && f'.cycles == f.cycles
  {
    ShiftRereads(obs, phi);
    CyclesMissOnlyLies(f, f', n, r, obs, Shift(obs, phi));
    SolvedFacts(f, n, r, obs);
    SolvedFacts(f', n, r, Shift(obs, phi));
    SameComponent(f.span.order, f'.span.order, r, obs, phi);
    LieMoves(f.span, f.inside, phi);
  }

  lemma LieMoves(s: Span, obs: seq<Obs>, phi: Vec)
    requires |phi| == s.n && Usable(obs, s.n) && Usable(Shift(obs, phi), s.n)
    requires forall i :: 0 <= i < |s.order| ==> s.order[i] < s.n
    ensures exists x: nat -> real :: MovedBy(s, obs, Shift(obs, phi), x)
  {
    var x := (i: nat) => if i < |phi| then phi[i] else 0.0;
    forall u, v | u in s.order && v in s.order && Joined(obs, u, v)
      ensures Hop(Shift(obs, phi), s.n, u, v) == Hop(obs, s.n, u, v) + x(v) - x(u)
    {
      ShiftedHop(obs, phi, s.n, u, v);
    }
    assert MovedBy(s, obs, Shift(obs, phi), x);
  }
}
