/** The network frame: `solve_frame` over one channel of observations. */
module Frame {
  import opened Basics
  import opened Vectors
  import opened Cholesky
  import opened Laplacian
  import opened Bfs
  import opened Cycles

  datatype NetworkFrame = NetworkFrame(
    span: Span,
    inside: seq<Obs>,
    value: Vec,
    sigma: Vec,
    residuals: Vec,
    pairs: map<(nat, nat), Pair>,
    cycles: seq<CycleDefect>)

  /** The observations between two different nodes. */
  function Proper(obs: seq<Obs>): (kept: seq<Obs>)
    ensures forall o :: o in kept <==> o in obs && o.a != o.b
  {
    if obs == [] then [] else
      var o := obs[|obs| - 1];
      assert obs == obs[..|obs| - 1] + [o];
      Proper(obs[..|obs| - 1]) + if o.a != o.b then [o] else []
  }

  /** The observations made from one of the members. */
  function Inside(obs: seq<Obs>, members: set<nat>): (kept: seq<Obs>)
    ensures forall o :: o in kept <==> o in obs && o.a in members
  {
    if obs == [] then [] else
      var o := obs[|obs| - 1];
      assert obs == obs[..|obs| - 1] + [o];
      Inside(obs[..|obs| - 1], members) + if o.a in members then [o] else []
  }

  lemma JoinedBy(obs: seq<Obs>, u: nat, v: nat)
    ensures Joined(obs, u, v) <==> exists o :: o in obs && Joins(o, u, v)
  {
    if Joined(obs, u, v) {
      var i :| 0 <= i < |obs| && ((obs[i].a == u && obs[i].b == v) || (obs[i].a == v && obs[i].b == u));
      assert obs[i] in obs && Joins(obs[i], u, v);
    }
  }

  lemma KeptUsable(obs: seq<Obs>, n: nat, kept: seq<Obs>)
    requires Usable(obs, n) && forall o :: o in kept ==> o in obs
    ensures Usable(kept, n)
  {
    forall i | 0 <= i < |kept|
      ensures kept[i].sigma > 0.0 && kept[i].a < n && kept[i].b < n
    {
      assert kept[i] in kept;
    }
  }

  ghost predicate NoLoops(obs: seq<Obs>) {
    forall o :: 0 <= o < |obs| ==> obs[o].a != obs[o].b
  }

  /** Both ends of every usable observation become neighbours. */
  method BuildAdjacency(n: nat, obs: seq<Obs>) returns (adj: Adjacency)
    requires Usable(obs, n) && NoLoops(obs)
    ensures Graph(adj, n)
    ensures forall u, v :: 0 <= u < n && 0 <= v < n ==> (v in adj[u] <==> Joined(obs, u, v))
  {
    adj := seq(n, _ => {});
    for t := 0 to |obs|
      invariant |adj| == n
      invariant forall u, v :: 0 <= u < n && v in adj[u] ==> v < n
      invariant forall u, v :: 0 <= u < n && 0 <= v < n ==> (v in adj[u] <==> Joined(obs[..t], u, v))
    {
      var o := obs[t];
      ghost var adj0 := adj;
      adj := adj[o.a := adj[o.a] + {o.b}];
      adj := adj[o.b := adj[o.b] + {o.a}];
      forall u, v | 0 <= u < n && 0 <= v < n
        ensures v in adj[u] <==> Joined(obs[..t + 1], u, v)
      {
        JoinedStep(obs, t, u, v);
        assert v in adj[u] <==> v in adj0[u] || Joins(o, u, v);
      }
    }
    assert obs[..|obs|] == obs;
    forall u, v | 0 <= u < n && 0 <= v < n
      ensures v in adj[u] <==> u in adj[v]
      ensures u !in adj[u]
    {
      JoinedBy(obs, u, v);
      JoinedBy(obs, v, u);
      JoinedBy(obs, u, u);
    }
  }

  /** depth counts the parents above each node of the order. */
  ghost predicate DepthsOf(n: nat, order: seq<nat>, parent: seq<Option<nat>>, depth: seq<nat>) {
    && |parent| == n && |depth| == n && |order| > 0
    && (forall k :: 0 <= k < |order| ==> order[k] < n)
    && parent[order[0]] == None && depth[order[0]] == 0
    && (forall k :: 1 <= k < |order| ==> parent[order[k]].Some? && HasEarlier(order, parent, depth, k))
    && (forall u :: 0 <= u < n && u !in order ==> depth[u] == 0)
  }

  /** The parent of node k of the order stands before it, one level up. */
  ghost predicate HasEarlier(order: seq<nat>, parent: seq<Option<nat>>, depth: seq<nat>, k: nat)
    requires k < |order| && order[k] < |parent| && order[k] < |depth| && parent[order[k]].Some?
  {
    exists i :: 0 <= i < k && order[i] == parent[order[k]].value && order[i] < |depth|
        && depth[order[k]] == depth[order[i]] + 1
  }

  lemma SpanDepths(s: Span)
    requires s.Valid()
    ensures DepthsOf(s.n, s.order, s.parent, s.depth)
  {
    forall k | 1 <= k < |s.order|
      ensures s.parent[s.order[k]].Some? && HasEarlier(s.order, s.parent, s.depth, k)
    {
      ParentEarlier(s, k);
      var i := ParentIndex(s, k);
    }
  }

  /** Depths recomputed from the order and the parents are those of the search. */
  method Depths(n: nat, order: seq<nat>, parent: seq<Option<nat>>, ghost depth: seq<nat>) returns (d: seq<nat>)
    requires DepthsOf(n, order, parent, depth) && Distinct(order)
    ensures d == depth
  {
    d := seq(n, _ => 0);
    for k := 0 to |order|
      invariant |d| == n
      invariant forall i :: 0 <= i < k ==> d[order[i]] == depth[order[i]]
      invariant forall u :: 0 <= u < n && u !in order ==> d[u] == 0
      invariant forall i :: k <= i < |order| ==> d[order[i]] == 0
    {
      if parent[order[k]].Some? {
        ghost var i := Earlier(n, order, parent, depth, k);
        OthersKeep(d, order, k, d[parent[order[k]].value] + 1);
        d := d[order[k] := d[parent[order[k]].value] + 1];
      }
    }
    SameDepths(n, order, depth, d);
  }

  lemma OthersKeep(d: seq<nat>, order: seq<nat>, k: nat, x: nat)
    requires k < |order| && Distinct(order) && forall i :: 0 <= i < |order| ==> order[i] < |d|
    ensures var d' := d[order[k] := x];
            && (forall i :: 0 <= i < |order| && i != k ==> d'[order[i]] == d[order[i]])
            && (forall u :: 0 <= u < |d| && u !in order ==> d'[u] == d[u])
  {
  }

  lemma Earlier(n: nat, order: seq<nat>, parent: seq<Option<nat>>, depth: seq<nat>, k: nat) returns (i: nat)
    requires DepthsOf(n, order, parent, depth) && k < |order| && parent[order[k]].Some?
    ensures i < k && order[i] == parent[order[k]].value && depth[order[k]] == depth[order[i]] + 1
  {
    assert HasEarlier(order, parent, depth, k);
    i :| 0 <= i < k && order[i] == parent[order[k]].value && order[i] < |depth|
      && depth[order[k]] == depth[order[i]] + 1;
  }

  lemma SameDepths(n: nat, order: seq<nat>, depth: seq<nat>, d: seq<nat>)
    requires |d| == |depth| == n && forall i :: 0 <= i < |order| ==> order[i] < n && d[order[i]] == depth[order[i]]
    requires forall u :: 0 <= u < n && u !in order ==> depth[u] == 0 && d[u] == 0
    ensures d == depth
  {
    forall u | 0 <= u < n
      ensures d[u] == depth[u]
    {
      if u in order { var i :| 0 <= i < |order| && order[i] == u; }
    }
  }

  lemma ParentIndex(s: Span, k: nat) returns (i: nat)
    requires s.Valid() && k < |s.order| && s.parent[s.order[k]].Some?
    ensures i < k && s.order[i] == s.parent[s.order[k]].value
    ensures s.depth[s.order[k]] == s.depth[s.order[i]] + 1 && s.order[k] != s.r
  {
    var u := s.order[k];
    assert u in s.order && u != s.r;
    ParentEarlier(s, k);
    assert Child(u, s.parent[u].value, s.order, s.depth, s.adj);
    i :| 0 <= i < k && s.order[..k][i] == s.parent[u].value;
  }

  // ----- The component -----

  /** A walk of observations from r to u. */
  ghost predicate Route(obs: seq<Obs>, r: nat, u: nat, w: seq<nat>) {
    && |w| > 0 && w[0] == r && w[|w| - 1] == u
    && forall i :: 0 < i < |w| ==> Joined(obs, w[i - 1], w[i])
  }

  ghost predicate Connected(obs: seq<Obs>, r: nat, u: nat) {
    exists w: seq<nat> :: Route(obs, r, u, w)
  }

  ghost predicate AdjacencyOf(adj: Adjacency, obs: seq<Obs>, n: nat) {
    && Graph(adj, n)
    && forall u, v :: 0 <= u < n && 0 <= v < n ==> (v in adj[u] <==> Joined(obs, u, v))
  }

  lemma {:induction false} RouteStaysInside(s: Span, obs: seq<Obs>, w: seq<nat>, u: nat, k: nat)
    requires s.Valid() && Usable(obs, s.n) && AdjacencyOf(s.adj, obs, s.n) && Route(obs, s.r, u, w) && k < |w|
    ensures w[k] in s.order
  {
    if k == 0 {
      assert s.order[0] in s.order;
    } else {
      RouteStaysInside(s, obs, w, u, k - 1);
      assert Joined(obs, w[k - 1], w[k]);
      assert Explored(w[k - 1], s.order, s.depth, s.adj);
    }
  }

  lemma {:induction false} OrderIsRouted(s: Span, obs: seq<Obs>, k: nat)
    requires s.Valid() && AdjacencyOf(s.adj, obs, s.n) && k < |s.order|
    ensures Connected(obs, s.r, s.order[k])
    decreases k
  {
    if k == 0 {
      assert Route(obs, s.r, s.order[0], [s.r]);
    } else {
      var u := s.order[k];
      assert u in s.order && u != s.r;
      assert Child(u, s.parent[u].value, s.order, s.depth, s.adj);
      var i := ParentIndex(s, k);
      OrderIsRouted(s, obs, i);
      var w: seq<nat> :| Route(obs, s.r, s.order[i], w);
      RouteExtends(obs, s.r, s.order[i], u, w);
    }
  }

  lemma RouteExtends(obs: seq<Obs>, r: nat, p: nat, u: nat, w: seq<nat>)
    requires Route(obs, r, p, w) && Joined(obs, p, u)
    ensures Connected(obs, r, u)
  {
    assert Route(obs, r, u, w + [u]);
  }

  /** The search finds exactly the nodes some walk of observations joins to the reference. */
  lemma OrderIsComponent(s: Span, obs: seq<Obs>, u: nat)
    requires s.Valid() && Usable(obs, s.n) && AdjacencyOf(s.adj, obs, s.n)
    ensures u in s.order <==> Connected(obs, s.r, u)
  {
    if u in s.order {
      var k :| 0 <= k < |s.order| && s.order[k] == u;
      OrderIsRouted(s, obs, k);
    }
    if w: seq<nat> :| Route(obs, s.r, u, w) {
      RouteStaysInside(s, obs, w, u, |w| - 1);
    }
  }

  /** Observations from the component have both ends in it, and join the same nodes of it. */
  lemma InsideMeasures(s: Span, obs: seq<Obs>, inside: seq<Obs>)
    requires s.Valid() && Usable(obs, s.n) && NoLoops(obs) && AdjacencyOf(s.adj, obs, s.n) && Usable(inside, s.n)
    requires forall o :: o in inside <==> o in obs && o.a in s.order
    ensures Measures(s, inside)
  {
    forall i | 0 <= i < |inside|
      ensures inside[i].a in s.order && inside[i].b in s.order && inside[i].a != inside[i].b
    {
      var o := inside[i];
      assert o in inside;
      var k :| 0 <= k < |obs| && obs[k] == o;
      JoinedBy(obs, o.a, o.b);
      assert Joins(o, o.a, o.b);
      assert Explored(o.a, s.order, s.depth, s.adj);
    }
    forall u, v | u in s.order && 0 <= v < s.n
      ensures v in s.adj[u] <==> Joined(inside, u, v)
    {
      JoinedBy(obs, u, v);
      JoinedBy(inside, u, v);
      if o :| o in obs && Joins(o, u, v) {
        assert Explored(u, s.order, s.depth, s.adj);
        assert o in inside;
      }
    }
  }

  /** Every node of the component but the reference is measured against an earlier one. */
  lemma OrderIsLinked(s: Span, inside: seq<Obs>)
    requires Measures(s, inside)
    ensures Linked(inside, s.order)
  {
    forall t | 0 < t < |s.order|
      ensures exists i :: 0 <= i < t && Joined(inside, s.order[i], s.order[t])
    {
      var u := s.order[t];
      TreeEdgeMeasured(s, inside, t);
      var i := ParentIndex(s, t);
    }
  }

  /** Measured minus solved difference of every observation. */
  ghost predicate ResidualsOf(res: Vec, obs: seq<Obs>, x: Vec) {
    && |res| == |obs|
    && forall i :: 0 <= i < |obs| ==> obs[i].a < |x| && obs[i].b < |x| && res[i] == obs[i].m - Diff(obs[i], x)
  }

  method Residuals(obs: seq<Obs>, x: Vec) returns (res: Vec)
    requires Usable(obs, |x|)
    ensures ResidualsOf(res, obs, x)
  {
    res := [];
    for i := 0 to |obs|
      invariant |res| == i
      invariant forall k :: 0 <= k < i ==> res[k] == obs[k].m - Diff(obs[k], x)
    {
      res := res + [obs[i].m - (x[obs[i].b] - x[obs[i].a])];
    }
  }

  /** What a solved frame is. */
  ghost predicate Solved(f: NetworkFrame, n: nat, r: nat, obs: seq<Obs>) {
    && f.span.n == n && f.span.r == r && Measures(f.span, f.inside)
    && f.inside == Inside(Proper(obs), set i: nat | i in f.span.order)
    && (forall u :: u in f.span.order <==> Connected(Proper(obs), r, u))
    && |f.value| == n && f.value[r] == 0.0
    && LeastSquares(f.inside, n, f.span.order, f.value)
    && ResidualsOf(f.residuals, f.inside, f.value)
    && Merged(f.pairs, f.inside, n, |f.inside|)
    && |f.cycles| == |f.pairs| - |f.span.order| + 1
    && (exists keys: seq<(nat, nat)> :: FundamentalCycles(f, keys))
  }

  ghost predicate FundamentalCycles(f: NetworkFrame, keys: seq<(nat, nat)>) {
    && Usable(f.inside, f.span.n)
    && Listing(f.span, f.inside, f.cycles, keys)
    && forall k: (nat, nat) :: k in keys <==> Chord(f.span, f.pairs, k)
  }

  /** The spreads are the roots of the inverse Laplacian's diagonal, over the unknowns in ascending order. */
  ghost predicate Spreading(f: NetworkFrame, n: nat, un: seq<nat>) {
    && Usable(f.inside, n) && Unknowns(un, n, f.span.order) && Ascends(un) && |f.sigma| == n
    && forall p :: 0 <= p < |un| ==> SpreadOf(Normal(f.inside, n, un), |un|, p, f.sigma[un[p]])
  }

  /**
   * Outside the component, and at the reference, values and spreads are zero; elsewhere the spreads are those of the
   * solve.
   */
  ghost predicate Filled(f: NetworkFrame, n: nat) {
    && |f.value| == n && |f.sigma| == n
    && (forall i :: 0 <= i < n && (i !in f.span.order || i == f.span.r) ==> f.value[i] == 0.0 && f.sigma[i] == 0.0)
    && exists un: seq<nat> :: Spreading(f, n, un)
  }

  /** The tree is the one the graph decides, and the cycles those the tree decides, in the order of their pairs. */
  ghost predicate Traced(f: NetworkFrame, n: nat, obs: seq<Obs>) {
    && AdjacencyOf(f.span.adj, Proper(obs), n)
    && Found(f.span.order, f.span.parent) == Breadth(f.span.adj, f.span.r, |f.span.order|)
    && exists keys: seq<(nat, nat)> :: FundamentalCycles(f, keys) && Traversed(f.span, f.cycles, keys)
  }

  /** The whole frame, from any list of observations. */
  method SolveFrame(n: nat, r: nat, obs: seq<Obs>, sqrt: real -> real) returns (f: NetworkFrame)
    requires Usable(obs, n) && r < n && IsSqrt(sqrt)
    ensures Solved(f, n, r, obs) && Filled(f, n) && Traced(f, n, obs)
  {
    var usable := Proper(obs);
    KeptUsable(obs, n, usable);
    assert NoLoops(usable) by { assert forall i :: 0 <= i < |usable| ==> usable[i] in usable; }
    var adj := BuildAdjacency(n, usable);
    var order, parent, depth := Explore(n, r, adj);
    var s := Span(n, r, order, parent, depth, adj);
    var members := set i: nat | i in order;
    var inside := Inside(usable, members);
    KeptUsable(usable, n, inside);
    InsideMeasures(s, usable, inside);
    OrderIsLinked(s, inside);
    var value, sigma, un := LaplacianSolve(n, r, members, inside, sqrt, order);
    var res := Residuals(inside, value);
    var pairs := MergePairs(inside, n);
    var cycles, keys := FindCycles(s, inside, pairs);
    CycleCount(s, inside, pairs, keys);
    f := NetworkFrame(s, inside, value, sigma, res, pairs, cycles);
    assert FundamentalCycles(f, keys);
    assert Spreading(f, n, un);
    forall u: nat
      ensures u in order <==> Connected(usable, r, u)
    {
      OrderIsComponent(s, usable, u);
    }
  }

  /** The search and the depths read back from it. */
  method Explore(n: nat, r: nat, adj: Adjacency) returns (order: seq<nat>, parent: seq<Option<nat>>, depth: seq<nat>)
    requires Graph(adj, n) && r < n
    ensures Layered(n, r, order, parent, depth, adj) && Found(order, parent) == Breadth(adj, r, |order|)
  {
    var o, p, d := Search(n, r, adj);
    ghost var s := Span(n, r, o, p, d, adj);
    SpanDepths(s);
    depth := Depths(n, o, p, d);
    order, parent := o, p;
  }
}
