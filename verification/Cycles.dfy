/** Merged pairs, fundamental cycles and their holonomy, as `solve_frame` computes them. */
module Cycles {
  import opened Basics
  import opened Vectors
  import opened Cholesky
  import opened Laplacian
  import opened Bfs

  /** A finished breadth-first search. */
  datatype Span = Span(n: nat, r: nat, order: seq<nat>, parent: seq<Option<nat>>, depth: seq<nat>, adj: Adjacency) {
    ghost predicate Valid() {
      Graph(adj, n) && Layered(n, r, order, parent, depth, adj)
    }

    /** u is joined to v by an edge of the tree. */
    predicate TreeHop(u: nat, v: nat)
      requires u < |parent| && v < |parent|
    {
      parent[v] == Some(u) || parent[u] == Some(v)
    }
  }

  /** obs are the usable observations inside the component. */
  ghost predicate Measures(s: Span, obs: seq<Obs>) {
    && s.Valid() && Usable(obs, s.n) && Within(obs, s.order)
    && (forall o :: 0 <= o < |obs| ==> obs[o].a != obs[o].b)
    && (forall u, v :: u in s.order && 0 <= v < s.n ==> (v in s.adj[u] <==> Joined(obs, u, v)))
  }

  // ----- Merged pairs -----

  function Key(u: nat, v: nat): (nat, nat) {
    if u < v then (u, v) else (v, u)
  }

  predicate Joins(o: Obs, lo: nat, hi: nat) {
    (o.a == lo && o.b == hi) || (o.a == hi && o.b == lo)
  }

  /** x as o reads the pair lo -> hi: negated from the other end, zero when o measures another pair. */
  function Signed(o: Obs, x: real, lo: nat, hi: nat): real {
    if o.a == lo && o.b == hi then x else if o.a == hi && o.b == lo then -x else 0.0
  }

  /** Sum of the first t entries of c, each as its observation reads the pair. */
  ghost function PairSum(obs: seq<Obs>, c: Vec, t: nat, lo: nat, hi: nat): real
    requires t <= |obs| && t <= |c|
  {
    if t == 0 then 0.0 else PairSum(obs, c, t - 1, lo, hi) + Signed(obs[t - 1], c[t - 1], lo, hi)
  }

  ghost function PairWeight(obs: seq<Obs>, w: Vec, t: nat, lo: nat, hi: nat): real
    requires t <= |obs| && t <= |w|
  {
    if t == 0 then 0.0 else PairWeight(obs, w, t - 1, lo, hi) + if Joins(obs[t - 1], lo, hi) then w[t - 1] else 0.0
  }

  lemma {:induction false} PairWeightSign(obs: seq<Obs>, w: Vec, t: nat, lo: nat, hi: nat)
    requires t <= |obs| && t <= |w| && forall o :: 0 <= o < t ==> w[o] > 0.0
    ensures PairWeight(obs, w, t, lo, hi) >= 0.0
    ensures (exists o :: 0 <= o < t && Joins(obs[o], lo, hi)) ==> PairWeight(obs, w, t, lo, hi) > 0.0
  {
    if t > 0 { PairWeightSign(obs, w, t - 1, lo, hi); }
  }

  lemma JoinedWeight(obs: seq<Obs>, n: nat, u: nat, v: nat)
    requires Usable(obs, n) && Joined(obs, u, v)
    ensures PairWeight(obs, WeightsOf(obs, n), |obs|, u, v) > 0.0
  {
    forall o | 0 <= o < |obs|
      ensures WeightsOf(obs, n)[o] > 0.0
    {
      WeightPositive(obs[o]);
    }
    PairWeightSign(obs, WeightsOf(obs, n), |obs|, u, v);
    var o :| 0 <= o < |obs| && ((obs[o].a == u && obs[o].b == v) || (obs[o].a == v && obs[o].b == u));
    assert Joins(obs[o], u, v);
  }

  /** The merged measurement of walking u -> v, inverse-variance weighted over both directions. */
  ghost function Hop(obs: seq<Obs>, n: nat, u: nat, v: nat): real
    requires Usable(obs, n)
  {
    var (lo, hi) := if u < v then (u, v) else (v, u);
    var w := PairWeight(obs, WeightsOf(obs, n), |obs|, lo, hi);
    var s := if w == 0.0 then 0.0 else PairSum(obs, LoadCoefs(obs, n), |obs|, lo, hi) / w;
    if u < v then s else -s
  }

  datatype Pair = Pair(sum: real, w: real)

  /** pairs holds, for every pair the first t observations join, its signed sum of c and its sum of w. */
  ghost predicate Tallied(pairs: map<(nat, nat), Pair>, obs: seq<Obs>, c: Vec, w: Vec, t: nat)
    requires t <= |obs| && t <= |c| && t <= |w|
  {
    && (forall k :: k in pairs <==> k.0 < k.1 && Joined(obs[..t], k.0, k.1))
    && (forall k :: k in pairs ==> pairs[k] == Pair(PairSum(obs, c, t, k.0, k.1), PairWeight(obs, w, t, k.0, k.1)))
  }

  /** Every joined pair's weighted sum of measurements and its total weight. */
  ghost predicate Merged(pairs: map<(nat, nat), Pair>, obs: seq<Obs>, n: nat, t: nat)
    requires Usable(obs, n) && t <= |obs|
  {
    Tallied(pairs, obs, LoadCoefs(obs, n), WeightsOf(obs, n), t)
  }

  lemma {:induction false} UnjoinedIsZero(obs: seq<Obs>, c: Vec, w: Vec, t: nat, lo: nat, hi: nat)
    requires t <= |obs| && t <= |c| && t <= |w| && !Joined(obs[..t], lo, hi)
    ensures PairSum(obs, c, t, lo, hi) == 0.0 && PairWeight(obs, w, t, lo, hi) == 0.0
  {
    if t > 0 {
      assert obs[..t][t - 1] == obs[t - 1];
      assert forall o :: 0 <= o < t - 1 ==> obs[..t - 1][o] == obs[..t][o];
      UnjoinedIsZero(obs, c, w, t - 1, lo, hi);
    }
  }

  lemma JoinedStep(obs: seq<Obs>, t: nat, u: nat, v: nat)
    requires t < |obs|
    ensures Joined(obs[..t + 1], u, v) <==>
            Joined(obs[..t], u, v) || (obs[t].a == u && obs[t].b == v) || (obs[t].a == v && obs[t].b == u)
  {
    assert obs[..t + 1] == obs[..t] + [obs[t]];
    if Joined(obs[..t], u, v) {
      var o :| 0 <= o < t && ((obs[..t][o].a == u && obs[..t][o].b == v) || (obs[..t][o].a == v && obs[..t][o].b == u));
      assert obs[..t + 1][o] == obs[..t][o];
    }
    if (obs[t].a == u && obs[t].b == v) || (obs[t].a == v && obs[t].b == u) {
      assert obs[..t + 1][t] == obs[t];
    }
  }

  /** Add a weighted measurement x of weight w to its pair, oriented low -> high. */
  function Absorb(pairs: map<(nat, nat), Pair>, o: Obs, x: real, w: real): map<(nat, nat), Pair> {
    var key := Key(o.a, o.b);
    var p := if key in pairs then pairs[key] else Pair(0.0, 0.0);
    pairs[key := Pair(p.sum + Signed(o, x, key.0, key.1), p.w + w)]
  }

  lemma TallyKeys(pairs: map<(nat, nat), Pair>, obs: seq<Obs>, c: Vec, w: Vec, t: nat, k: (nat, nat))
    requires t < |obs| && t < |c| && t < |w| && Tallied(pairs, obs, c, w, t) && obs[t].a != obs[t].b
    ensures k in Absorb(pairs, obs[t], c[t], w[t]) <==> k.0 < k.1 && Joined(obs[..t + 1], k.0, k.1)
  {
    JoinedStep(obs, t, k.0, k.1);
  }

  lemma TallyValues(pairs: map<(nat, nat), Pair>, obs: seq<Obs>, c: Vec, w: Vec, t: nat, k: (nat, nat))
    requires t < |obs| && t < |c| && t < |w| && Tallied(pairs, obs, c, w, t) && obs[t].a != obs[t].b
    requires k in Absorb(pairs, obs[t], c[t], w[t]) && k.0 < k.1
    ensures Absorb(pairs, obs[t], c[t], w[t])[k]
              == Pair(PairSum(obs, c, t + 1, k.0, k.1), PairWeight(obs, w, t + 1, k.0, k.1))
  {
    if k !in pairs {
      UnjoinedIsZero(obs, c, w, t, k.0, k.1);
    }
    assert Joins(obs[t], k.0, k.1) <==> k == Key(obs[t].a, obs[t].b);
  }

  lemma TallyStep(pairs: map<(nat, nat), Pair>, obs: seq<Obs>, c: Vec, w: Vec, t: nat, x: real, weight: real)
    requires t < |obs| && t < |c| && t < |w| && Tallied(pairs, obs, c, w, t) && obs[t].a != obs[t].b
    requires x == c[t] && weight == w[t]
    ensures Tallied(Absorb(pairs, obs[t], x, weight), obs, c, w, t + 1)
  {
    forall k: (nat, nat)
      ensures k in Absorb(pairs, obs[t], c[t], w[t]) <==> k.0 < k.1 && Joined(obs[..t + 1], k.0, k.1)
    {
      TallyKeys(pairs, obs, c, w, t, k);
    }
    forall k | k in Absorb(pairs, obs[t], c[t], w[t])
      ensures Absorb(pairs, obs[t], c[t], w[t])[k]
                == Pair(PairSum(obs, c, t + 1, k.0, k.1), PairWeight(obs, w, t + 1, k.0, k.1))
    {
      TallyValues(pairs, obs, c, w, t, k);
    }
  }

  /** Merge each pair's measurements, both directions. */
  method MergePairs(obs: seq<Obs>, n: nat) returns (pairs: map<(nat, nat), Pair>)
    requires Usable(obs, n) && forall o :: 0 <= o < |obs| ==> obs[o].a != obs[o].b
    ensures Merged(pairs, obs, n, |obs|)
  {
    pairs := map[];
    ghost var c, w := LoadCoefs(obs, n), WeightsOf(obs, n);
    for t := 0 to |obs|
      invariant Tallied(pairs, obs, c, w, t)
    {
      var x, weight := obs[t].Weight() * obs[t].m, obs[t].Weight();
      assert x == c[t] && weight == w[t];
      TallyStep(pairs, obs, c, w, t, x, weight);
      pairs := Absorb(pairs, obs[t], x, weight);
    }
  }

  // ----- Tree potentials -----

  /** The value the tree walk from the root gives u. */
  ghost function Potential(s: Span, obs: seq<Obs>, u: nat): real
    requires s.Valid() && Usable(obs, s.n) && u in s.order
    decreases if u < |s.depth| then s.depth[u] else 0
  {
    if u == s.r then 0.0 else
      assert Child(u, s.parent[u].value, s.order, s.depth, s.adj);
      Potential(s, obs, s.parent[u].value) + Hop(obs, s.n, s.parent[u].value, u)
  }

  lemma TreeHopTelescopes(s: Span, obs: seq<Obs>, u: nat, v: nat)
    requires s.Valid() && Usable(obs, s.n) && u in s.order && v in s.order && u < s.n && v < s.n && s.TreeHop(u, v)
    ensures Hop(obs, s.n, u, v) == Potential(s, obs, v) - Potential(s, obs, u)
  {
    var c := if s.parent[v] == Some(u) then v else u;
    assert Child(c, s.parent[c].value, s.order, s.depth, s.adj);
    assert u != v;
  }

  // ----- Walks -----

  ghost function WalkSum(obs: seq<Obs>, n: nat, w: seq<nat>, k: nat): real
    requires Usable(obs, n) && k < |w|
  {
    if k == 0 then 0.0 else WalkSum(obs, n, w, k - 1) + Hop(obs, n, w[k - 1], w[k])
  }

  /** The sum around the closed walk w, back from its last node to its first. */
  ghost function ClosedSum(obs: seq<Obs>, n: nat, w: seq<nat>): real
    requires Usable(obs, n) && |w| > 0
  {
    WalkSum(obs, n, w, |w| - 1) + Hop(obs, n, w[|w| - 1], w[0])
  }

  /** x explains the hop u -> v. */
  ghost predicate Explains(x: nat -> real, obs: seq<Obs>, n: nat, u: nat, v: nat)
    requires Usable(obs, n)
  {
    Hop(obs, n, u, v) == x(v) - x(u)
  }

  lemma {:induction false} WalkTelescopes(x: nat -> real, obs: seq<Obs>, n: nat, w: seq<nat>, lo: nat, k: nat)
    requires Usable(obs, n) && lo <= k < |w|
    requires forall i :: lo < i <= k ==> Explains(x, obs, n, w[i - 1], w[i])
    ensures WalkSum(obs, n, w, k) == WalkSum(obs, n, w, lo) + x(w[k]) - x(w[lo])
  {
    if lo < k {
      WalkTelescopes(x, obs, n, w, lo, k - 1);
      assert Explains(x, obs, n, w[k - 1], w[k]);
    }
  }

  // ----- Fundamental cycles -----

  /** Consecutive entries climb the tree from u, one parent at a time. */
  ghost predicate Climbs(s: Span, up: seq<nat>, u: nat) {
    && |up| > 0 && up[0] == u
    && (forall i :: 0 <= i < |up| ==> up[i] < |s.parent| && up[i] < |s.depth| && up[i] in s.order)
    && (forall i :: 0 < i < |up| ==> s.parent[up[i - 1]] == Some(up[i]))
    && (forall i :: 0 <= i < |up| ==> s.depth[up[i]] + i == s.depth[u])
  }

  lemma ClimbOn(s: Span, up: seq<nat>, u: nat)
    requires s.Valid() && u < s.n && Climbs(s, up, u) && s.depth[up[|up| - 1]] > 0
    ensures s.parent[up[|up| - 1]].Some? && Climbs(s, up + [s.parent[up[|up| - 1]].value], u)
  {
    var x := up[|up| - 1];
    HasParent(s, x);
    ClimbExtends(s, up, u, s.parent[x].value);
  }

  lemma HasParent(s: Span, x: nat)
    requires s.Valid() && x in s.order && x < s.n && s.depth[x] > 0
    ensures s.parent[x].Some? && s.parent[x].value in s.order && s.parent[x].value < s.n
    ensures s.depth[x] == s.depth[s.parent[x].value] + 1
  {
    assert Child(x, s.parent[x].value, s.order, s.depth, s.adj);
  }

  lemma ClimbExtends(s: Span, up: seq<nat>, u: nat, y: nat)
    requires Climbs(s, up, u) && s.parent[up[|up| - 1]] == Some(y) && y in s.order && y < |s.parent| && y < |s.depth|
    requires u < |s.depth| && s.depth[y] + 1 == s.depth[up[|up| - 1]]
    ensures Climbs(s, up + [y], u)
  {
  }

  /** Adjacent nodes are at most one level apart. */
  lemma LevelGap(s: Span, u: nat, v: nat)
    requires s.Valid() && u in s.order && v in s.order && u < s.n && v < s.n && v in s.adj[u]
    ensures s.depth[u] <= s.depth[v] + 1 && s.depth[v] <= s.depth[u] + 1
  {
    assert Explored(u, s.order, s.depth, s.adj) && Explored(v, s.order, s.depth, s.adj);
  }

  /** The two climbs meet at most in their last nodes. */
  ghost predicate Apart(up: seq<nat>, vp: seq<nat>) {
    forall i, j :: 0 <= i < |up| && 0 <= j < |vp| && up[i] == vp[j] ==> i == |up| - 1 && j == |vp| - 1
  }

  lemma ApartOn(s: Span, up: seq<nat>, u: nat, vp: seq<nat>, v: nat, x: nat)
    requires Climbs(s, up, u) && Climbs(s, vp, v) && Climbs(s, up + [x], u) && Apart(up, vp)
    requires s.depth[vp[|vp| - 1]] <= s.depth[up[|up| - 1]] <= s.depth[vp[|vp| - 1]] + 1
    requires up[|up| - 1] != vp[|vp| - 1]
    ensures Apart(up + [x], vp) && Apart(vp, up + [x])
  {
    var up' := up + [x];
    assert forall i :: 0 <= i < |up| ==> up'[i] == up[i];
    forall i, j | 0 <= i < |up'| && 0 <= j < |vp| && up'[i] == vp[j]
      ensures i == |up'| - 1 && j == |vp| - 1
    {
      assert s.depth[up'[|up|]] + |up| == s.depth[u] && s.depth[up[|up| - 1]] + (|up| - 1) == s.depth[u];
      assert s.depth[vp[j]] + j == s.depth[v];
    }
  }

  ghost predicate Cycle(s: Span, w: seq<nat>) {
    && |w| >= 3 && Distinct(w)
    && (forall i :: 0 <= i < |w| ==> w[i] in s.order && w[i] < |s.parent|)
    && (forall i :: 1 < i < |w| ==> s.TreeHop(w[i - 1], w[i]))
    && s.TreeHop(w[|w| - 1], w[0])
  }

  /** The closed walk u -> v -> up to the meeting point -> down to u. */
  function CloseWalk(u: nat, up: seq<nat>, vp: seq<nat>): seq<nat>
    requires |up| >= 2
  {
    [u] + vp + seq(|up| - 2, t requires 0 <= t < |up| - 2 => up[|up| - 2 - t])
  }

  lemma CloseWalkIsCycle(s: Span, u: nat, v: nat, up: seq<nat>, vp: seq<nat>)
    requires Climbs(s, up, u) && Climbs(s, vp, v) && Apart(up, vp)
    requires |up| >= 2 && |vp| >= 2 && up[|up| - 1] == vp[|vp| - 1]
    ensures Cycle(s, CloseWalk(u, up, vp))
    ensures CloseWalk(u, up, vp)[..2] == [u, v]
  {
    var w := CloseWalk(u, up, vp);
    CloseWalkAt(u, up, vp, w);
    ClimbDistinct(s, up, u);
    ClimbDistinct(s, vp, v);
    CloseWalkDistinct(u, up, vp, w);
    forall i | 1 < i < |w|
      ensures s.TreeHop(w[i - 1], w[i])
    {
      CloseWalkHops(s, u, v, up, vp, w, i);
    }
    assert w[|w| - 1] == up[1];
    assert s.parent[up[0]] == Some(up[1]);
  }

  /** The two climbs up the tree meet for the first time in their last node. */
  ghost predicate Meet(s: Span, u: nat, v: nat, up: seq<nat>, vp: seq<nat>) {
    && Climbs(s, up, u) && Climbs(s, vp, v) && Apart(up, vp)
    && |up| >= 2 && |vp| >= 2 && up[|up| - 1] == vp[|vp| - 1]
  }

  /** w goes from u to v, up to the node where their climbs meet, and down to u. */
  ghost predicate FundamentalWalk(s: Span, u: nat, v: nat, w: seq<nat>) {
    exists up: seq<nat>, vp: seq<nat> :: Meet(s, u, v, up, vp) && w == CloseWalk(u, up, vp)
  }

  lemma {:induction false} OneClimb(s: Span, up: seq<nat>, up': seq<nat>, u: nat)
    requires Climbs(s, up, u) && Climbs(s, up', u) && |up| <= |up'|
    ensures up == up'[..|up|]
  {
    forall i | 0 <= i < |up|
      ensures up[i] == up'[i]
    {
      SameStep(s, up, up', u, i);
    }
  }

  lemma {:induction false} SameStep(s: Span, up: seq<nat>, up': seq<nat>, u: nat, i: nat)
    requires Climbs(s, up, u) && Climbs(s, up', u) && i < |up| && i < |up'|
    ensures up[i] == up'[i]
  {
    if i > 0 { SameStep(s, up, up', u, i - 1); }
  }

  lemma MeetNoLater(s: Span, u: nat, v: nat, up: seq<nat>, vp: seq<nat>, up': seq<nat>, vp': seq<nat>)
    requires Meet(s, u, v, up, vp) && Meet(s, u, v, up', vp') && |up| <= |up'|
    ensures |up| == |up'| && |vp| == |vp'|
  {
    TopOfClimb(s, up, u);
    TopOfClimb(s, vp, v);
    TopOfClimb(s, up', u);
    TopOfClimb(s, vp', v);
    OneClimb(s, up, up', u);
    if |vp| <= |vp'| {
      OneClimb(s, vp, vp', v);
      assert up'[|up| - 1] == vp'[|vp| - 1];
    } else {
      OneClimb(s, vp', vp, v);
    }
  }

  /** The tree decides the cycle of a pair. */
  lemma OneWalk(s: Span, u: nat, v: nat, w: seq<nat>, w': seq<nat>)
    requires FundamentalWalk(s, u, v, w) && FundamentalWalk(s, u, v, w')
    ensures w == w'
  {
    var up: seq<nat>, vp: seq<nat> :| Meet(s, u, v, up, vp) && w == CloseWalk(u, up, vp);
    var up': seq<nat>, vp': seq<nat> :| Meet(s, u, v, up', vp') && w' == CloseWalk(u, up', vp');
    OneMeeting(s, u, v, up, vp, up', vp');
  }

  lemma OneMeeting(s: Span, u: nat, v: nat, up: seq<nat>, vp: seq<nat>, up': seq<nat>, vp': seq<nat>)
    requires Meet(s, u, v, up, vp) && Meet(s, u, v, up', vp')
    ensures up == up' && vp == vp'
  {
    if |up| <= |up'| {
      MeetNoLater(s, u, v, up, vp, up', vp');
    } else {
      MeetNoLater(s, u, v, up', vp', up, vp);
    }
    OneClimb(s, up, up', u);
    OneClimb(s, vp, vp', v);
  }

  /** The walk, position by position. */
  ghost predicate WalkPositions(u: nat, up: seq<nat>, vp: seq<nat>, w: seq<nat>) {
    && |up| >= 2 && |w| == |vp| + |up| - 1 && w[0] == u
    && (forall i :: 1 <= i <= |vp| ==> w[i] == vp[i - 1])
    && (forall i :: |vp| < i < |w| ==> w[i] == up[|up| - 1 - (i - |vp|)])
  }

  lemma CloseWalkAt(u: nat, up: seq<nat>, vp: seq<nat>, w: seq<nat>)
    requires |up| >= 2 && w == CloseWalk(u, up, vp)
    ensures WalkPositions(u, up, vp, w)
  {
  }

  lemma CloseWalkHops(s: Span, u: nat, v: nat, up: seq<nat>, vp: seq<nat>, w: seq<nat>, i: nat)
    requires Climbs(s, up, u) && Climbs(s, vp, v) && WalkPositions(u, up, vp, w) && up[|up| - 1] == vp[|vp| - 1]
    requires 1 < i < |w|
    ensures w[i - 1] < |s.parent| && w[i] < |s.parent| && s.TreeHop(w[i - 1], w[i])
  {
    if i <= |vp| {
      assert s.parent[vp[i - 2]] == Some(vp[i - 1]);
    } else {
      var j := |up| - 1 - (i - |vp|);
      assert w[i] == up[j] && w[i - 1] == up[j + 1];
      assert s.parent[up[j]] == Some(up[j + 1]);
    }
  }

  lemma ClimbDistinct(s: Span, up: seq<nat>, u: nat)
    requires Climbs(s, up, u)
    ensures Distinct(up)
  {
    forall i, j | 0 <= i < j < |up|
      ensures up[i] != up[j]
    {
      assert s.depth[up[i]] + i == s.depth[u] && s.depth[up[j]] + j == s.depth[u];
    }
  }

  lemma CloseWalkDistinct(u: nat, up: seq<nat>, vp: seq<nat>, w: seq<nat>)
    requires |up| >= 2 && |vp| >= 2 && up[0] == u && Distinct(up) && Distinct(vp) && Apart(up, vp)
    requires WalkPositions(u, up, vp, w)
    ensures Distinct(w)
  {
    forall i, j | 0 <= i < j < |w|
      ensures w[i] != w[j]
    {
      if j <= |vp| {
        if i == 0 { assert up[0] != vp[j - 1]; }
      } else {
        var q := |up| - 1 - (j - |vp|);
        assert w[j] == up[q] && 0 < q < |up| - 1;
        if i == 0 {
          assert up[0] != up[q];
        } else if i <= |vp| {
          assert up[q] != vp[i - 1];
        } else {
          assert up[q] != up[|up| - 1 - (i - |vp|)];
        }
      }
    }
  }

  /** Climb from both ends of a non-tree pair to their lowest common ancestor and close the walk. */
  method FundamentalCycle(s: Span, u: nat, v: nat) returns (w: seq<nat>)
    requires s.Valid() && u in s.order && v in s.order && u < s.n && v < s.n
    requires v in s.adj[u] && !s.TreeHop(u, v)
    ensures Cycle(s, w) && w[..2] == [u, v] && FundamentalWalk(s, u, v, w)
  {
    StartClimbing(s, u, v);
    var x, y := u, v;
    var up, vp: seq<nat> := [u], [v];
    while x != y
      invariant Climbing(s, u, v, up, vp, x, y)
      decreases s.depth[x] + s.depth[y]
    {
      if s.depth[x] >= s.depth[y] {
        ClimbLeft(s, u, v, up, vp, x, y);
        x := s.parent[x].value;
        up := up + [x];
      } else {
        ClimbRight(s, u, v, up, vp, x, y);
        y := s.parent[y].value;
        vp := vp + [y];
      }
    }
    BothClimbed(s, u, v, up, vp);
    w := CloseWalk(u, up, vp);
    CloseWalkIsCycle(s, u, v, up, vp);
    assert Meet(s, u, v, up, vp);
  }

  lemma StartClimbing(s: Span, u: nat, v: nat)
    requires s.Valid() && u in s.order && v in s.order && u < s.n && v < s.n && v in s.adj[u]
    ensures u != v && Climbing(s, u, v, [u], [v], u, v)
  {
    LevelGap(s, u, v);
  }

  /** Both climbs, still apart and within one level of each other. */
  ghost predicate Climbing(s: Span, u: nat, v: nat, up: seq<nat>, vp: seq<nat>, x: nat, y: nat) {
    && x in s.order && y in s.order && x < |s.depth| && y < |s.depth|
    && Climbs(s, up, u) && Climbs(s, vp, v) && Apart(up, vp) && Apart(vp, up)
    && up[|up| - 1] == x && vp[|vp| - 1] == y
    && s.depth[x] <= s.depth[y] + 1 && s.depth[y] <= s.depth[x] + 1
  }

  lemma ClimbLeft(s: Span, u: nat, v: nat, up: seq<nat>, vp: seq<nat>, x: nat, y: nat)
    requires s.Valid() && u < s.n && Climbing(s, u, v, up, vp, x, y) && x != y && s.depth[x] >= s.depth[y]
    ensures s.parent[x].Some? && s.parent[x].value < s.n && s.depth[x] == s.depth[s.parent[x].value] + 1
    ensures Climbing(s, u, v, up + [s.parent[x].value], vp, s.parent[x].value, y)
  {
    RootOnly(s, x, y);
    ClimbOn(s, up, u);
    var x' := s.parent[x].value;
    assert Child(x, x', s.order, s.depth, s.adj);
    ApartOn(s, up, u, vp, v, x');
  }

  lemma ClimbRight(s: Span, u: nat, v: nat, up: seq<nat>, vp: seq<nat>, x: nat, y: nat)
    requires s.Valid() && v < s.n && Climbing(s, u, v, up, vp, x, y) && s.depth[x] < s.depth[y]
    ensures s.parent[y].Some? && s.parent[y].value < s.n && s.depth[y] == s.depth[s.parent[y].value] + 1
    ensures Climbing(s, u, v, up, vp + [s.parent[y].value], x, s.parent[y].value)
  {
    ClimbOn(s, vp, v);
    var y' := s.parent[y].value;
    assert Child(y, y', s.order, s.depth, s.adj);
    ApartOn(s, vp, v, up, u, y');
  }

  /** Only the root has depth zero. */
  lemma RootOnly(s: Span, x: nat, y: nat)
    requires s.Valid() && x in s.order && y in s.order && x < s.n && y < s.n && x != y
    requires s.depth[x] >= s.depth[y]
    ensures s.depth[x] > 0
  {
    if x != s.r { assert Child(x, s.parent[x].value, s.order, s.depth, s.adj); }
    if y != s.r { assert Child(y, s.parent[y].value, s.order, s.depth, s.adj); }
  }

  lemma BothClimbed(s: Span, u: nat, v: nat, up: seq<nat>, vp: seq<nat>)
    requires s.Valid() && u in s.order && v in s.order && u < s.n && v < s.n && v in s.adj[u] && u != v
    requires !s.TreeHop(u, v)
    requires Climbs(s, up, u) && Climbs(s, vp, v) && up[|up| - 1] == vp[|vp| - 1]
    ensures |up| >= 2 && |vp| >= 2
  {
    LevelGap(s, u, v);
    TopOfClimb(s, up, u);
    TopOfClimb(s, vp, v);
  }

  lemma TopOfClimb(s: Span, up: seq<nat>, u: nat)
    requires Climbs(s, up, u)
    ensures s.depth[up[|up| - 1]] + (|up| - 1) == s.depth[u]
    ensures |up| >= 2 ==> s.parent[u] == Some(up[1])
  {
  }

  // ----- The list of cycles -----

  /** A closed walk, what the measurements sum to around it, and the variance of that sum. */
  datatype CycleDefect = CycleDefect(nodes: seq<nat>, offset: real, variance: real)

  /** Every node of the order but the first has its parent before it. */
  ghost predicate Grown(order: seq<nat>, parent: seq<Option<nat>>) {
    && |order| > 0 && Distinct(order)
    && (forall i :: 0 <= i < |order| ==> order[i] < |parent|)
    && (forall k :: 1 <= k < |order| ==> parent[order[k]].Some? && parent[order[k]].value in order[..k])
  }

  lemma SpanIsGrown(s: Span)
    requires s.Valid()
    ensures Grown(s.order, s.parent)
  {
    forall k | 1 <= k < |s.order|
      ensures s.parent[s.order[k]].Some? && s.parent[s.order[k]].value in s.order[..k]
    {
      ParentEarlier(s, k);
    }
  }

  /** A parent comes before its children, since depths never fall along the order. */
  lemma ParentEarlier(s: Span, k: nat)
    requires s.Valid() && 1 <= k < |s.order|
    ensures s.parent[s.order[k]].Some? && s.parent[s.order[k]].value in s.order[..k]
  {
    var u := s.order[k];
    assert u in s.order && u != s.r;
    assert Child(u, s.parent[u].value, s.order, s.depth, s.adj);
    var i :| 0 <= i < |s.order| && s.order[i] == s.parent[u].value;
    assert Rising(s.order, s.depth);
    assert i < k;
    assert s.order[..k][i] == s.order[i];
  }

  /** The pairs joining the first k nodes of the order, the root apart, to their parents. */
  ghost function TreeKeys(order: seq<nat>, parent: seq<Option<nat>>, k: nat): set<(nat, nat)>
    requires Grown(order, parent) && 1 <= k <= |order|
  {
    if k == 1 then {} else
      TreeKeys(order, parent, k - 1) + {Key(order[k - 1], parent[order[k - 1]].value)}
  }

  /** e joins some node of the order, not the first, to its parent. */
  ghost predicate JoinsParent(order: seq<nat>, parent: seq<Option<nat>>, e: (nat, nat), k: nat) {
    exists i :: 1 <= i < k && i < |order| && order[i] < |parent| && parent[order[i]].Some?
        && e == Key(order[i], parent[order[i]].value)
  }

  lemma {:induction false} TreeKeysExact(order: seq<nat>, parent: seq<Option<nat>>, k: nat, e: (nat, nat))
    requires Grown(order, parent) && 1 <= k <= |order|
    ensures e in TreeKeys(order, parent, k) <==> JoinsParent(order, parent, e, k)
  {
    if k > 1 {
      TreeKeysExact(order, parent, k - 1, e);
      OneMoreJoined(order, parent, e, k - 1);
    }
  }

  lemma OneMoreJoined(order: seq<nat>, parent: seq<Option<nat>>, e: (nat, nat), k: nat)
    requires Grown(order, parent) && 1 <= k < |order|
    ensures order[k] < |parent| && parent[order[k]].Some?
    ensures JoinsParent(order, parent, e, k + 1)
       <==> JoinsParent(order, parent, e, k) || e == Key(order[k], parent[order[k]].value)
  {
  }

  lemma {:induction false} TreeKeysCount(order: seq<nat>, parent: seq<Option<nat>>, k: nat)
    requires Grown(order, parent) && 1 <= k <= |order|
    ensures |TreeKeys(order, parent, k)| == k - 1
  {
    if k > 1 {
      TreeKeysCount(order, parent, k - 1);
      NewKey(order, parent, k - 1);
      TreeKeysExact(order, parent, k - 1, Key(order[k - 1], parent[order[k - 1]].value));
      OneMoreKey(TreeKeys(order, parent, k - 1), Key(order[k - 1], parent[order[k - 1]].value));
    }
  }

  lemma OneMoreKey(keys: set<(nat, nat)>, e: (nat, nat))
    requires e !in keys
    ensures |keys + {e}| == |keys| + 1
  {
  }

  /** A node's edge to its parent is not an edge of an earlier node to its own. */
  lemma NewKey(order: seq<nat>, parent: seq<Option<nat>>, k: nat)
    requires Grown(order, parent) && 1 <= k < |order|
    ensures !JoinsParent(order, parent, Key(order[k], parent[order[k]].value), k)
  {
    forall i | 1 <= i < k
      ensures Key(order[k], parent[order[k]].value) != Key(order[i], parent[order[i]].value)
    {
      var j :| 0 <= j < i && order[..i][j] == parent[order[i]].value;
      assert order[j] != order[k] && order[i] != order[k];
    }
  }

  /** A measured pair is a tree edge exactly when it is listed. */
  lemma TreeHopListed(s: Span, u: nat, v: nat)
    requires s.Valid() && u < s.n && v < s.n && u in s.order && v in s.order && u < v
    ensures s.TreeHop(u, v) <==> JoinsParent(s.order, s.parent, (u, v), |s.order|)
  {
    if s.TreeHop(u, v) {
      var c := if s.parent[v] == Some(u) then v else u;
      var i :| 0 <= i < |s.order| && s.order[i] == c;
      assert i != 0;
    }
  }

  /** Every tree edge is a merged pair. */
  lemma TreeEdgeMeasured(s: Span, obs: seq<Obs>, i: nat)
    requires Measures(s, obs) && 1 <= i < |s.order|
    ensures s.parent[s.order[i]].Some? && s.parent[s.order[i]].value != s.order[i]
    ensures Joined(obs, s.parent[s.order[i]].value, s.order[i])
  {
    var u := s.order[i];
    assert u in s.order && u != s.r;
    assert Child(u, s.parent[u].value, s.order, s.depth, s.adj);
  }

  lemma TreeKeysMeasured(s: Span, obs: seq<Obs>, pairs: map<(nat, nat), Pair>)
    requires Measures(s, obs) && Merged(pairs, obs, s.n, |obs|) && Grown(s.order, s.parent)
    ensures TreeKeys(s.order, s.parent, |s.order|) <= pairs.Keys
  {
    forall e | e in TreeKeys(s.order, s.parent, |s.order|)
      ensures e in pairs
    {
      TreeKeysExact(s.order, s.parent, |s.order|, e);
      TreeKeyMeasured(s, obs, pairs, e);
    }
  }

  lemma TreeKeyMeasured(s: Span, obs: seq<Obs>, pairs: map<(nat, nat), Pair>, e: (nat, nat))
    requires Measures(s, obs) && Merged(pairs, obs, s.n, |obs|) && JoinsParent(s.order, s.parent, e, |s.order|)
    ensures e in pairs
  {
    var i, p := JoinedNode(s.order, s.parent, e);
    TreeEdgeMeasured(s, obs, i);
    PairOf(obs, s.n, pairs, p, s.order[i]);
  }

  lemma JoinedNode(order: seq<nat>, parent: seq<Option<nat>>, e: (nat, nat)) returns (i: nat, p: nat)
    requires JoinsParent(order, parent, e, |order|)
    ensures 1 <= i < |order| && order[i] < |parent| && parent[order[i]] == Some(p) && e == Key(p, order[i])
  {
    i :| 1 <= i < |order| && order[i] < |parent| && parent[order[i]].Some?
         && e == Key(order[i], parent[order[i]].value);
    p := parent[order[i]].value;
  }

  lemma {:induction false} KeyCount(keys: seq<(nat, nat)>, all: set<(nat, nat)>)
    requires Distinct(keys) && forall k :: k in keys <==> k in all
    ensures |keys| == |all|
  {
    if |keys| == 0 {
      assert all == {};
    } else {
      var last, rest := keys[|keys| - 1], keys[..|keys| - 1];
      assert keys == rest + [last];
      KeyCount(rest, all - {last});
    }
  }

  /** cycles[i] is the fundamental cycle of the non-tree pair keys[i], with its holonomy. */
  ghost predicate Listing(s: Span, obs: seq<Obs>, cycles: seq<CycleDefect>, keys: seq<(nat, nat)>)
    requires Usable(obs, s.n)
  {
    && |cycles| == |keys| && Distinct(keys)
    && (forall i :: 0 <= i < |cycles| ==>
          && Cycle(s, cycles[i].nodes) && cycles[i].nodes[..2] == [keys[i].0, keys[i].1]
          && cycles[i].offset == ClosedSum(obs, s.n, cycles[i].nodes)
          && cycles[i].variance == ClosedVariance(obs, s.n, cycles[i].nodes))
  }

  /** The node after w[i] around the closed walk. */
  function Next(w: seq<nat>, i: nat): nat
    requires i < |w|
  {
    if i + 1 < |w| then w[i + 1] else w[0]
  }

  ghost predicate Walkable(obs: seq<Obs>, w: seq<nat>) {
    |w| > 0 && forall i :: 0 <= i < |w| ==> w[i] != Next(w, i) && Joined(obs, w[i], Next(w, i))
  }

  /** The stored pair, read in the direction of the hop. */
  function Read(pairs: map<(nat, nat), Pair>, a: nat, b: nat): real
    requires Key(a, b) in pairs && pairs[Key(a, b)].w != 0.0
  {
    var p := pairs[Key(a, b)];
    if a < b then p.sum / p.w else -(p.sum / p.w)
  }

  lemma ReadIsHop(obs: seq<Obs>, n: nat, pairs: map<(nat, nat), Pair>, a: nat, b: nat)
    requires Usable(obs, n) && Merged(pairs, obs, n, |obs|) && a != b && Joined(obs, a, b)
    ensures Key(a, b) in pairs && pairs[Key(a, b)].w != 0.0
    ensures Read(pairs, a, b) == Hop(obs, n, a, b)
    ensures 1.0 / pairs[Key(a, b)].w == HopVariance(obs, n, a, b) > 0.0
  {
    assert obs[..|obs|] == obs;
    var e := Key(a, b);
    assert Joined(obs, e.0, e.1);
    JoinedWeight(obs, n, e.0, e.1);
  }

  /** The variance of the merged measurement of the pair u, v. */
  ghost function HopVariance(obs: seq<Obs>, n: nat, u: nat, v: nat): real
    requires Usable(obs, n)
  {
    var w := PairWeight(obs, WeightsOf(obs, n), |obs|, Key(u, v).0, Key(u, v).1);
    if w == 0.0 then 0.0 else 1.0 / w
  }

  ghost function Total(v: Vec, k: nat): real
    requires k <= |v|
  {
    if k == 0 then 0.0 else Total(v, k - 1) + v[k - 1]
  }

  /** The merged measurements around the closed walk w, the last one back to its first node. */
  ghost function Hops(obs: seq<Obs>, n: nat, w: seq<nat>): (h: Vec)
    requires Usable(obs, n)
    ensures |h| == |w| && forall i :: 0 <= i < |w| ==> IsHop(obs, n, w[i], Next(w, i), h[i])
  {
    seq(|w|, i requires 0 <= i < |w| => Hop(obs, n, w[i], Next(w, i)))
  }

  ghost function Variances(obs: seq<Obs>, n: nat, w: seq<nat>): (h: Vec)
    requires Usable(obs, n)
    ensures |h| == |w| && forall i :: 0 <= i < |w| ==> h[i] == HopVariance(obs, n, w[i], Next(w, i))
  {
    seq(|w|, i requires 0 <= i < |w| => HopVariance(obs, n, w[i], Next(w, i)))
  }

  /** The variance of the sum around the closed walk w. */
  ghost function ClosedVariance(obs: seq<Obs>, n: nat, w: seq<nat>): real
    requires Usable(obs, n)
  {
    Total(Variances(obs, n, w), |w|)
  }

  ghost predicate IsHop(obs: seq<Obs>, n: nat, u: nat, v: nat, h: real)
    requires Usable(obs, n)
  {
    h == Hop(obs, n, u, v)
  }

  lemma {:induction false} TotalIsWalkSum(obs: seq<Obs>, n: nat, w: seq<nat>, h: Vec, k: nat)
    requires Usable(obs, n) && k < |w| == |h| && forall i :: 0 <= i < |w| ==> IsHop(obs, n, w[i], Next(w, i), h[i])
    ensures Total(h, k) == WalkSum(obs, n, w, k)
  {
    if k > 0 {
      TotalIsWalkSum(obs, n, w, h, k - 1);
      assert IsHop(obs, n, w[k - 1], w[k], h[k - 1]);
    }
  }

  lemma TotalIsClosedSum(obs: seq<Obs>, n: nat, w: seq<nat>, h: Vec)
    requires Usable(obs, n) && |w| == |h| > 0 && forall i :: 0 <= i < |w| ==> IsHop(obs, n, w[i], Next(w, i), h[i])
    ensures Total(h, |w|) == ClosedSum(obs, n, w)
  {
    TotalIsWalkSum(obs, n, w, h, |w| - 1);
    assert IsHop(obs, n, w[|w| - 1], w[0], h[|w| - 1]);
  }

  /** Reading the stored pair along a -> b gives this hop and this variance. */
  ghost predicate Leg(pairs: map<(nat, nat), Pair>, a: nat, b: nat, hop: real, variance: real) {
    && Key(a, b) in pairs && pairs[Key(a, b)].w != 0.0
    && Read(pairs, a, b) == hop && 1.0 / pairs[Key(a, b)].w == variance
  }

  ghost predicate Legs(pairs: map<(nat, nat), Pair>, w: seq<nat>, hops: Vec, variances: Vec) {
    && |hops| == |w| == |variances|
    && forall i :: 0 <= i < |w| ==> Leg(pairs, w[i], Next(w, i), hops[i], variances[i])
  }

  lemma WalkHasLegs(obs: seq<Obs>, n: nat, pairs: map<(nat, nat), Pair>, w: seq<nat>)
    requires Usable(obs, n) && Merged(pairs, obs, n, |obs|) && Walkable(obs, w)
    ensures Legs(pairs, w, Hops(obs, n, w), Variances(obs, n, w))
  {
    forall i | 0 <= i < |w|
      ensures Leg(pairs, w[i], Next(w, i), Hop(obs, n, w[i], Next(w, i)), HopVariance(obs, n, w[i], Next(w, i)))
    {
      ReadIsHop(obs, n, pairs, w[i], Next(w, i));
    }
  }

  /** Walk a cycle and sum the merged measurements and their variances. */
  method Holonomy(ghost obs: seq<Obs>, ghost n: nat, pairs: map<(nat, nat), Pair>, w: seq<nat>)
    returns (o: real, variance: real)
    requires Usable(obs, n) && Merged(pairs, obs, n, |obs|) && Walkable(obs, w)
    ensures o == ClosedSum(obs, n, w) && variance == ClosedVariance(obs, n, w)
  {
    WalkHasLegs(obs, n, pairs, w);
    o, variance := SumLegs(pairs, w, Hops(obs, n, w), Variances(obs, n, w));
    TotalIsClosedSum(obs, n, w, Hops(obs, n, w));
  }

  method SumLegs(pairs: map<(nat, nat), Pair>, w: seq<nat>, ghost hops: Vec, ghost variances: Vec)
    returns (o: real, variance: real)
    requires Legs(pairs, w, hops, variances)
    ensures o == Total(hops, |w|) && variance == Total(variances, |w|)
  {
    o, variance := 0.0, 0.0;
    for i := 0 to |w|
      invariant o == Total(hops, i) && variance == Total(variances, i)
    {
      var a, b := w[i], Next(w, i);
      assert Leg(pairs, a, b, hops[i], variances[i]);
      o := o + Read(pairs, a, b);
      variance := variance + 1.0 / pairs[Key(a, b)].w;
    }
  }

  /** A tree edge is a measured pair. */
  lemma TreeHopMeasured(s: Span, obs: seq<Obs>, a: nat, b: nat)
    requires Measures(s, obs) && a in s.order && b in s.order && a < s.n && b < s.n && s.TreeHop(a, b)
    ensures a != b && Joined(obs, a, b)
  {
    var c := if s.parent[b] == Some(a) then b else a;
    assert Child(c, s.parent[c].value, s.order, s.depth, s.adj);
    assert b in s.adj[a];
  }

  /** Every hop of a cycle is a merged pair. */
  lemma CycleIsMeasured(s: Span, obs: seq<Obs>, w: seq<nat>)
    requires Measures(s, obs) && Cycle(s, w) && w[0] != w[1] && Joined(obs, w[0], w[1])
    ensures Walkable(obs, w)
  {
    forall i | 0 <= i < |w|
      ensures w[i] != Next(w, i) && Joined(obs, w[i], Next(w, i))
    {
      if i > 0 { HopMeasured(s, obs, w, i); }
    }
  }

  lemma HopMeasured(s: Span, obs: seq<Obs>, w: seq<nat>, i: nat)
    requires Measures(s, obs) && Cycle(s, w) && 0 < i < |w|
    ensures w[i] != Next(w, i) && Joined(obs, w[i], Next(w, i))
  {
    CycleHop(s, w, i);
    TreeHopMeasured(s, obs, w[i], Next(w, i));
  }

  lemma CycleHop(s: Span, w: seq<nat>, i: nat)
    requires Cycle(s, w) && 0 < i < |w|
    ensures w[i] in s.order && Next(w, i) in s.order && w[i] < |s.parent| && Next(w, i) < |s.parent|
    ensures s.TreeHop(w[i], Next(w, i))
  {
    if i + 1 < |w| { assert s.TreeHop(w[i + 1 - 1], w[i + 1]); }
  }

  /** The key of a non-tree pair. */
  ghost predicate Chord(s: Span, pairs: map<(nat, nat), Pair>, k: (nat, nat)) {
    k in pairs && k.0 < |s.parent| && k.1 < |s.parent| && !s.TreeHop(k.0, k.1)
  }

  lemma ListingExtends(s: Span, obs: seq<Obs>, cycles: seq<CycleDefect>, keys: seq<(nat, nat)>, c: CycleDefect,
                       key: (nat, nat))
    requires Usable(obs, s.n) && Listing(s, obs, cycles, keys) && key !in keys
    requires Cycle(s, c.nodes) && c.nodes[..2] == [key.0, key.1]
    requires c.offset == ClosedSum(obs, s.n, c.nodes) && c.variance == ClosedVariance(obs, s.n, c.nodes)
    ensures Listing(s, obs, cycles + [c], keys + [key])
  {
  }

  /** The cycle of one non-tree pair. */
  method CycleOf(s: Span, obs: seq<Obs>, pairs: map<(nat, nat), Pair>, u: nat, v: nat) returns (c: CycleDefect)
    requires Measures(s, obs) && Merged(pairs, obs, s.n, |obs|) && Chord(s, pairs, (u, v))
    ensures Cycle(s, c.nodes) && c.nodes[..2] == [u, v] && FundamentalWalk(s, u, v, c.nodes)
    ensures c.offset == ClosedSum(obs, s.n, c.nodes) && c.variance == ClosedVariance(obs, s.n, c.nodes)
  {
    PairInside(s, obs, pairs, u, v);
    var w := FundamentalCycle(s, u, v);
    assert w[0] == w[..2][0] && w[1] == w[..2][1];
    CycleIsMeasured(s, obs, w);
    var o, variance := Holonomy(obs, s.n, pairs, w);
    c := CycleDefect(w, o, variance);
  }

  /** The non-tree pairs that come before (u, v). */
  ghost predicate KeysUpTo(s: Span, pairs: map<(nat, nat), Pair>, keys: seq<(nat, nat)>, u: nat, v: nat) {
    forall k: (nat, nat) :: k in keys <==> Chord(s, pairs, k) && (k.0 < u || (k.0 == u && k.1 < v))
  }

  lemma KeysExtend(s: Span, pairs: map<(nat, nat), Pair>, keys: seq<(nat, nat)>, u: nat, v: nat)
    requires KeysUpTo(s, pairs, keys, u, v) && Chord(s, pairs, (u, v))
    ensures (u, v) !in keys && KeysUpTo(s, pairs, keys + [(u, v)], u, v + 1)
  {
  }

  lemma KeysSkip(s: Span, pairs: map<(nat, nat), Pair>, keys: seq<(nat, nat)>, u: nat, v: nat)
    requires KeysUpTo(s, pairs, keys, u, v) && !Chord(s, pairs, (u, v))
    ensures KeysUpTo(s, pairs, keys, u, v + 1)
  {
  }

  predicate Before(k: (nat, nat), l: (nat, nat)) {
    k.0 < l.0 || (k.0 == l.0 && k.1 < l.1)
  }

  /** The cycles are those the tree decides, in the ascending order of their pairs. */
  ghost predicate Traversed(s: Span, cycles: seq<CycleDefect>, keys: seq<(nat, nat)>) {
    && |cycles| == |keys|
    && (forall i :: 0 <= i < |keys| ==> FundamentalWalk(s, keys[i].0, keys[i].1, cycles[i].nodes))
    && Ascending(keys, Before)
  }

  lemma TraversedExtends(s: Span, pairs: map<(nat, nat), Pair>, cycles: seq<CycleDefect>, keys: seq<(nat, nat)>,
                         c: CycleDefect, u: nat, v: nat)
    requires Traversed(s, cycles, keys) && KeysUpTo(s, pairs, keys, u, v) && FundamentalWalk(s, u, v, c.nodes)
    ensures Traversed(s, cycles + [c], keys + [(u, v)])
  {
    forall i | 0 <= i < |keys|
      ensures Before(keys[i], (u, v))
    {
      assert keys[i] in keys;
    }
  }

  /** The fundamental cycles: one for every measured pair that is not a tree edge. */
  method FindCycles(s: Span, obs: seq<Obs>, pairs: map<(nat, nat), Pair>)
    returns (cycles: seq<CycleDefect>, ghost keys: seq<(nat, nat)>)
    requires Measures(s, obs) && Merged(pairs, obs, s.n, |obs|)
    ensures Listing(s, obs, cycles, keys) && Traversed(s, cycles, keys)
    ensures forall k: (nat, nat) :: k in keys <==> Chord(s, pairs, k)
  {
    cycles, keys := [], [];
    for u: nat := 0 to s.n
      invariant Listing(s, obs, cycles, keys) && Traversed(s, cycles, keys)
      invariant KeysUpTo(s, pairs, keys, u, 0)
    {
      for v: nat := 0 to s.n
        invariant Listing(s, obs, cycles, keys) && Traversed(s, cycles, keys)
        invariant KeysUpTo(s, pairs, keys, u, v)
      {
        if (u, v) in pairs && !s.TreeHop(u, v) {
          var c := CycleOf(s, obs, pairs, u, v);
          TraversedExtends(s, pairs, cycles, keys, c, u, v);
          KeysExtend(s, pairs, keys, u, v);
          ListingExtends(s, obs, cycles, keys, c, (u, v));
          cycles, keys := cycles + [c], keys + [(u, v)];
        } else {
          KeysSkip(s, pairs, keys, u, v);
        }
      }
    }
  }

  lemma PairInside(s: Span, obs: seq<Obs>, pairs: map<(nat, nat), Pair>, u: nat, v: nat)
    requires Measures(s, obs) && Merged(pairs, obs, s.n, |obs|) && (u, v) in pairs
    ensures u in s.order && v in s.order && u < s.n && v < s.n && v in s.adj[u] && u < v && Joined(obs, u, v)
  {
    assert obs[..|obs|] == obs;
    assert Joined(obs, u, v);
  }

  /** There are exactly pairs - members + 1 of them. */
  lemma CycleCount(s: Span, obs: seq<Obs>, pairs: map<(nat, nat), Pair>, keys: seq<(nat, nat)>)
    requires Measures(s, obs) && Merged(pairs, obs, s.n, |obs|) && Distinct(keys)
    requires forall k: (nat, nat) :: k in keys <==> Chord(s, pairs, k)
    ensures |keys| == |pairs| - |s.order| + 1
  {
    SpanIsGrown(s);
    var tree := TreeKeys(s.order, s.parent, |s.order|);
    TreeKeysCount(s.order, s.parent, |s.order|);
    TreeKeysMeasured(s, obs, pairs);
    forall k: (nat, nat)
      ensures k in keys <==> k in pairs.Keys && k !in tree
    {
      if k in pairs { ChordOffTree(s, obs, pairs, k); }
    }
    KeysOffTree(keys, pairs.Keys, tree);
  }

  lemma KeysOffTree(keys: seq<(nat, nat)>, all: set<(nat, nat)>, tree: set<(nat, nat)>)
    requires Distinct(keys) && tree <= all && forall k :: k in keys <==> k in all && k !in tree
    ensures |keys| == |all| - |tree|
  {
    KeyCount(keys, all - tree);
    assert all == (all - tree) + tree;
  }

  /** A measured pair is a chord when it is not a tree edge. */
  lemma ChordOffTree(s: Span, obs: seq<Obs>, pairs: map<(nat, nat), Pair>, k: (nat, nat))
    requires Measures(s, obs) && Merged(pairs, obs, s.n, |obs|) && k in pairs && Grown(s.order, s.parent)
    ensures Chord(s, pairs, k) <==> k !in TreeKeys(s.order, s.parent, |s.order|)
  {
    PairInside(s, obs, pairs, k.0, k.1);
    TreeHopListed(s, k.0, k.1);
    TreeKeysExact(s.order, s.parent, |s.order|, k);
  }

  // ----- What the cycles say -----

  ghost function TreeValues(s: Span, obs: seq<Obs>): nat -> real
    requires s.Valid() && Usable(obs, s.n)
  {
    i => if i in s.order then Potential(s, obs, i) else 0.0
  }

  /** The holonomy of a cycle is how far its non-tree pair is from the tree values. */
  lemma CycleHolonomy(s: Span, obs: seq<Obs>, w: seq<nat>)
    requires s.Valid() && Usable(obs, s.n) && Cycle(s, w)
    ensures ClosedSum(obs, s.n, w) == Hop(obs, s.n, w[0], w[1]) - (TreeValues(s, obs)(w[1]) - TreeValues(s, obs)(w[0]))
  {
    var x := TreeValues(s, obs);
    forall i | 1 < i <= |w| - 1
      ensures Explains(x, obs, s.n, w[i - 1], w[i])
    {
      TreeHopTelescopes(s, obs, w[i - 1], w[i]);
    }
    WalkTelescopes(x, obs, s.n, w, 1, |w| - 1);
    TreeHopTelescopes(s, obs, w[|w| - 1], w[0]);
    assert WalkSum(obs, s.n, w, 1) == WalkSum(obs, s.n, w, 0) + Hop(obs, s.n, w[0], w[1]);
  }

  ghost predicate Consistent(s: Span, obs: seq<Obs>, x: nat -> real)
    requires Usable(obs, s.n)
  {
    forall u, v :: u in s.order && v in s.order && Joined(obs, u, v) ==> Explains(x, obs, s.n, u, v)
  }

  /** A closed walk of measured pairs. */
  ghost predicate ClosedWalk(s: Span, obs: seq<Obs>, w: seq<nat>) {
    && |w| > 0
    && (forall i :: 0 <= i < |w| ==> w[i] in s.order)
    && (forall i :: 0 < i < |w| ==> Joined(obs, w[i - 1], w[i]))
    && Joined(obs, w[|w| - 1], w[0])
  }

  lemma ConsistentWalk(s: Span, obs: seq<Obs>, x: nat -> real, w: seq<nat>)
    requires Usable(obs, s.n) && Consistent(s, obs, x) && ClosedWalk(s, obs, w)
    ensures ClosedSum(obs, s.n, w) == 0.0
  {
    WalkTelescopes(x, obs, s.n, w, 0, |w| - 1);
    assert Explains(x, obs, s.n, w[|w| - 1], w[0]);
  }

  lemma HopReversed(obs: seq<Obs>, n: nat, u: nat, v: nat)
    requires Usable(obs, n) && u != v
    ensures Hop(obs, n, u, v) == -Hop(obs, n, v, u)
  {
  }

  ghost predicate Quiet(cycles: seq<CycleDefect>) {
    forall i :: 0 <= i < |cycles| ==> cycles[i].offset == 0.0
  }

  lemma QuietChord(s: Span, obs: seq<Obs>, cycles: seq<CycleDefect>, keys: seq<(nat, nat)>, i: nat)
    requires s.Valid() && Usable(obs, s.n) && Listing(s, obs, cycles, keys) && Quiet(cycles) && i < |cycles|
    ensures Explains(TreeValues(s, obs), obs, s.n, keys[i].0, keys[i].1)
  {
    var w := cycles[i].nodes;
    CycleHolonomy(s, obs, w);
    assert w[..2][0] == w[0] && w[..2][1] == w[1];
  }

  lemma ExplainsReversed(x: nat -> real, obs: seq<Obs>, n: nat, u: nat, v: nat)
    requires Usable(obs, n) && u != v && Explains(x, obs, n, u, v)
    ensures Explains(x, obs, n, v, u)
  {
    HopReversed(obs, n, u, v);
  }

  lemma QuietPair(s: Span, obs: seq<Obs>, pairs: map<(nat, nat), Pair>, cycles: seq<CycleDefect>, keys: seq<(nat, nat)>,
                  e: (nat, nat))
    requires Measures(s, obs) && Merged(pairs, obs, s.n, |obs|) && Listing(s, obs, cycles, keys)
    requires forall k: (nat, nat) :: k in keys <==> Chord(s, pairs, k)
    requires Quiet(cycles) && e in pairs
    ensures Explains(TreeValues(s, obs), obs, s.n, e.0, e.1)
  {
    PairInside(s, obs, pairs, e.0, e.1);
    if s.TreeHop(e.0, e.1) {
      TreeHopTelescopes(s, obs, e.0, e.1);
    } else {
      assert Chord(s, pairs, e);
      var i :| 0 <= i < |keys| && keys[i] == e;
      QuietChord(s, obs, cycles, keys, i);
    }
  }

  lemma PairOf(obs: seq<Obs>, n: nat, pairs: map<(nat, nat), Pair>, u: nat, v: nat)
    requires Usable(obs, n) && Merged(pairs, obs, n, |obs|) && Joined(obs, u, v) && u != v
    ensures Key(u, v) in pairs
  {
    assert obs[..|obs|] == obs;
    assert Joined(obs, v, u);
  }

  /** Zero holonomy on the listed cycles makes the tree values explain every measured pair. */
  lemma QuietCyclesExplain(s: Span, obs: seq<Obs>, pairs: map<(nat, nat), Pair>, cycles: seq<CycleDefect>,
                           keys: seq<(nat, nat)>)
    requires Measures(s, obs) && Merged(pairs, obs, s.n, |obs|) && Listing(s, obs, cycles, keys)
    requires forall k: (nat, nat) :: k in keys <==> Chord(s, pairs, k)
    requires Quiet(cycles)
    ensures Consistent(s, obs, TreeValues(s, obs))
  {
    forall u, v | u in s.order && v in s.order && Joined(obs, u, v)
      ensures Explains(TreeValues(s, obs), obs, s.n, u, v)
    {
      PairOf(obs, s.n, pairs, u, v);
      QuietPair(s, obs, pairs, cycles, keys, Key(u, v));
      if u > v { ExplainsReversed(TreeValues(s, obs), obs, s.n, v, u); }
    }
  }

  lemma WalkableIsClosed(s: Span, obs: seq<Obs>, w: seq<nat>)
    requires Cycle(s, w) && Walkable(obs, w)
    ensures ClosedWalk(s, obs, w)
  {
    forall i | 0 < i < |w|
      ensures Joined(obs, w[i - 1], w[i])
    {
      assert w[i] == Next(w, i - 1);
    }
  }

  lemma ListedIsClosedWalk(s: Span, obs: seq<Obs>, pairs: map<(nat, nat), Pair>, w: seq<nat>, key: (nat, nat))
    requires Measures(s, obs) && Merged(pairs, obs, s.n, |obs|) && Cycle(s, w)
    requires key in pairs && w[..2] == [key.0, key.1]
    ensures ClosedWalk(s, obs, w)
  {
    assert w[0] == w[..2][0] && w[1] == w[..2][1];
    PairInside(s, obs, pairs, key.0, key.1);
    CycleIsMeasured(s, obs, w);
    WalkableIsClosed(s, obs, w);
  }

  ghost predicate WalksVanish(s: Span, obs: seq<Obs>)
    requires Usable(obs, s.n)
  {
    forall w :: ClosedWalk(s, obs, w) ==> ClosedSum(obs, s.n, w) == 0.0
  }

  lemma ConsistentWalksVanish(s: Span, obs: seq<Obs>, x: nat -> real)
    requires Usable(obs, s.n) && Consistent(s, obs, x)
    ensures WalksVanish(s, obs)
  {
    forall w | ClosedWalk(s, obs, w)
      ensures ClosedSum(obs, s.n, w) == 0.0
    {
      ConsistentWalk(s, obs, x, w);
    }
  }

  lemma VanishingIsQuiet(s: Span, obs: seq<Obs>, pairs: map<(nat, nat), Pair>, cycles: seq<CycleDefect>,
                         keys: seq<(nat, nat)>)
    requires Measures(s, obs) && Merged(pairs, obs, s.n, |obs|) && Listing(s, obs, cycles, keys)
    requires forall k: (nat, nat) :: k in keys <==> Chord(s, pairs, k)
    requires WalksVanish(s, obs)
    ensures Quiet(cycles)
  {
    forall i | 0 <= i < |cycles|
      ensures cycles[i].offset == 0.0
    {
      assert keys[i] in keys;
      ListedIsClosedWalk(s, obs, pairs, cycles[i].nodes, keys[i]);
    }
  }

  /**
   * The fundamental cycles miss no inconsistency: they are all quiet exactly when some assignment
   * explains every merged pair, exactly when every closed walk of measured pairs sums to zero.
   */
  lemma CyclesMissNothing(s: Span, obs: seq<Obs>, pairs: map<(nat, nat), Pair>, cycles: seq<CycleDefect>,
                          keys: seq<(nat, nat)>)
    requires Measures(s, obs) && Merged(pairs, obs, s.n, |obs|) && Listing(s, obs, cycles, keys)
    requires forall k: (nat, nat) :: k in keys <==> Chord(s, pairs, k)
    ensures Quiet(cycles) <==> exists x: nat -> real :: Consistent(s, obs, x)
    ensures Quiet(cycles) <==> WalksVanish(s, obs)
  {
    if Quiet(cycles) {
      QuietCyclesExplain(s, obs, pairs, cycles, keys);
      ConsistentWalksVanish(s, obs, TreeValues(s, obs));
    }
    if x: nat -> real :| Consistent(s, obs, x) {
      ConsistentWalksVanish(s, obs, x);
    }
    if WalksVanish(s, obs) {
      VanishingIsQuiet(s, obs, pairs, cycles, keys);
    }
  }
}
