/** Which patterns of measurements can keep clock selection in its falseticker loop for ever. */
module Tangles {
  import opened Basics
  import opened Vectors
  import opened Cholesky
  import opened Laplacian
  import opened Bfs
  import opened Cycles
  import opened Frame
  import opened Gossip
  import opened Selection
  import opened SelectionLoop
  import FP = FrameProperties

  ghost function Ends(links: Links): set<nat> {
    (set l | l in links :: l.0) + (set l | l in links :: l.1)
  }

  /**
   * Where anchors may be: at the ends of links, the others being filtered out before the loop; at UTC itself or not.
   */
  ghost function Room(links: Links, utc: nat, atUtc: bool): set<nat> {
    if atUtc then Ends(links) else Ends(links) - {utc}
  }

  ghost predicate Among(chosen: seq<Anchor>, room: set<nat>) {
    forall a :: a in chosen ==> a.node in room
  }

  predicate Leads(a: nat, b: nat, v: nat) {
    a != b && (a == v || b == v)
  }

  /** UTC measures v over link i, and another link j leads to or from v too. */
  ghost predicate Tangle(links: Links, utc: nat, v: nat, i: nat, j: nat) {
    && i < |links| && j < |links| && i != j && utc != v
    && links[i] == (utc, v) && Leads(links[j].0, links[j].1, v)
  }

  /** UTC measures a node that is not left dangling, and there is room for three anchors beside it. */
  ghost predicate Tangled(links: Links, utc: nat, atUtc: bool) {
    |Room(links, utc, atUtc)| >= 4 && exists v, i, j :: Tangle(links, utc, v, i, j)
  }

  // ----- A dangling node agrees with its one measurement -----

  /** How many observations touch v. */
  ghost function Touching(obs: seq<Obs>, v: nat): nat {
    if obs == [] then 0 else
      var o := obs[|obs| - 1];
      Touching(obs[..|obs| - 1], v) + if Leads(o.a, o.b, v) then 1 else 0
  }

  lemma {:induction false} ProperTouching(obs: seq<Obs>, v: nat)
    ensures Touching(Proper(obs), v) <= Touching(obs, v)
    decreases |obs|
  {
    if obs != [] {
      var front, o := obs[..|obs| - 1], obs[|obs| - 1];
      ProperTouching(front, v);
      assert (Proper(front) + [o])[..|Proper(front)|] == Proper(front);
      assert Proper(front) + [] == Proper(front);
    }
  }

  lemma {:induction false} InsideTouching(obs: seq<Obs>, members: set<nat>, v: nat)
    ensures Touching(Inside(obs, members), v) <= Touching(obs, v)
    decreases |obs|
  {
    if obs != [] {
      var front, o := obs[..|obs| - 1], obs[|obs| - 1];
      InsideTouching(front, members, v);
      assert (Inside(front, members) + [o])[..|Inside(front, members)|] == Inside(front, members);
      assert Inside(front, members) + [] == Inside(front, members);
    }
  }

  lemma {:induction false} TouchedAtLeast(obs: seq<Obs>, v: nat, i: nat)
    requires i < |obs| && Leads(obs[i].a, obs[i].b, v)
    ensures Touching(obs, v) >= 1
    decreases |obs|
  {
    if i < |obs| - 1 { TouchedAtLeast(obs[..|obs| - 1], v, i); }
  }

  lemma {:induction false} TouchedTwice(obs: seq<Obs>, v: nat, i: nat, j: nat)
    requires i < j < |obs| && Leads(obs[i].a, obs[i].b, v) && Leads(obs[j].a, obs[j].b, v)
    ensures Touching(obs, v) >= 2
    decreases |obs|
  {
    if j < |obs| - 1 { TouchedTwice(obs[..|obs| - 1], v, i, j); } else { TouchedAtLeast(obs[..|obs| - 1], v, i); }
  }

  lemma {:induction false} TouchedOnce(obs: seq<Obs>, v: nat, i: nat)
    requires forall k :: 0 <= k < |obs| && k != i ==> !Leads(obs[k].a, obs[k].b, v)
    ensures Touching(obs, v) <= if i < |obs| then 1 else 0
    decreases |obs|
  {
    if obs != [] { TouchedOnce(obs[..|obs| - 1], v, i); }
  }

  /** Moving v so that its one observation reads exactly takes that observation's term off the cost. */
  lemma {:induction false} LeafCost(obs: seq<Obs>, n: nat, x: Vec, y: Vec, v: nat, i: nat, t: nat)
    requires Usable(obs, n) && |x| == n && |y| == n && v < n && t <= |obs| && i < |obs|
    requires forall u :: 0 <= u < n && u != v ==> y[u] == x[u]
    requires forall k :: 0 <= k < |obs| && k != i ==> !Leads(obs[k].a, obs[k].b, v)
    requires Term(obs[i], y) == 0.0
    ensures Cost(obs, n, t, y) == Cost(obs, n, t, x) - if i < t then Term(obs[i], x) else 0.0
  {
    if t > 0 {
      LeafCost(obs, n, x, y, v, i, t - 1);
      CostStep(obs, n, t, x);
      CostStep(obs, n, t, y);
      if t - 1 != i { TermElsewhere(obs[t - 1], x, y, v); }
    }
  }

  lemma TermElsewhere(o: Obs, x: Vec, y: Vec, v: nat)
    requires |x| == |y| && o.sigma > 0.0 && o.a < |x| && o.b < |x| && !Leads(o.a, o.b, v)
    requires forall u :: 0 <= u < |x| && u != v ==> y[u] == x[u]
    ensures Term(o, y) == Term(o, x)
  {
    assert Diff(o, y) == Diff(o, x);
  }

  lemma LeafQuiet(f: NetworkFrame, n: nat, utc: nat, all: seq<Obs>, i: nat)
    requires Solved(f, n, utc, all) && i < |f.inside| && f.inside[i].a == utc
    requires Touching(all, f.inside[i].b) <= 1
    ensures f.residuals[i] == 0.0
  {
    var o := f.inside[i];
    assert o in f.inside && o.a != o.b;
    ProperTouching(all, o.b);
    InsideTouching(Proper(all), (set u: nat | u in f.span.order), o.b);
    forall k | 0 <= k < |f.inside| && k != i
      ensures !Leads(f.inside[k].a, f.inside[k].b, o.b)
    {
      if Leads(f.inside[k].a, f.inside[k].b, o.b) {
        if k < i { TouchedTwice(f.inside, o.b, k, i); } else { TouchedTwice(f.inside, o.b, i, k); }
      }
    }
    LeafSettled(f.inside, n, f.span.order, f.value, i, f.residuals[i]);
  }

  lemma LeafSettled(obs: seq<Obs>, n: nat, order: seq<nat>, x: Vec, i: nat, r: real)
    requires Usable(obs, n) && |x| == n && |order| > 0 && (forall k :: 0 <= k < |order| ==> order[k] < n)
    requires LeastSquares(obs, n, order, x) && i < |obs| && obs[i].a == order[0] != obs[i].b && x[order[0]] == 0.0
    requires forall k :: 0 <= k < |obs| && k != i ==> !Leads(obs[k].a, obs[k].b, obs[i].b)
    requires r == obs[i].m - Diff(obs[i], x)
    ensures r == 0.0
  {
    var v := obs[i].b;
    var y := x[v := x[v] + r];
    assert Diff(obs[i], y) == Diff(obs[i], x) + r;
    LeafCost(obs, n, x, y, v, i, |obs|);
    var e := WeightedSquareGap(obs[i], r);
  }

  // ----- Anchors nobody measures -----

  /** An anchor is tied to the network if it is at the end of a link. */
  lemma TiedIsMeasured(links: Links, v: nat)
    ensures Tied(links, v) <==> v in Ends(links)
  {
    if v in Ends(links) {
      var l :| l in links && (l.0 == v || l.1 == v);
      assert AtEnd(l, v);
    }
  }

  /** One that is not would only sit in the frame looking agreed: solved at UTC's own zero, with no residual. */
  lemma UntiedAgrees(n: nat, utc: nat, links: Links, all: seq<Obs>, chosen: seq<Anchor>, f: NetworkFrame, i: nat)
    requires ReadsAll(all, links, utc, chosen) && Solved(f, n, utc, all) && OneEach(chosen)
    requires i < |f.inside| && f.inside[i].a == utc && !Tied(links, f.inside[i].b)
    ensures f.residuals[i] == 0.0 && f.value[f.inside[i].b] == 0.0
  {
    var v := f.inside[i].b;
    var k := FrameEdge(f, n, utc, all, i);
    ReadingAt(all, links, utc, chosen, k);
    assert k < |links| ==> links[k] in links && AtEnd(links[k], v);
    forall j | 0 <= j < |all| && j != k
      ensures !Leads(all[j].a, all[j].b, v)
    {
      ReadingAt(all, links, utc, chosen, j);
      assert j < |links| ==> links[j] in links && (AtEnd(links[j], v) || !Leads(all[j].a, all[j].b, v));
    }
    TouchedOnce(all, v, k);
    LeafQuiet(f, n, utc, all, i);
    ResidualIsZero(f, n, utc, all, i);
  }

  lemma ResidualIsZero(f: NetworkFrame, n: nat, utc: nat, all: seq<Obs>, i: nat)
    requires Solved(f, n, utc, all) && i < |f.inside| && f.inside[i].a == utc && f.inside[i].m == 0.0
    requires f.residuals[i] == 0.0
    ensures f.value[f.inside[i].b] == 0.0
  {
    assert f.inside[i] in f.inside;
  }

  // ----- Without a tangle the loop ends -----

  lemma TouchedByOne(utc: nat, links: Links, all: seq<Obs>, chosen: seq<Anchor>, v: nat, k: nat)
    requires ReadsAll(all, links, utc, chosen) && v != utc && !Names(chosen, v)
    requires forall j :: 0 <= j < |links| && j != k ==> !Leads(links[j].0, links[j].1, v)
    ensures Touching(all, v) <= 1
  {
    forall j | 0 <= j < |all| && j != k
      ensures !Leads(all[j].a, all[j].b, v)
    {
      ReadingAt(all, links, utc, chosen, j);
    }
    TouchedOnce(all, v, k);
  }

  lemma QuietIsNear(f: NetworkFrame, i: nat)
    requires Readable(f) && i < |f.inside| && f.residuals[i] == 0.0
    ensures Z(f, i) == 0.0
  {
  }

  lemma CutIsTangle(n: nat, utc: nat, links: Links, all: seq<Obs>, chosen: seq<Anchor>, f: NetworkFrame, i: nat)
    returns (k: nat, j: nat)
    requires ReadsAll(all, links, utc, chosen) && Solved(f, n, utc, all) && Readable(f)
    requires i < |f.inside| && f.inside[i].a == utc && Z(f, i) > 5.0 && !Names(chosen, f.inside[i].b)
    ensures Tangle(links, utc, f.inside[i].b, k, j)
  {
    var v := f.inside[i].b;
    k := FrameEdge(f, n, utc, all, i);
    ReadingAt(all, links, utc, chosen, k);
    if other :| 0 <= other < |links| && other != k && Leads(links[other].0, links[other].1, v) {
      j := other;
    } else {
      TouchedByOne(utc, links, all, chosen, v, k);
      LeafQuiet(f, n, utc, all, i);
      QuietIsNear(f, i);
      assert false;
    }
  }

  lemma {:induction false} NodesCount(chosen: seq<Anchor>, ends: set<nat>)
    requires OneEach(chosen) && forall a :: a in chosen ==> a.node in ends
    ensures |chosen| <= |ends|
  {
    if chosen != [] {
      var front, a := chosen[..|chosen| - 1], chosen[|chosen| - 1];
      forall b | b in front
        ensures b.node in ends - {a.node}
      {
        var k :| 0 <= k < |front| && front[k] == b;
      }
      NodesCount(front, ends - {a.node});
    }
  }

  lemma RoomForThree(links: Links, utc: nat, atUtc: bool, v: nat, k: nat, j: nat, chosen: seq<Anchor>)
    requires Tangle(links, utc, v, k, j) && OneEach(chosen) && |chosen| >= 3 && !Names(chosen, v)
    requires Among(chosen, Room(links, utc, atUtc))
    ensures Tangled(links, utc, atUtc)
  {
    assert links[k] in links && v in Room(links, utc, atUtc);
    NodesCount(chosen, Room(links, utc, atUtc) - {v});
  }

  lemma CutNeedsTangled(n: nat, utc: nat, links: Links, atUtc: bool, all: seq<Obs>, chosen: seq<Anchor>,
                        f: NetworkFrame, i: nat)
    requires ReadsAll(all, links, utc, chosen) && Solved(f, n, utc, all)
    requires OneEach(chosen) && Among(chosen, Room(links, utc, atUtc))
    requires CutOf(utc, f, i, chosen).Some? && !Names(chosen, CutOf(utc, f, i, chosen).value)
    ensures Tangled(links, utc, atUtc)
  {
    var k, j := CutIsTangle(n, utc, links, all, chosen, f, i);
    RoomForThree(links, utc, atUtc, f.inside[i].b, k, j, chosen);
  }

  /**
   * Whatever the anchors, the readings and their spreads, and however those move from round to round: without a tangle
   * the loop ends.
   */
  lemma UntangledEnds(n: nat, utc: nat, links: Links, atUtc: bool, readings: Readings, chosen: seq<Anchor>,
                      solve: Solving, pick: Picking)
    requires Setting(n, utc, links, readings) && Machine(n, utc, readings, solve, pick) && !Tangled(links, utc, atUtc)
    requires OneEach(chosen) && InRange(chosen, n) && Among(chosen, Room(links, utc, atUtc))
    ensures !Endless(WorstCut(utc, solve, pick), chosen)
  {
    var cut := WorstCut(utc, solve, pick);
    forall k: nat
      ensures !CutsOutside(cut, chosen, k)
    {
      LeftFrom(cut, chosen, k);
      var left := Left(cut, chosen, k);
      assert InRange(left, n) && Among(left, Room(links, utc, atUtc));
      if CutsOutside(cut, chosen, k) {
        assert SolvesFor(n, utc, readings(left), solve(left), pick(solve(left)));
        CutNeedsTangled(n, utc, links, atUtc, readings(left), left, solve(left), pick(solve(left)));
      }
    }
    EndlessIffOutside(cut, chosen);
  }

  // ----- Readings that balance -----

  /** What all observations together pull node i towards, at x. */
  ghost function Net(obs: seq<Obs>, n: nat, x: Vec, i: nat): real
    requires Usable(obs, n) && |x| == n
  {
    Spread(obs, ResidualCoefs(obs, n, x), |obs|, i)
  }

  ghost function Push(o: Obs, x: Vec, i: nat): real
    requires o.sigma > 0.0 && o.a < |x| && o.b < |x|
  {
    (o.Weight() * (o.m - Diff(o, x))) * Inc(o, i)
  }

  lemma {:induction false} SpreadSame(obs: seq<Obs>, obs': seq<Obs>, c: Vec, c': Vec, t: nat, i: nat)
    requires t <= |obs| && t <= |obs'| && t <= |c| && t <= |c'|
    requires forall k :: 0 <= k < t ==> obs'[k] == obs[k] && c'[k] == c[k]
    ensures Spread(obs', c', t, i) == Spread(obs, c, t, i)
  {
    if t > 0 { SpreadSame(obs, obs', c, c', t - 1, i); }
  }

  lemma NetLast(front: seq<Obs>, o: Obs, n: nat, x: Vec, i: nat)
    requires Usable(front, n) && o.sigma > 0.0 && o.a < n && o.b < n && |x| == n
    ensures Usable(front + [o], n) && Net(front + [o], n, x, i) == Net(front, n, x, i) + Push(o, x, i)
  {
    var all := front + [o];
    assert Usable(all, n);
    SpreadSame(front, all, ResidualCoefs(front, n, x), ResidualCoefs(all, n, x), |front|, i);
    assert all[|front|] == o;
  }

  lemma LoopPushesNothing(o: Obs, x: Vec, i: nat)
    requires o.sigma > 0.0 && o.a < |x| && o.b < |x| && o.a == o.b
    ensures Push(o, x, i) == 0.0
  {
  }

  lemma {:induction false} NetProper(obs: seq<Obs>, n: nat, x: Vec, i: nat)
    requires Usable(obs, n) && |x| == n
    ensures Usable(Proper(obs), n) && Net(Proper(obs), n, x, i) == Net(obs, n, x, i)
    decreases |obs|
  {
    if obs != [] {
      var front, o := obs[..|obs| - 1], obs[|obs| - 1];
      assert obs == front + [o];
      NetProper(front, n, x, i);
      NetLast(front, o, n, x, i);
      NetLast(Proper(front), o, n, x, i);
      if o.a == o.b { LoopPushesNothing(o, x, i); }
      assert Proper(front) + [] == Proper(front);
    }
  }

  /** Of the observations from the members, none that leads out of them. */
  ghost predicate Closed(obs: seq<Obs>, members: set<nat>) {
    forall k :: 0 <= k < |obs| ==> (obs[k].a in members <==> obs[k].b in members)
  }

  lemma OutsidePushesNothing(o: Obs, x: Vec, i: nat)
    requires o.sigma > 0.0 && o.a < |x| && o.b < |x| && o.a != i && o.b != i
    ensures Push(o, x, i) == 0.0
  {
  }

  lemma {:induction false} NetInside(obs: seq<Obs>, members: set<nat>, n: nat, x: Vec, i: nat)
    requires Usable(obs, n) && |x| == n && Closed(obs, members) && i in members
    ensures Usable(Inside(obs, members), n) && Net(Inside(obs, members), n, x, i) == Net(obs, n, x, i)
    decreases |obs|
  {
    if obs != [] {
      var front, o := obs[..|obs| - 1], obs[|obs| - 1];
      assert obs == front + [o];
      NetInside(front, members, n, x, i);
      NetLast(front, o, n, x, i);
      NetLast(Inside(front, members), o, n, x, i);
      if o.a !in members { OutsidePushesNothing(o, x, i); }
      assert Inside(front, members) + [] == Inside(front, members);
    }
  }

  lemma ComponentIsClosed(f: NetworkFrame, n: nat, utc: nat, all: seq<Obs>)
    requires Solved(f, n, utc, all)
    ensures Closed(Proper(all), set u: nat | u in f.span.order)
  {
    forall k | 0 <= k < |Proper(all)|
      ensures Proper(all)[k].a in f.span.order <==> Proper(all)[k].b in f.span.order
    {
      var o := Proper(all)[k];
      JoinedBy(Proper(all), o.a, o.b);
      JoinedBy(Proper(all), o.b, o.a);
      assert o in Proper(all) && Joins(o, o.a, o.b) && Joins(o, o.b, o.a);
      Carries(Proper(all), utc, o.a, o.b);
      Carries(Proper(all), utc, o.b, o.a);
    }
  }

  lemma Carries(obs: seq<Obs>, r: nat, u: nat, v: nat)
    requires Joined(obs, u, v)
    ensures Connected(obs, r, u) ==> Connected(obs, r, v)
  {
    if w: seq<nat> :| Route(obs, r, u, w) { RouteExtends(obs, r, u, v, w); }
  }

  /** An assignment at which nothing pulls any node is the frame's, wherever the frame has one. */
  lemma BalancedIsSolution(f: NetworkFrame, n: nat, utc: nat, all: seq<Obs>, p: Vec)
    requires Usable(all, n) && Solved(f, n, utc, all) && |p| == n && utc < n && p[utc] == 0.0
    requires forall i :: 0 <= i < n && i != utc ==> Net(all, n, p, i) == 0.0
    ensures forall i :: i in f.span.order ==> i < n && f.value[i] == p[i]
  {
    var order, un := f.span.order, f.span.order[1..];
    var members := set u: nat | u in order;
    ComponentIsClosed(f, n, utc, all);
    FP.TailIsUnknowns(order, n);
    forall q | 0 <= q < |un|
      ensures Spread(f.inside, ResidualCoefs(f.inside, n, p), |f.inside|, un[q]) == 0.0
    {
      assert un[q] in un;
      NetProper(all, n, p, un[q]);
      NetInside(Proper(all), members, n, p, un[q]);
    }
    OrderIsLinked(f.span, f.inside);
    StationaryIsLeastSquares(f.inside, n, un, order, p);
    FP.OneMinimum(f.inside, n, order, f.value, p);
  }

  // ----- A tangle can keep the loop going -----

  /** Readings over a tangle: UTC pulls v one way over link i, link j pulls it the other, and an anchor holds on. */
  datatype Tug = Tug(links: Links, n: nat, utc: nat, v: nat, i: nat, j: nat, chosen: seq<Anchor>) {
    /** The end of link j that is not v. */
    function FarEnd(): nat
      requires j < |links|
    {
      if links[j].0 == v then links[j].1 else links[j].0
    }

    /** All offsets zero but for the far end, which the pull moves by three. */
    function Solution(): (p: Vec)
      requires j < |links| && FarEnd() < n
      ensures |p| == n && p[FarEnd()] == (if FarEnd() == utc then 0.0 else 3.0)
      ensures forall u :: 0 <= u < n && u != FarEnd() ==> p[u] == 0.0
    {
      Zeros(n)[FarEnd() := if FarEnd() == utc then 0.0 else 3.0]
    }

    /** How far link k reads from the solution. */
    function Excess(k: nat): real
      requires j < |links|
    {
      if k == i then 12.0 else if k == j then Back() else 0.0
    }

    function Back(): real
      requires j < |links|
    {
      if links[j].0 == v then 3.0 else -3.0
    }

    /** A tangle, an anchor that holds the far end, and two anchors more. */
    ghost predicate Valid() {
      && Tangle(links, utc, v, i, j) && Spans(links, n) && FarEnd() < n && InRange(chosen, n)
      && |chosen| == 3 && (forall k :: 0 <= k < 3 ==> chosen[k] == Plain(chosen[k].node))
      && (FarEnd() != utc ==> chosen[0].node == FarEnd() != chosen[1].node && chosen[2].node != FarEnd())
    }

    ghost function Network(): (obs: seq<Obs>)
      requires Valid()
      ensures |obs| == |links|
      ensures forall k :: 0 <= k < |links| ==>
                obs[k] == ReadAt(links[k], Solution(), Excess(k), if k == i then 2.0 else 1.0)
    {
      seq(|links|, k requires 0 <= k < |links| =>
        ReadAt(links[k], Solution(), Excess(k), if k == i then 2.0 else 1.0))
    }

    ghost function All(): seq<Obs>
      requires Valid()
    {
      Network() + AnchorEdges(utc, chosen)
    }
  }

  function ReadAt(l: (nat, nat), p: Vec, excess: real, sigma: real): Obs
    requires l.0 < |p| && l.1 < |p|
  {
    Obs(l.0, l.1, p[l.1] - p[l.0] + excess, sigma)
  }

  function Plain(node: nat): Anchor {
    Anchor(node, 1.0, 0.0, 1, 0)
  }

  lemma TugIsUsable(t: Tug)
    requires t.Valid()
    ensures |t.All()| == |t.links| + 3 && Usable(t.All(), t.n) && t.utc < t.n && t.v < t.n && t.Solution()[t.utc] == 0.0
  {
    var all := t.All();
    forall k | 0 <= k < |all|
      ensures all[k].sigma > 0.0 && all[k].a < t.n && all[k].b < t.n
    {
      if k >= |t.links| { assert t.chosen[k - |t.links|] in t.chosen; }
    }
  }

  /** What observation o is, and how far from the solution. */
  ghost predicate Pulls(o: Obs, p: Vec, a: nat, b: nat, excess: real, sigma: real) {
    o.a == a < |p| && o.b == b < |p| && o.m - Diff(o, p) == excess && o.sigma == sigma > 0.0
  }

  lemma TugAt(t: Tug, k: nat)
    requires t.Valid() && k < |t.All()|
    ensures var o, p := t.All()[k], t.Solution();
            && (k == t.i ==> Pulls(o, p, t.utc, t.v, 12.0, 2.0))
            && (k == t.j ==> Pulls(o, p, t.links[t.j].0, t.links[t.j].1, t.Back(), 1.0))
            && (k == |t.links| ==> o.b < t.n && Pulls(o, p, t.utc, t.chosen[0].node, -p[o.b], 1.0))
            && (k != t.i && k != t.j && k != |t.links| ==> Pulls(o, p, o.a, o.b, 0.0, 1.0))
  {
    TugIsUsable(t);
    var c := k - |t.links|;
    if c >= 0 { assert t.chosen[c] in t.chosen && t.All()[k] == AnchorEdge(t.utc, t.chosen[c]); }
  }

  lemma {:induction false} SpreadThree(obs: seq<Obs>, c: Vec, t: nat, x: nat, a: nat, b: nat, d: nat)
    requires t <= |obs| == |c| && a < |obs| && b < |obs| && d < |obs| && a != b && b != d && a != d
    requires forall k :: 0 <= k < |obs| && k != a && k != b && k != d ==> c[k] == 0.0
    ensures Spread(obs, c, t, x) == Part(obs, c, t, x, a) + Part(obs, c, t, x, b) + Part(obs, c, t, x, d)
  {
    if t > 0 { SpreadThree(obs, c, t - 1, x, a, b, d); }
  }

  ghost function Part(obs: seq<Obs>, c: Vec, t: nat, x: nat, a: nat): real
    requires t <= |obs| && t <= |c|
  {
    if a < t then c[a] * Inc(obs[a], x) else 0.0
  }

  lemma PullCoef(o: Obs, p: Vec, excess: real, sigma: real)
    requires Pulls(o, p, o.a, o.b, excess, sigma)
    ensures sigma == 1.0 ==> o.Weight() * (o.m - Diff(o, p)) == excess
    ensures sigma == 2.0 ==> o.Weight() * (o.m - Diff(o, p)) == 0.25 * excess
  {
  }

  lemma TugCoefs(t: Tug, c: Vec, k: nat)
    requires t.Valid() && Usable(t.All(), t.n) && c == ResidualCoefs(t.All(), t.n, t.Solution()) && k < |t.All()|
    ensures k == t.i ==> c[k] == 3.0
    ensures k == t.j ==> c[k] == t.Back()
    ensures k == |t.links| ==> t.chosen[0].node < t.n && c[k] == -t.Solution()[t.chosen[0].node]
    ensures k != t.i && k != t.j && k != |t.links| ==> c[k] == 0.0
  {
    TugAt(t, k);
    var o := t.All()[k];
    PullCoef(o, t.Solution(), o.m - Diff(o, t.Solution()), o.sigma);
  }

  /** At the solution the pulls cancel at every node but UTC. */
  lemma TugBalances(t: Tug, x: nat)
    requires t.Valid() && Usable(t.All(), t.n) && x != t.utc
    ensures Net(t.All(), t.n, t.Solution(), x) == 0.0
  {
    var all, d := t.All(), |t.links|;
    var c := ResidualCoefs(all, t.n, t.Solution());
    forall k | 0 <= k < |all|
      ensures k != t.i && k != t.j && k != d ==> c[k] == 0.0
    {
      TugCoefs(t, c, k);
    }
    SpreadThree(all, c, |all|, x, t.i, t.j, d);
    TugCancels(t, c, x);
  }

  lemma TugCancels(t: Tug, c: Vec, x: nat)
    requires t.Valid() && Usable(t.All(), t.n) && c == ResidualCoefs(t.All(), t.n, t.Solution()) && x != t.utc
    ensures var all := t.All();
            Part(all, c, |all|, x, t.i) + Part(all, c, |all|, x, t.j) + Part(all, c, |all|, x, |t.links|) == 0.0
  {
    var all, d := t.All(), |t.links|;
    TugAt(t, t.i);
    TugAt(t, t.j);
    TugAt(t, d);
    TugCoefs(t, c, t.i);
    TugCoefs(t, c, t.j);
    TugCoefs(t, c, d);
    PullsCancel(all[t.i], all[t.j], all[d], t.utc, t.v, t.FarEnd(), x, c[t.j], t.Solution()[t.chosen[0].node]);
  }

  lemma PullsCancel(first: Obs, other: Obs, anchor: Obs, utc: nat, v: nat, w: nat, x: nat, c: real, moved: real)
    requires first.a == utc && first.b == v && anchor.a == utc && x != utc && v != w
    requires (other.a == v && other.b == w && c == 3.0) || (other.a == w && other.b == v && c == -3.0)
    requires if w == utc then moved == 0.0 else anchor.b == w && moved == 3.0
    ensures 3.0 * Inc(first, x) + c * Inc(other, x) + (-moved) * Inc(anchor, x) == 0.0
  {
  }

  // ----- The worst edge -----

  /** In a frame with that solution, an edge of UTC past three spreads leads to v. */
  lemma TugEdge(t: Tug, o: Obs, z: real)
    requires t.Valid() && o in t.All() && o.a == t.utc && o.a < t.n && o.b < t.n
    requires o.sigma > 0.0 && z == AbsReal((o.m - Diff(o, t.Solution())) / o.sigma) && z > 3.0
    ensures o.b == t.v
  {
    var k :| 0 <= k < |t.All()| && t.All()[k] == o;
    TugAt(t, k);
  }

  /** The values are p where the frame has any, so residuals are what p leaves. */
  ghost predicate Valued(f: NetworkFrame, n: nat, p: Vec) {
    && |p| == n && |f.residuals| == |f.inside| && Usable(f.inside, n)
    && forall k :: 0 <= k < |f.inside| ==> f.residuals[k] == f.inside[k].m - Diff(f.inside[k], p)
  }

  lemma SolutionIsValued(f: NetworkFrame, n: nat, utc: nat, all: seq<Obs>, p: Vec)
    requires Solved(f, n, utc, all) && |p| == n && forall i :: i in f.span.order ==> i < n && f.value[i] == p[i]
    ensures Valued(f, n, p)
  {
    forall k | 0 <= k < |f.inside|
      ensures f.residuals[k] == f.inside[k].m - Diff(f.inside[k], p)
    {
      assert f.inside[k].a in f.span.order && f.inside[k].b in f.span.order;
    }
  }

  lemma UtcEdgeListed(f: NetworkFrame, n: nat, utc: nat, all: seq<Obs>, o: Obs) returns (k: nat)
    requires Solved(f, n, utc, all) && o in all && o.a == utc && o.b != utc
    ensures k < |f.inside| && f.inside[k] == o
  {
    assert f.span.order[0] in f.span.order;
    assert o in Proper(all) && o in f.inside;
    k :| 0 <= k < |f.inside| && f.inside[k] == o;
  }

  lemma TugIsValued(t: Tug, f: NetworkFrame)
    requires t.Valid() && Solved(f, t.n, t.utc, t.All())
    ensures Valued(f, t.n, t.Solution())
  {
    TugIsUsable(t);
    forall x | 0 <= x < t.n && x != t.utc
      ensures Net(t.All(), t.n, t.Solution(), x) == 0.0
    {
      TugBalances(t, x);
    }
    BalancedIsSolution(f, t.n, t.utc, t.All(), t.Solution());
    SolutionIsValued(f, t.n, t.utc, t.All(), t.Solution());
  }

  lemma TugWorst(t: Tug, f: NetworkFrame, k: nat, at: nat)
    requires t.Valid() && Valued(f, t.n, t.Solution()) && WorstAt(f, t.utc, at)
    requires k < |f.inside| && f.inside[k].a == t.utc && Z(f, k) == 6.0 && f.inside[at] in t.All()
    ensures Rejects(f, t.utc, t.chosen, at) && f.inside[at].b == t.v
  {
    assert Z(f, k) <= Z(f, at);
    TugEdge(t, f.inside[at], Z(f, at));
  }

  lemma TugCuts(t: Tug, f: NetworkFrame, at: nat)
    requires t.Valid() && Solved(f, t.n, t.utc, t.All())
    requires HasUtcEdge(f, t.utc) ==> WorstAt(f, t.utc, at)
    ensures CutOf(t.utc, f, at, t.chosen) == Some(t.v)
  {
    TugIsValued(t, f);
    TugIsUsable(t);
    TugAt(t, t.i);
    var k := UtcEdgeListed(f, t.n, t.utc, t.All(), t.All()[t.i]);
    FarPull(f, t.n, t.Solution(), k);
    var _ := FrameEdge(f, t.n, t.utc, t.All(), at);
    TugWorst(t, f, k, at);
  }

  lemma FarPull(f: NetworkFrame, n: nat, p: Vec, k: nat)
    requires Valued(f, n, p) && k < |f.inside| && Pulls(f.inside[k], p, f.inside[k].a, f.inside[k].b, 12.0, 2.0)
    ensures Z(f, k) == 6.0
  {
  }

  lemma TugLoops(t: Tug, solve: Solving, pick: Picking)
    requires t.Valid() && Machine(t.n, t.utc, Steady(t.utc, t.Network()), solve, pick)
    requires OneEach(t.chosen) && !Names(t.chosen, t.v)
    ensures Endless(WorstCut(t.utc, solve, pick), t.chosen)
  {
    var cut, f := WorstCut(t.utc, solve, pick), solve(t.chosen);
    assert SolvesFor(t.n, t.utc, t.All(), f, pick(f));
    TugCuts(t, f, pick(f));
    assert cut(t.chosen) == Some(t.v);
    assert CutsOutside(cut, t.chosen, 0);
    EndlessIffOutside(cut, t.chosen);
  }

  // ----- Room for the anchors -----

  lemma OneMore(room: set<nat>, v: nat) returns (h: nat)
    requires |room| >= 4
    ensures h in room && h != v
  {
    var rest := room - {v};
    assert |rest| >= 3;
    h :| h in rest;
  }

  lemma TwoMore(room: set<nat>, v: nat, h: nat) returns (b: nat, c: nat)
    requires |room| >= 4
    ensures b in room && c in room && b != c && b != v && b != h && c != v && c != h
  {
    var rest := room - {v} - {h};
    assert |rest| >= 2;
    b :| b in rest;
    assert |rest - {b}| >= 1;
    c :| c in rest - {b};
  }

  lemma ThreeChosen(room: set<nat>, n: nat, v: nat, h: nat, b: nat, c: nat, chosen: seq<Anchor>)
    requires h in room && b in room && c in room && b != c && b != h && c != h && v != h && v != b && v != c
    requires chosen == [Plain(h), Plain(b), Plain(c)] && forall u :: u in room ==> u < n
    ensures OneEach(chosen) && InRange(chosen, n) && !Names(chosen, v) && Among(chosen, room)
  {
  }

  lemma EndsInRange(links: Links, n: nat)
    requires Spans(links, n)
    ensures forall u :: u in Ends(links) ==> u < n
  {
  }

  lemma MakeTug(links: Links, n: nat, utc: nat, atUtc: bool, v: nat, i: nat, j: nat) returns (t: Tug)
    requires Spans(links, n) && Tangle(links, utc, v, i, j) && |Room(links, utc, atUtc)| >= 4
    ensures t.Valid() && t.links == links && t.n == n && t.utc == utc && t.v == v
    ensures OneEach(t.chosen) && !Names(t.chosen, v) && Among(t.chosen, Room(links, utc, atUtc))
  {
    var room, w := Room(links, utc, atUtc), Tug(links, n, utc, v, i, j, []).FarEnd();
    assert links[j] in links && w in Ends(links);
    var h := w;
    if w == utc { h := OneMore(room, v); }
    var b, c := TwoMore(room, v, h);
    EndsInRange(links, n);
    ThreeChosen(room, n, v, h, b, c, [Plain(h), Plain(b), Plain(c)]);
    t := Tug(links, n, utc, v, i, j, [Plain(h), Plain(b), Plain(c)]);
  }

  lemma TugFollows(t: Tug)
    requires t.Valid()
    ensures Follows(t.Network(), t.links) && Setting(t.n, t.utc, t.links, Steady(t.utc, t.Network()))
  {
    TugIsUsable(t);
    forall chosen | InRange(chosen, t.n)
      ensures ReadsAll(Steady(t.utc, t.Network())(chosen), t.links, t.utc, chosen)
    {
      SteadyReads(t.Network(), t.links, t.utc, chosen);
    }
  }

  lemma SteadyReads(obs: seq<Obs>, links: Links, utc: nat, chosen: seq<Anchor>)
    requires Follows(obs, links)
    ensures ReadsAll(obs + AnchorEdges(utc, chosen), links, utc, chosen)
  {
    assert (obs + AnchorEdges(utc, chosen))[..|links|] == obs;
  }

  /** Over any tangle, with room for anchors, some readings and some anchors keep the loop going for ever. */
  lemma TangleCanLoop(links: Links, n: nat, utc: nat, atUtc: bool, v: nat, i: nat, j: nat)
    returns (readings: Readings, chosen: seq<Anchor>)
    requires Spans(links, n) && Tangle(links, utc, v, i, j) && |Room(links, utc, atUtc)| >= 4
    ensures Setting(n, utc, links, readings)
    ensures OneEach(chosen) && InRange(chosen, n) && Among(chosen, Room(links, utc, atUtc))
    ensures forall solve: Solving, pick: Picking :: Machine(n, utc, readings, solve, pick) ==>
              Endless(WorstCut(utc, solve, pick), chosen)
  {
    var t := MakeTug(links, n, utc, atUtc, v, i, j);
    TugFollows(t);
    readings, chosen := Steady(utc, t.Network()), t.chosen;
    forall solve: Solving, pick: Picking | Machine(n, utc, readings, solve, pick)
      ensures Endless(WorstCut(utc, solve, pick), chosen)
    {
      TugLoops(t, solve, pick);
    }
  }
}
