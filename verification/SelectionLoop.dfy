/** When the falseticker loop of clock selection never ends. */
module SelectionLoop {
  import opened Basics
  import opened Vectors
  import opened Cholesky
  import opened Laplacian
  import opened Cycles
  import opened Frame
  import opened Gossip
  import opened Selection
  import R = Robust

  // ----- Any loop that cuts one node a round -----

  /** The node a round cuts from the chosen; none if the loop stops there. */
  type Cutting = seq<Anchor> -> Option<nat>

  /** The anchors left after k rounds. */
  ghost function Left(cut: Cutting, chosen: seq<Anchor>, k: nat): seq<Anchor> {
    if k == 0 then chosen else After(cut, Left(cut, chosen, k - 1))
  }

  ghost function After(cut: Cutting, chosen: seq<Anchor>): seq<Anchor> {
    if cut(chosen).None? then chosen else Without(chosen, cut(chosen).value)
  }

  /** No number of rounds brings the loop to a stop. */
  ghost predicate Endless(cut: Cutting, chosen: seq<Anchor>) {
    forall k: nat :: GoesOn(cut, chosen, k)
  }

  ghost predicate GoesOn(cut: Cutting, chosen: seq<Anchor>, k: nat) {
    cut(Left(cut, chosen, k)).Some?
  }

  /** Round k cuts a node that is not chosen. */
  ghost predicate CutsOutside(cut: Cutting, chosen: seq<Anchor>, k: nat) {
    OutsideCut(cut, Left(cut, chosen, k))
  }

  ghost predicate OutsideCut(cut: Cutting, chosen: seq<Anchor>) {
    cut(chosen).Some? && !Names(chosen, cut(chosen).value)
  }

  /**
   * A round that does not stop keeps the list if and only if it cuts a node not on it; otherwise it shortens it by
   * one.
   */
  lemma KeepsIffOutside(cut: Cutting, chosen: seq<Anchor>)
    requires OneEach(chosen) && cut(chosen).Some?
    ensures After(cut, chosen) == chosen <==> OutsideCut(cut, chosen)
    ensures !OutsideCut(cut, chosen) ==> |After(cut, chosen)| == |chosen| - 1
  {
    WithoutShrinks(chosen, cut(chosen).value);
  }

  lemma {:induction false} LeftFrom(cut: Cutting, chosen: seq<Anchor>, k: nat)
    requires OneEach(chosen)
    ensures OneEach(Left(cut, chosen, k)) && forall a :: a in Left(cut, chosen, k) ==> a in chosen
  {
    if k > 0 {
      LeftFrom(cut, chosen, k - 1);
      var before := Left(cut, chosen, k - 1);
      if cut(before).Some? { WithoutOneEach(before, cut(before).value); }
    }
  }

  lemma {:induction false} SameAgain(cut: Cutting, chosen: seq<Anchor>, c: seq<Anchor>, k: nat, j: nat)
    requires Left(cut, chosen, k) == c == After(cut, c) && k <= j
    ensures Left(cut, chosen, j) == c
    decreases j
  {
    if k < j { SameAgain(cut, chosen, c, k, j - 1); }
  }

  /** Once a round has cut a node that is not chosen, every later round does the same to the same list. */
  lemma OutsideRepeats(cut: Cutting, chosen: seq<Anchor>, k: nat, j: nat)
    requires OneEach(chosen) && CutsOutside(cut, chosen, k) && k <= j
    ensures Left(cut, chosen, j) == Left(cut, chosen, k) && CutsOutside(cut, chosen, j)
  {
    LeftFrom(cut, chosen, k);
    StaysPut(cut, Left(cut, chosen, k));
    SameAgain(cut, chosen, Left(cut, chosen, k), k, j);
  }

  lemma StaysPut(cut: Cutting, chosen: seq<Anchor>)
    requires OneEach(chosen) && OutsideCut(cut, chosen)
    ensures After(cut, chosen) == chosen
  {
    KeepsIffOutside(cut, chosen);
  }

  lemma ShortensByOne(cut: Cutting, chosen: seq<Anchor>)
    requires OneEach(chosen) && cut(chosen).Some? && !OutsideCut(cut, chosen)
    ensures |After(cut, chosen)| == |chosen| - 1
  {
    KeepsIffOutside(cut, chosen);
  }

  lemma {:induction false} LeftShifts(cut: Cutting, chosen: seq<Anchor>, k: nat)
    ensures Left(cut, After(cut, chosen), k) == Left(cut, chosen, k + 1)
  {
    if k > 0 { LeftShifts(cut, chosen, k - 1); }
  }

  /** Cutting chosen nodes only, the loop runs out of them: an endless one comes to a round that cuts another. */
  lemma {:induction false} EventuallyOutside(cut: Cutting, chosen: seq<Anchor>) returns (k: nat)
    requires OneEach(chosen) && Endless(cut, chosen)
    ensures CutsOutside(cut, chosen, k)
    decreases |chosen|
  {
    if OutsideCut(cut, chosen) {
      k := 0;
    } else {
      GoesOnShorter(cut, chosen);
      var j := EventuallyOutside(cut, After(cut, chosen));
      OutsideShifts(cut, chosen, j);
      k := j + 1;
    }
  }

  lemma GoesOnShorter(cut: Cutting, chosen: seq<Anchor>)
    requires OneEach(chosen) && Endless(cut, chosen) && !OutsideCut(cut, chosen)
    ensures OneEach(After(cut, chosen)) && Endless(cut, After(cut, chosen)) && |After(cut, chosen)| == |chosen| - 1
  {
    assert GoesOn(cut, chosen, 0);
    ShortensByOne(cut, chosen);
    EndlessOn(cut, chosen);
    WithoutOneEach(chosen, cut(chosen).value);
  }

  lemma OutsideShifts(cut: Cutting, chosen: seq<Anchor>, j: nat)
    requires CutsOutside(cut, After(cut, chosen), j)
    ensures CutsOutside(cut, chosen, j + 1)
  {
    LeftShifts(cut, chosen, j);
  }

  lemma EndlessOn(cut: Cutting, chosen: seq<Anchor>)
    requires Endless(cut, chosen)
    ensures Endless(cut, After(cut, chosen))
  {
    forall k: nat
      ensures GoesOn(cut, After(cut, chosen), k)
    {
      LeftShifts(cut, chosen, k);
      assert GoesOn(cut, chosen, k + 1);
    }
  }

  /** A loop that stops stays stopped, so every round before one that cuts has cut. */
  lemma {:induction false} WentOn(cut: Cutting, chosen: seq<Anchor>, j: nat, k: nat)
    requires j <= k && GoesOn(cut, chosen, k)
    ensures GoesOn(cut, chosen, j)
    decreases k
  {
    if j < k { WentOn(cut, chosen, j, k - 1); }
  }

  /** The loop never ends if and only if some round cuts a node that is not chosen. */
  lemma EndlessIffOutside(cut: Cutting, chosen: seq<Anchor>)
    requires OneEach(chosen)
    ensures Endless(cut, chosen) <==> exists k: nat :: CutsOutside(cut, chosen, k)
  {
    if k: nat :| CutsOutside(cut, chosen, k) {
      forall j: nat ensures GoesOn(cut, chosen, j) {
        if j >= k { OutsideRepeats(cut, chosen, k, j); } else { WentOn(cut, chosen, j, k); }
      }
    } else if Endless(cut, chosen) {
      var outside := EventuallyOutside(cut, chosen);
    }
  }

  // ----- The falseticker loop -----

  /** The solver and the choice among equally bad edges, both functions of what they are given. */
  type Solving = seq<Anchor> -> NetworkFrame
  type Picking = NetworkFrame -> nat

  ghost predicate HasUtcEdge(f: NetworkFrame, utc: nat) {
    exists i :: 0 <= i < |f.inside| && f.inside[i].a == utc
  }

  ghost predicate SolvesFor(n: nat, utc: nat, all: seq<Obs>, f: NetworkFrame, i: nat) {
    Solved(f, n, utc, all) && (HasUtcEdge(f, utc) ==> WorstAt(f, utc, i))
  }

  ghost predicate Machine(n: nat, utc: nat, readings: Readings, solve: Solving, pick: Picking) {
    forall chosen :: InRange(chosen, n) ==> SolvesFor(n, utc, readings(chosen), solve(chosen), pick(solve(chosen)))
  }

  /** The loop's cut: the node its worst edge leads to, past five of its spreads, while three or more are chosen. */
  ghost function WorstCut(utc: nat, solve: Solving, pick: Picking): Cutting {
    (chosen: seq<Anchor>) => CutOf(utc, solve(chosen), pick(solve(chosen)), chosen)
  }

  ghost function CutOf(utc: nat, f: NetworkFrame, i: nat, chosen: seq<Anchor>): Option<nat> {
    if Rejects(f, utc, chosen, i) then Some(f.inside[i].b) else None
  }

  /**
   * With UTC silent the loop ends, whatever the readings and the anchors, and however they move from round to round.
   */
  lemma SilentEnds(n: nat, utc: nat, links: Links, readings: Readings, solve: Solving, pick: Picking,
                   chosen: seq<Anchor>)
    requires Setting(n, utc, links, readings) && Machine(n, utc, readings, solve, pick)
    requires OneEach(chosen) && InRange(chosen, n) && UtcSilent(links, utc)
    ensures !Endless(WorstCut(utc, solve, pick), chosen)
  {
    var cut := WorstCut(utc, solve, pick);
    forall k: nat
      ensures !CutsOutside(cut, chosen, k)
    {
      LeftFrom(cut, chosen, k);
      var left := Left(cut, chosen, k);
      assert InRange(left, n);
      SilentCutsInside(n, utc, links, readings(left), solve(left), pick(solve(left)), left);
    }
    EndlessIffOutside(cut, chosen);
  }

  lemma SilentCutsInside(n: nat, utc: nat, links: Links, all: seq<Obs>, f: NetworkFrame, i: nat, chosen: seq<Anchor>)
    requires SolvesFor(n, utc, all, f, i) && ReadsAll(all, links, utc, chosen) && UtcSilent(links, utc)
    ensures var cut := CutOf(utc, f, i, chosen); cut.Some? ==> Names(chosen, cut.value)
  {
    if Rejects(f, utc, chosen, i) { UtcEdgeIsChosen(n, utc, links, all, chosen, f, i); }
  }

  /** Readings that stay the same from round to round: of edges without drift. */
  ghost function Steady(utc: nat, obs: seq<Obs>): Readings {
    (chosen: seq<Anchor>) => obs + AnchorEdges(utc, chosen)
  }

  // ----- Costs of joined lists -----

  /** One observation's weighted squared residual. */
  ghost function Term(o: Obs, x: Vec): real
    requires o.sigma > 0.0 && o.a < |x| && o.b < |x|
  {
    o.Weight() * ((o.m - Diff(o, x)) * (o.m - Diff(o, x)))
  }

  lemma CostStep(obs: seq<Obs>, n: nat, t: nat, x: Vec)
    requires Usable(obs, n) && |x| == n && 0 < t <= |obs|
    ensures Cost(obs, n, t, x) == Cost(obs, n, t - 1, x) + Term(obs[t - 1], x)
  {
  }

  lemma {:induction false} CostPrefix(a: seq<Obs>, b: seq<Obs>, n: nat, t: nat, x: Vec)
    requires Usable(a, n) && Usable(a + b, n) && |x| == n && t <= |a|
    ensures Cost(a + b, n, t, x) == Cost(a, n, t, x)
  {
    if t > 0 {
      CostPrefix(a, b, n, t - 1, x);
      CostStep(a, n, t, x);
      CostStep(a + b, n, t, x);
    }
  }

  lemma {:induction false} CostJoin(a: seq<Obs>, b: seq<Obs>, n: nat, t: nat, x: Vec)
    requires Usable(a, n) && Usable(b, n) && Usable(a + b, n) && |x| == n && t <= |b|
    ensures Cost(a + b, n, |a| + t, x) == Cost(a, n, |a|, x) + Cost(b, n, t, x)
  {
    if t == 0 {
      CostPrefix(a, b, n, |a|, x);
    } else {
      CostJoin(a, b, n, t - 1, x);
      CostStep(b, n, t, x);
      CostStep(a + b, n, |a| + t, x);
      assert (a + b)[|a| + t - 1] == b[t - 1];
    }
  }

  lemma TermNonNegative(o: Obs, x: Vec)
    requires o.sigma > 0.0 && o.a < |x| && o.b < |x|
    ensures Term(o, x) >= 0.0
  {
    var e := WeightedSquareGap(o, o.m - Diff(o, x));
  }

  lemma {:induction false} CostHolds(obs: seq<Obs>, n: nat, t: nat, x: Vec, i: nat)
    requires Usable(obs, n) && |x| == n && t <= |obs| && i < |obs|
    ensures Cost(obs, n, t, x) >= 0.0 && (i < t ==> Cost(obs, n, t, x) >= Term(obs[i], x))
  {
    if t > 0 {
      CostHolds(obs, n, t - 1, x, i);
      TermNonNegative(obs[t - 1], x);
    }
  }

  lemma CostSign(obs: seq<Obs>, n: nat, x: Vec)
    requires Usable(obs, n) && |x| == n
    ensures Cost(obs, n, |obs|, x) >= 0.0
  {
    if obs != [] { CostHolds(obs, n, |obs|, x, 0); }
  }

  /** Keeping fewer observations costs no more. */
  lemma FilterCost(front: seq<Obs>, kept: seq<Obs>, o: Obs, keep: bool, n: nat, x: Vec)
    requires Usable(front + [o], n) && Usable(front, n) && Usable(kept, n) && |x| == n
    requires Cost(kept, n, |kept|, x) <= Cost(front, n, |front|, x)
    ensures var more := kept + if keep then [o] else [];
            Usable(more, n) && Cost(more, n, |more|, x) <= Cost(front + [o], n, |front| + 1, x)
  {
    assert (front + [o])[|front|] == o;
    LastCost(front, o, n, x);
    LastCost(kept, o, n, x);
    TermNonNegative(o, x);
    if !keep { assert kept + [] == kept; }
  }

  lemma {:induction false} ProperCost(obs: seq<Obs>, n: nat, x: Vec)
    requires Usable(obs, n) && |x| == n
    ensures Usable(Proper(obs), n) && Cost(Proper(obs), n, |Proper(obs)|, x) <= Cost(obs, n, |obs|, x)
  {
    if obs != [] {
      var front, o := obs[..|obs| - 1], obs[|obs| - 1];
      assert obs == front + [o];
      ProperCost(front, n, x);
      FilterCost(front, Proper(front), o, o.a != o.b, n, x);
    }
  }

  lemma {:induction false} InsideCost(obs: seq<Obs>, members: set<nat>, n: nat, x: Vec)
    requires Usable(obs, n) && |x| == n
    ensures Usable(Inside(obs, members), n)
    ensures Cost(Inside(obs, members), n, |Inside(obs, members)|, x) <= Cost(obs, n, |obs|, x)
  {
    if obs != [] {
      var front, o := obs[..|obs| - 1], obs[|obs| - 1];
      assert obs == front + [o];
      InsideCost(front, members, n, x);
      FilterCost(front, Inside(front, members), o, o.a in members, n, x);
    }
  }

  lemma LastCost(front: seq<Obs>, o: Obs, n: nat, x: Vec)
    requires Usable(front, n) && |x| == n && o.sigma > 0.0 && o.a < n && o.b < n
    ensures Usable(front + [o], n) && Cost(front + [o], n, |front| + 1, x) == Cost(front, n, |front|, x) + Term(o, x)
  {
    CostPrefix(front, [o], n, |front|, x);
    assert (front + [o])[|front|] == o;
  }

  // ----- A quarrel with UTC -----

  /** UTC and v each read m of the other, which no offset of v can satisfy. */
  function Quarrel(utc: nat, v: nat, m: real, sigma: real): seq<Obs> {
    [Obs(utc, v, m, sigma), Obs(v, utc, m, sigma)]
  }

  /** The weighted squares of the readings themselves. */
  ghost function Burden(obs: seq<Obs>, n: nat): real
    requires Usable(obs, n)
  {
    Cost(obs, n, |obs|, Zeros(n))
  }

  lemma {:induction false} ProperJoin(a: seq<Obs>, b: seq<Obs>)
    ensures Proper(a + b) == Proper(a) + Proper(b)
  {
    if b == [] {
      assert a + b == a;
    } else {
      assert (a + b)[..|a + b| - 1] == a + b[..|b| - 1];
      ProperJoin(a, b[..|b| - 1]);
    }
  }

  lemma {:induction false} InsideJoin(a: seq<Obs>, b: seq<Obs>, members: set<nat>)
    ensures Inside(a + b, members) == Inside(a, members) + Inside(b, members)
  {
    if b == [] {
      assert a + b == a;
    } else {
      assert (a + b)[..|a + b| - 1] == a + b[..|b| - 1];
      InsideJoin(a, b[..|b| - 1], members);
    }
  }

  lemma QuarrelKept(utc: nat, v: nat, m: real, sigma: real, members: set<nat>)
    requires utc != v && utc in members && v in members
    ensures Inside(Proper(Quarrel(utc, v, m, sigma)), members) == Quarrel(utc, v, m, sigma)
  {
    var q := Quarrel(utc, v, m, sigma);
    assert q[..1] == [q[0]] && q[..1][..0] == [] && [q[0]][..0] == [];
    assert Proper([q[0]]) == [q[0]] && Proper(q) == q;
    assert Inside([q[0]], members) == [q[0]];
  }

  /** Everything measured: the network, the quarrel and the anchors' edges. */
  ghost function Heard(obs: seq<Obs>, q: seq<Obs>, utc: nat, chosen: seq<Anchor>): seq<Obs> {
    (obs + q) + AnchorEdges(utc, chosen)
  }

  lemma QuarrelConnects(obs: seq<Obs>, utc: nat, v: nat, m: real, sigma: real, chosen: seq<Anchor>)
    requires utc != v
    ensures Connected(Proper(Heard(obs, Quarrel(utc, v, m, sigma), utc, chosen)), utc, utc)
    ensures Connected(Proper(Heard(obs, Quarrel(utc, v, m, sigma), utc, chosen)), utc, v)
  {
    var all := Heard(obs, Quarrel(utc, v, m, sigma), utc, chosen);
    var o := all[|obs|];
    assert o == Obs(utc, v, m, sigma) && o in all && o in Proper(all);
    assert Joins(o, utc, v);
    JoinedBy(Proper(all), utc, v);
    assert Route(Proper(all), utc, utc, [utc]);
    assert Route(Proper(all), utc, v, [utc, v]);
  }

  /** The frame's observations: some of the network's, the quarrel, some of the anchors' edges. */
  lemma HeardInside(obs: seq<Obs>, utc: nat, v: nat, m: real, sigma: real, chosen: seq<Anchor>, members: set<nat>)
    requires utc != v && utc in members && v in members
    ensures Inside(Proper(Heard(obs, Quarrel(utc, v, m, sigma), utc, chosen)), members)
         == Inside(Proper(obs), members) + Quarrel(utc, v, m, sigma) + Inside(Proper(AnchorEdges(utc, chosen)), members)
  {
    var q := Quarrel(utc, v, m, sigma);
    ProperJoin(obs + q, AnchorEdges(utc, chosen));
    ProperJoin(obs, q);
    InsideJoin(Proper(obs + q), Proper(AnchorEdges(utc, chosen)), members);
    InsideJoin(Proper(obs), Proper(q), members);
    QuarrelKept(utc, v, m, sigma, members);
  }

  /** What is used of a solved frame: its observations, values, residuals, and that nothing costs less. */
  ghost predicate Best(f: NetworkFrame, n: nat, utc: nat, members: set<nat>, all: seq<Obs>) {
    && f.inside == Inside(Proper(all), members) && Usable(f.inside, n) && utc < n == |f.value| && f.value[utc] == 0.0
    && ResidualsOf(f.residuals, f.inside, f.value)
    && Cost(f.inside, n, |f.inside|, f.value) <= Cost(f.inside, n, |f.inside|, Zeros(n))
    && forall u: nat :: u in members <==> Connected(Proper(all), utc, u)
  }

  lemma SolvedIsBest(f: NetworkFrame, n: nat, utc: nat, all: seq<Obs>) returns (members: set<nat>)
    requires Solved(f, n, utc, all)
    ensures Best(f, n, utc, members, all)
  {
    members := set i: nat | i in f.span.order;
    var z := Zeros(n);
    assert f.span.order[0] == utc && z[f.span.order[0]] == 0.0;
    assert LeastSquares(f.inside, n, f.span.order, f.value);
    assert Cost(f.inside, n, |f.inside|, f.value) <= Cost(f.inside, n, |f.inside|, z);
  }

  // ----- The quarrel is the worst edge -----

  /** The quarrel's two terms add up to the readings' and twice the square of v's offset. */
  lemma QuarrelCost(utc: nat, v: nat, m: real, sigma: real, n: nat, x: Vec, w: real)
    requires utc != v && utc < n && v < n && |x| == n && x[utc] == 0.0 && sigma > 0.0 && w == 1.0 / (sigma * sigma)
    ensures Usable(Quarrel(utc, v, m, sigma), n)
    ensures Cost(Quarrel(utc, v, m, sigma), n, 2, x) == 2.0 * (w * (m * m)) + 2.0 * (w * (x[v] * x[v]))
  {
    var q := Quarrel(utc, v, m, sigma);
    assert Usable(q, n);
    assert Cost(q, n, 1, x) == Term(q[0], x) && Cost(q, n, 2, x) == Cost(q, n, 1, x) + Term(q[1], x);
    TwoSquares(w, m, x[v]);
  }

  lemma TwoSquares(w: real, m: real, y: real)
    ensures w * ((m - y) * (m - y)) + w * ((m + y) * (m + y)) == 2.0 * (w * (m * m)) + 2.0 * (w * (y * y))
  {
    assert (m - y) * (m - y) + (m + y) * (m + y) == 2.0 * (m * m) + 2.0 * (y * y);
    assert w * ((m - y) * (m - y) + (m + y) * (m + y)) == w * ((m - y) * (m - y)) + w * ((m + y) * (m + y));
  }

  /** Readings of zero cost nothing at zero. */
  lemma {:induction false} ZeroReadings(b: seq<Obs>, n: nat, t: nat)
    requires Usable(b, n) && t <= |b| && forall o :: o in b ==> o.m == 0.0
    ensures Cost(b, n, t, Zeros(n)) == 0.0
  {
    if t > 0 {
      ZeroReadings(b, n, t - 1);
      assert b[t - 1] in b;
    }
  }

  lemma CostOfThree(a: seq<Obs>, q: seq<Obs>, b: seq<Obs>, n: nat, x: Vec)
    requires Usable(a, n) && Usable(q, n) && Usable(b, n) && |x| == n
    ensures Usable(a + q + b, n)
    ensures Cost(a + q + b, n, |a + q + b|, x) == Cost(a, n, |a|, x) + Cost(q, n, |q|, x) + Cost(b, n, |b|, x)
  {
    CostJoin(a, q, n, |q|, x);
    CostJoin(a + q, b, n, |b|, x);
  }

  lemma PartsUsable(a: seq<Obs>, q: seq<Obs>, b: seq<Obs>, n: nat)
    requires Usable(a + q + b, n)
    ensures Usable(a, n) && Usable(q, n) && Usable(b, n)
  {
    var all := a + q + b;
    assert forall i :: 0 <= i < |a| ==> all[i] == a[i];
    assert forall i :: 0 <= i < |q| ==> all[|a| + i] == q[i];
    assert forall i :: 0 <= i < |b| ==> all[|a| + |q| + i] == b[i];
  }

  /**
   * Against the best solution: what the rest costs, and how far v is moved, is bounded without the quarrel's reading.
   */
  lemma QuarrelBound(a: seq<Obs>, b: seq<Obs>, n: nat, utc: nat, v: nat, m: real, sigma: real, x: Vec, w: real, c: real)
    requires utc != v && utc < n && v < n && |x| == n && x[utc] == 0.0 && sigma > 0.0 && w == 1.0 / (sigma * sigma)
    requires Usable(a, n) && Usable(b, n) && (forall o :: o in b ==> o.m == 0.0) && Cost(a, n, |a|, Zeros(n)) <= c
    requires Usable(a + Quarrel(utc, v, m, sigma) + b, n)
    requires var all := a + Quarrel(utc, v, m, sigma) + b; Cost(all, n, |all|, x) <= Cost(all, n, |all|, Zeros(n))
    ensures Cost(a, n, |a|, x) + Cost(b, n, |b|, x) + 2.0 * (w * (x[v] * x[v])) <= c
  {
    var q := Quarrel(utc, v, m, sigma);
    QuarrelCost(utc, v, m, sigma, n, x, w);
    QuarrelCost(utc, v, m, sigma, n, Zeros(n), w);
    CostOfThree(a, q, b, n, x);
    CostOfThree(a, q, b, n, Zeros(n));
    ZeroReadings(b, n, |b|);
    assert w * (0.0 * 0.0) == 0.0;
  }

  /** The reading of the quarrel is far out, if it is large against everything else measured. */
  lemma QuarrelFar(w: real, m: real, y: real, c: real)
    requires w > 0.0 && c >= 0.0 && w * (m * m) >= 4.0 * (c + 25.0) && 2.0 * (w * (y * y)) <= c
    ensures w * ((m - y) * (m - y)) > c + 25.0
  {
    var s := (m - y - y) * (m - y - y);
    assert s >= 0.0;
    assert 2.0 * ((m - y) * (m - y)) + 2.0 * (y * y) == m * m + s;
    assert w * s >= 0.0;
    assert w * (2.0 * ((m - y) * (m - y)) + 2.0 * (y * y)) == w * (m * m + s);
    assert w * (m * m + s) == w * (m * m) + w * s;
    assert w * (2.0 * ((m - y) * (m - y)) + 2.0 * (y * y)) == 2.0 * (w * ((m - y) * (m - y))) + 2.0 * (w * (y * y));
  }

  // ----- Distances in spreads -----

  lemma ZSquared(f: NetworkFrame, i: nat, n: nat)
    requires Readable(f) && i < |f.inside| && Usable(f.inside, n) && |f.value| == n
    requires ResidualsOf(f.residuals, f.inside, f.value)
    ensures Z(f, i) >= 0.0 && Z(f, i) * Z(f, i) == Term(f.inside[i], f.value)
  {
    var o := f.inside[i];
    var r := o.m - Diff(o, f.value);
    assert f.residuals[i] == r;
    QuotientSquared(r, o.sigma);
    var z := r / o.sigma;
    assert AbsReal(z) * AbsReal(z) == z * z;
  }

  lemma QuotientSquared(r: real, s: real)
    requires s > 0.0
    ensures s * s != 0.0 && (r / s) * (r / s) == (1.0 / (s * s)) * (r * r)
  {
    var e := ProductGap(s, s);
    var z, w := r / s, 1.0 / (s * s);
    assert z * s == r && w * (s * s) == 1.0;
    assert r * r == (z * z) * (s * s) by { SquareOfProduct(z, s, r); }
    assert w * (r * r) == (w * (s * s)) * (z * z) by { Regroup(w, z * z, s * s, r * r); }
  }

  lemma SquareOfProduct(z: real, s: real, r: real)
    requires z * s == r
    ensures r * r == (z * z) * (s * s)
  {
    assert (z * s) * (z * s) == (z * z) * (s * s);
  }

  lemma Regroup(w: real, u: real, v: real, p: real)
    requires p == u * v
    ensures w * p == (w * v) * u
  {
  }

  lemma SquaresOrder(a: real, b: real)
    requires a >= 0.0 && b >= 0.0
    ensures a * a < b * b ==> a < b
    ensures a <= b ==> a * a <= b * b
  {
  }

  // ----- The loop that never ends -----

  /** The reading is large against everything else measured, and against five spreads. */
  ghost predicate Loud(obs: seq<Obs>, n: nat, o: Obs)
    requires Usable(obs, n) && o.sigma > 0.0
  {
    LoudBy(o.Weight(), o.m, Burden(obs, n))
  }

  ghost predicate LoudBy(w: real, m: real, c: real) {
    w * (m * m) >= 4.0 * (c + 25.0)
  }

  /** The frame over a quarrel: its observations in three parts, and the bound on what is beside the quarrel. */
  ghost predicate Parted(f: NetworkFrame, n: nat, utc: nat, v: nat, m: real, sigma: real, w: real,
                         a: seq<Obs>, b: seq<Obs>, c: real) {
    && f.inside == a + Quarrel(utc, v, m, sigma) + b && Usable(f.inside, n) && Usable(a, n) && Usable(b, n)
    && utc < n && v < n && utc != v && |f.value| == n && f.value[utc] == 0.0
    && sigma > 0.0 && w == Obs(utc, v, m, sigma).Weight() && w > 0.0
    && ResidualsOf(f.residuals, f.inside, f.value) && c >= 0.0
    && Cost(a, n, |a|, f.value) + Cost(b, n, |b|, f.value) + 2.0 * (w * (f.value[v] * f.value[v])) <= c
  }

  lemma QuarrelParts(f: NetworkFrame, n: nat, obs: seq<Obs>, utc: nat, v: nat, m: real, sigma: real,
                     chosen: seq<Anchor>)
    returns (a: seq<Obs>, b: seq<Obs>, w: real)
    requires Usable(obs, n) && utc != v && v < n && sigma > 0.0
    requires Solved(f, n, utc, Heard(obs, Quarrel(utc, v, m, sigma), utc, chosen))
    ensures Parted(f, n, utc, v, m, sigma, w, a, b, Burden(obs, n))
  {
    var all := Heard(obs, Quarrel(utc, v, m, sigma), utc, chosen);
    var members := SolvedIsBest(f, n, utc, all);
    QuarrelConnects(obs, utc, v, m, sigma, chosen);
    HeardInside(obs, utc, v, m, sigma, chosen, members);
    a, b := Inside(Proper(obs), members), Inside(Proper(AnchorEdges(utc, chosen)), members);
    PartsUsable(a, Quarrel(utc, v, m, sigma), b, n);
    NetworkPart(obs, n, members);
    AnchorPart(utc, chosen, members);
    w := BestParts(f, n, utc, v, m, sigma, a, b, Burden(obs, n));
  }

  lemma NetworkPart(obs: seq<Obs>, n: nat, members: set<nat>)
    requires Usable(obs, n)
    ensures var a := Inside(Proper(obs), members); Usable(a, n) && Cost(a, n, |a|, Zeros(n)) <= Burden(obs, n)
    ensures Burden(obs, n) >= 0.0
  {
    ProperCost(obs, n, Zeros(n));
    InsideCost(Proper(obs), members, n, Zeros(n));
    CostSign(obs, n, Zeros(n));
  }

  lemma AnchorPart(utc: nat, chosen: seq<Anchor>, members: set<nat>)
    ensures forall o :: o in Inside(Proper(AnchorEdges(utc, chosen)), members) ==> o.m == 0.0
  {
  }

  lemma BestParts(f: NetworkFrame, n: nat, utc: nat, v: nat, m: real, sigma: real, a: seq<Obs>, b: seq<Obs>, c: real)
    returns (w: real)
    requires utc < n && v < n && utc != v && sigma > 0.0 && c >= 0.0 && f.inside == a + Quarrel(utc, v, m, sigma) + b
    requires Usable(f.inside, n) && Usable(a, n) && Usable(b, n) && |f.value| == n && f.value[utc] == 0.0
    requires ResidualsOf(f.residuals, f.inside, f.value)
    requires Cost(f.inside, n, |f.inside|, f.value) <= Cost(f.inside, n, |f.inside|, Zeros(n))
    requires Cost(a, n, |a|, Zeros(n)) <= c && forall o :: o in b ==> o.m == 0.0
    ensures Parted(f, n, utc, v, m, sigma, w, a, b, c)
  {
    w := QuarrelWeight(utc, v, m, sigma);
    QuarrelBound(a, b, n, utc, v, m, sigma, f.value, w, c);
  }

  lemma QuarrelWeight(utc: nat, v: nat, m: real, sigma: real) returns (w: real)
    requires sigma > 0.0
    ensures w > 0.0 && w == 1.0 / (sigma * sigma) == Obs(utc, v, m, sigma).Weight()
  {
    WeightPositive(Obs(utc, v, m, sigma));
    w := Obs(utc, v, m, sigma).Weight();
  }

  /** The terms beside the quarrel's are under the bound. */
  lemma OthersSmall(a: seq<Obs>, b: seq<Obs>, q: seq<Obs>, n: nat, x: Vec, c: real, rest: real, i: nat)
    requires Usable(a + q + b, n) && Usable(a, n) && Usable(b, n) && |x| == n && |q| == 2 && rest >= 0.0
    requires Cost(a, n, |a|, x) + Cost(b, n, |b|, x) + rest <= c && i < |a + q + b|
    ensures i < |a| || i > |a| + 1 ==> Term((a + q + b)[i], x) <= c
  {
    CostSign(a, n, x);
    CostSign(b, n, x);
    if i < |a| {
      CostHolds(a, n, |a|, x, i);
    } else if i > |a| + 1 {
      CostHolds(b, n, |b|, x, i - |a| - 2);
    }
  }

  /** The quarrel's own is far over it. */
  lemma QuarrelLarge(f: NetworkFrame, n: nat, utc: nat, v: nat, m: real, sigma: real, w: real, a: seq<Obs>, b: seq<Obs>,
                     c: real)
    requires Parted(f, n, utc, v, m, sigma, w, a, b, c) && LoudBy(w, m, c)
    ensures Term(f.inside[|a|], f.value) > c + 25.0 && f.inside[|a|] == Obs(utc, v, m, sigma)
  {
    var x := f.value;
    CostSign(a, n, x);
    CostSign(b, n, x);
    QuarrelFar(w, m, x[v], c);
    assert f.inside[|a|] == Obs(utc, v, m, sigma);
    assert m - Diff(f.inside[|a|], x) == m - x[v];
  }

  lemma SquareTimes(w: real, y: real)
    requires w > 0.0
    ensures 2.0 * (w * (y * y)) >= 0.0
  {
    assert y * y >= 0.0;
  }

  /** A loud quarrel is the one worst edge of UTC, past five of its spreads. */
  lemma QuarrelIsWorst(f: NetworkFrame, n: nat, utc: nat, v: nat, m: real, sigma: real, w: real,
                       a: seq<Obs>, b: seq<Obs>, c: real, i: nat)
    requires Parted(f, n, utc, v, m, sigma, w, a, b, c) && LoudBy(w, m, c) && WorstAt(f, utc, i)
    ensures f.inside[i].b == v && Z(f, i) > 5.0
  {
    assert f.inside[|a| + 1] == Obs(v, utc, m, sigma);
    QuarrelLarge(f, n, utc, v, m, sigma, w, a, b, c);
    SquareTimes(w, f.value[v]);
    OthersSmall(a, b, Quarrel(utc, v, m, sigma), n, f.value, c, 2.0 * (w * (f.value[v] * f.value[v])), i);
    WorstIsLarge(f, n, utc, |a|, i, c);
  }

  /** The worst edge is at least as far out as any other. */
  lemma WorstIsLarge(f: NetworkFrame, n: nat, utc: nat, k: nat, i: nat, c: real)
    requires WorstAt(f, utc, i) && k < |f.inside| && f.inside[k].a == utc && c >= 0.0
    requires Usable(f.inside, n) && |f.value| == n && ResidualsOf(f.residuals, f.inside, f.value)
    requires Term(f.inside[k], f.value) > c + 25.0
    ensures Term(f.inside[i], f.value) > c + 25.0 && Z(f, i) > 5.0
  {
    ZSquared(f, k, n);
    ZSquared(f, i, n);
    Larger(Z(f, k), Z(f, i), c);
  }

  lemma Larger(y: real, z: real, c: real)
    requires 0.0 <= y <= z && y * y > c + 25.0 && c >= 0.0
    ensures z * z > c + 25.0 && z > 5.0
  {
    SquaresOrder(y, z);
    SquaresOrder(z, 5.0);
  }

  /**
   * Whatever else is measured, and whatever three or more anchors are chosen beside v: if UTC and v each read m of the
   * other, and m is large enough, every round cuts v and leaves the chosen as they were.
   */
  lemma QuarrelLoops(n: nat, utc: nat, v: nat, m: real, sigma: real, obs: seq<Obs>, chosen: seq<Anchor>, solve: Solving,
                     pick: Picking)
    requires Usable(obs, n) && utc < n && v < n && utc != v && sigma > 0.0 && Loud(obs, n, Obs(utc, v, m, sigma))
    requires OneEach(chosen) && InRange(chosen, n) && |chosen| >= 3 && !Names(chosen, v)
    requires Machine(n, utc, Steady(utc, obs + Quarrel(utc, v, m, sigma)), solve, pick)
    ensures Endless(WorstCut(utc, solve, pick), chosen)
  {
    var cut := WorstCut(utc, solve, pick);
    var f := solve(chosen);
    assert SolvesFor(n, utc, Heard(obs, Quarrel(utc, v, m, sigma), utc, chosen), f, pick(f));
    QuarrelRejects(n, utc, v, m, sigma, obs, chosen, f, pick(f));
    assert cut(chosen) == Some(v);
    assert CutsOutside(cut, chosen, 0);
    EndlessIffOutside(cut, chosen);
  }

  lemma QuarrelRejects(n: nat, utc: nat, v: nat, m: real, sigma: real, obs: seq<Obs>, chosen: seq<Anchor>,
                       f: NetworkFrame, i: nat)
    requires Usable(obs, n) && utc < n && v < n && utc != v && sigma > 0.0 && Loud(obs, n, Obs(utc, v, m, sigma))
    requires |chosen| >= 3 && Solved(f, n, utc, Heard(obs, Quarrel(utc, v, m, sigma), utc, chosen))
    requires HasUtcEdge(f, utc) ==> WorstAt(f, utc, i)
    ensures CutOf(utc, f, i, chosen) == Some(v)
  {
    var a, b, w := QuarrelParts(f, n, obs, utc, v, m, sigma, chosen);
    PartedRejects(f, n, utc, v, m, sigma, w, a, b, Burden(obs, n), chosen, i);
  }

  lemma PartedRejects(f: NetworkFrame, n: nat, utc: nat, v: nat, m: real, sigma: real, w: real,
                      a: seq<Obs>, b: seq<Obs>, c: real, chosen: seq<Anchor>, i: nat)
    requires Parted(f, n, utc, v, m, sigma, w, a, b, c) && LoudBy(w, m, c) && |chosen| >= 3
    requires HasUtcEdge(f, utc) ==> WorstAt(f, utc, i)
    ensures CutOf(utc, f, i, chosen) == Some(v)
  {
    assert f.inside[|a|] == Obs(utc, v, m, sigma);
    QuarrelIsWorst(f, n, utc, v, m, sigma, w, a, b, c, i);
  }

  /** There is always such a reading. */
  lemma LoudExists(obs: seq<Obs>, n: nat, utc: nat, v: nat, sigma: real) returns (m: real)
    requires Usable(obs, n) && sigma > 0.0
    ensures Loud(obs, n, Obs(utc, v, m, sigma))
  {
    CostSign(obs, n, Zeros(n));
    var c := Burden(obs, n) + 26.0;
    m := 2.0 * c * sigma;
    var w := Obs(utc, v, m, sigma).Weight();
    WeightPositive(Obs(utc, v, m, sigma));
    assert w * (sigma * sigma) == 1.0;
    assert m * m == 4.0 * (c * c) * (sigma * sigma);
    Regroup(w, 4.0 * (c * c), sigma * sigma, m * m);
    assert c * c >= c;
  }

  /**
   * So UTC must be silent: whatever the network measures, an edge that UTC measures and its other end measures back can
   * read so that the loop never ends, for any three or more anchors elsewhere.
   */
  lemma UtcEdgeCanLoop(n: nat, utc: nat, v: nat, sigma: real, obs: seq<Obs>, chosen: seq<Anchor>) returns (m: real)
    requires Usable(obs, n) && utc < n && v < n && utc != v && sigma > 0.0
    requires OneEach(chosen) && InRange(chosen, n) && |chosen| >= 3 && !Names(chosen, v)
    ensures forall solve: Solving, pick: Picking ::
              Machine(n, utc, Steady(utc, obs + Quarrel(utc, v, m, sigma)), solve, pick) ==>
              Endless(WorstCut(utc, solve, pick), chosen)
  {
    m := LoudExists(obs, n, utc, v, sigma);
    forall solve: Solving, pick: Picking | Machine(n, utc, Steady(utc, obs + Quarrel(utc, v, m, sigma)), solve, pick)
      ensures Endless(WorstCut(utc, solve, pick), chosen)
    {
      QuarrelLoops(n, utc, v, m, sigma, obs, chosen, solve, pick);
    }
  }

  /** Three anchors tied by readings of zero, and UTC and node 4 at odds by 100 ns: no number of rounds stops. */
  lemma HundredNanoseconds(solve: Solving, pick: Picking, chosen: seq<Anchor>)
    requires chosen == [Anchor(1, 1.0, 0.0, 1, 0), Anchor(2, 1.0, 0.0, 1, 0), Anchor(3, 1.0, 0.0, 1, 0)]
    requires Machine(6, 5, Steady(5, TIES + Quarrel(5, 4, 100.0, 1.0)), solve, pick)
    ensures Endless(WorstCut(5, solve, pick), chosen)
  {
    HundredIsLoud();
    ThreeAnchors(chosen);
    QuarrelLoops(6, 5, 4, 100.0, 1.0, TIES, chosen, solve, pick);
  }

  lemma ThreeAnchors(chosen: seq<Anchor>)
    requires chosen == [Anchor(1, 1.0, 0.0, 1, 0), Anchor(2, 1.0, 0.0, 1, 0), Anchor(3, 1.0, 0.0, 1, 0)]
    ensures OneEach(chosen) && InRange(chosen, 6) && !Names(chosen, 4)
  {
  }

  lemma HundredIsLoud()
    ensures Usable(TIES, 6) && Loud(TIES, 6, Obs(5, 4, 100.0, 1.0))
  {
    assert forall o :: o in TIES ==> o.m == 0.0;
    ZeroReadings(TIES, 6, 3);
    assert Obs(5, 4, 100.0, 1.0).Weight() == 1.0;
  }

  const TIES: seq<Obs> := [Obs(0, 1, 0.0, 1.0), Obs(0, 2, 0.0, 1.0), Obs(0, 3, 0.0, 1.0)]
}
