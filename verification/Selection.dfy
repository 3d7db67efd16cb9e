/** Clock selection: `solve_absolute` sets aside falsetickers, then outliers, and solves the frame over the rest. */
module Selection {
  import opened Basics
  import opened Vectors
  import opened Cholesky
  import opened Laplacian
  import opened Cycles
  import opened Frame
  import opened Gossip
  import R = Robust

  const MIN_SURVIVORS := 3
  const CLUSTER_K := 4.0
  const MIN_SIGMA := 1.0

  /** What clock selection comes to. */
  datatype Absolute =
    | NoAnchor
    | Unending(chosen: seq<Anchor>, frame: NetworkFrame)
    | Selected(frame: NetworkFrame, survivors: seq<Anchor>, falsetickers: seq<nat>, outliers: seq<nat>, jitter: real)

  // ----- Anchors -----

  /** The anchors are the values of a map: one for each reference. */
  ghost predicate OneEach(anchors: seq<Anchor>) {
    forall i, j :: 0 <= i < j < |anchors| ==> anchors[i].node != anchors[j].node
  }

  predicate Names(anchors: seq<Anchor>, v: nat) {
    exists a :: a in anchors && a.node == v
  }

  /** Who measures whom. */
  type Links = seq<(nat, nat)>

  ghost predicate Spans(links: Links, n: nat) {
    forall k :: 0 <= k < |links| ==> links[k].0 < n && links[k].1 < n
  }

  predicate AtEnd(l: (nat, nat), v: nat) {
    l.0 == v || l.1 == v
  }

  /** Some measurement ties v to the network. */
  predicate Tied(links: Links, v: nat) {
    exists l :: l in links && AtEnd(l, v)
  }

  function TiedAnchors(anchors: seq<Anchor>, links: Links): (kept: seq<Anchor>)
    ensures forall a :: a in kept <==> a in anchors && Tied(links, a.node)
  {
    if anchors == [] then [] else
      var a := anchors[|anchors| - 1];
      assert anchors == anchors[..|anchors| - 1] + [a];
      TiedAnchors(anchors[..|anchors| - 1], links) + if Tied(links, a.node) then [a] else []
  }

  lemma {:induction false} TiedOneEach(anchors: seq<Anchor>, links: Links)
    requires OneEach(anchors)
    ensures OneEach(TiedAnchors(anchors, links))
  {
    if anchors != [] {
      var front, a := anchors[..|anchors| - 1], anchors[|anchors| - 1];
      TiedOneEach(front, links);
      var kept := TiedAnchors(front, links);
      forall i | 0 <= i < |kept| ensures kept[i].node != a.node {
        assert kept[i] in kept;
        var k :| 0 <= k < |front| && front[k] == kept[i];
      }
    }
  }

  /** All but the anchor of v. */
  function Without(chosen: seq<Anchor>, v: nat): (kept: seq<Anchor>)
    ensures forall a :: a in kept <==> a in chosen && a.node != v
  {
    if chosen == [] then [] else
      var a := chosen[|chosen| - 1];
      assert chosen == chosen[..|chosen| - 1] + [a];
      Without(chosen[..|chosen| - 1], v) + if a.node != v then [a] else []
  }

  /** What is kept of a list without the anchor of v names nothing the list does not. */
  lemma KeptFrom(front: seq<Anchor>, v: nat, w: nat)
    requires forall i :: 0 <= i < |front| ==> front[i].node != w
    ensures forall i :: 0 <= i < |Without(front, v)| ==> Without(front, v)[i].node != w
  {
    var kept := Without(front, v);
    forall i | 0 <= i < |kept| ensures kept[i].node != w {
      assert kept[i] in kept;
      var k :| 0 <= k < |front| && front[k] == kept[i];
    }
  }

  lemma {:induction false} WithoutOneEach(chosen: seq<Anchor>, v: nat)
    requires OneEach(chosen)
    ensures OneEach(Without(chosen, v))
  {
    if chosen != [] {
      var front, a := chosen[..|chosen| - 1], chosen[|chosen| - 1];
      WithoutOneEach(front, v);
      KeptFrom(front, v, a.node);
    }
  }

  lemma {:induction false} WithoutNothing(chosen: seq<Anchor>, v: nat)
    requires forall i :: 0 <= i < |chosen| ==> chosen[i].node != v
    ensures Without(chosen, v) == chosen
  {
    if chosen != [] {
      var front, a := chosen[..|chosen| - 1], chosen[|chosen| - 1];
      assert a.node != v;
      WithoutNothing(front, v);
      assert Without(chosen, v) == front + [a];
    }
  }

  /** Setting an anchor aside shortens the list by one exactly when it is on it, and otherwise changes nothing. */
  lemma {:induction false} WithoutShrinks(chosen: seq<Anchor>, v: nat)
    requires OneEach(chosen)
    ensures if Names(chosen, v) then |Without(chosen, v)| == |chosen| - 1 else Without(chosen, v) == chosen
  {
    if !Names(chosen, v) {
      forall i | 0 <= i < |chosen| ensures chosen[i].node != v {
        assert chosen[i] in chosen;
      }
      WithoutNothing(chosen, v);
    } else {
      var front, a := chosen[..|chosen| - 1], chosen[|chosen| - 1];
      var b :| b in chosen && b.node == v;
      if a.node == v {
        WithoutNothing(front, v);
      } else {
        assert chosen == front + [a] && b in front;
        WithoutShrinks(front, v);
      }
    }
  }

  // ----- The split -----

  /** Every anchor of start is chosen or set aside, never both and never twice. */
  ghost predicate Divided(start: seq<Anchor>, chosen: seq<Anchor>, aside: seq<nat>) {
    && OneEach(chosen) && Distinct(aside) && |start| == |chosen| + |aside|
    && (forall a :: a in chosen ==> a in start && a.node !in aside)
    && (forall v :: v in aside ==> Names(start, v))
    && (forall a :: a in start ==> a in chosen || a.node in aside)
  }

  lemma SetAside(start: seq<Anchor>, chosen: seq<Anchor>, aside: seq<nat>, v: nat)
    requires Divided(start, chosen, aside) && Names(chosen, v)
    ensures Divided(start, Without(chosen, v), aside + [v]) && |Without(chosen, v)| == |chosen| - 1
  {
    WithoutOneEach(chosen, v);
    WithoutShrinks(chosen, v);
    var a :| a in chosen && a.node == v;
    assert forall x :: x in aside + [v] <==> x in aside || x == v;
    forall b | b in start ensures b in Without(chosen, v) || b.node in aside + [v] {
    }
  }

  // ----- Rounds -----

  /** One round of a rejection loop: the anchors it solved for, the frame, and the node it cut. */
  datatype Round = Round(chosen: seq<Anchor>, frame: NetworkFrame, cut: nat)

  /** The rounds lead from start to chosen, each dropping the node it cut. */
  ghost predicate Chained(start: seq<Anchor>, rounds: seq<Round>, chosen: seq<Anchor>) {
    if rounds == [] then chosen == start else
      var last := rounds[|rounds| - 1];
      chosen == Without(last.chosen, last.cut) && Chained(start, rounds[..|rounds| - 1], last.chosen)
  }

  /** The nodes the rounds cut, in order. */
  ghost predicate CutBy(rounds: seq<Round>, aside: seq<nat>) {
    |aside| == |rounds| && forall k :: 0 <= k < |rounds| ==> aside[k] == rounds[k].cut
  }

  lemma ChainGrows(start: seq<Anchor>, rounds: seq<Round>, chosen: seq<Anchor>, aside: seq<nat>, r: Round)
    requires Chained(start, rounds, chosen) && CutBy(rounds, aside) && r.chosen == chosen
    ensures Chained(start, rounds + [r], Without(chosen, r.cut)) && CutBy(rounds + [r], aside + [r.cut])
  {
    assert (rounds + [r])[..|rounds|] == rounds;
  }

  // ----- The frame over the chosen -----

  function AnchorEdge(utc: nat, a: Anchor): Obs {
    Obs(utc, a.node, 0.0, Max(a.sigma, MIN_SIGMA))
  }

  /** UTC measures every chosen anchor to read zero, within the anchor's spread. */
  function AnchorEdges(utc: nat, chosen: seq<Anchor>): (es: seq<Obs>)
    ensures |es| == |chosen| && forall i :: 0 <= i < |es| ==> es[i] == AnchorEdge(utc, chosen[i])
  {
    seq(|chosen|, i requires 0 <= i < |chosen| => AnchorEdge(utc, chosen[i]))
  }

  ghost predicate InRange(anchors: seq<Anchor>, n: nat) {
    forall a :: a in anchors ==> a.node < n
  }

  /**
   * What every edge reads in the round that solves for those anchors. Edges are read at instants that the solution
   * gives, so readings and spreads move with the anchors; who measures whom does not.
   */
  type Readings = seq<Anchor> -> seq<Obs>

  /** obs are readings of the links, with any spread the code lets through. */
  ghost predicate Follows(obs: seq<Obs>, links: Links) {
    && |obs| == |links|
    && forall k :: 0 <= k < |obs| ==> obs[k].a == links[k].0 && obs[k].b == links[k].1 && obs[k].sigma >= MIN_SIGMA
  }

  /** UTC reads zero of the anchor, with any spread the code lets through. */
  predicate ReadsZero(o: Obs, utc: nat, a: Anchor) {
    o.a == utc && o.b == a.node && o.m == 0.0 && o.sigma >= MIN_SIGMA
  }

  /** all are readings of the links and then of the chosen anchors. */
  ghost predicate ReadsAll(all: seq<Obs>, links: Links, utc: nat, chosen: seq<Anchor>) {
    && |all| == |links| + |chosen| && Follows(all[..|links|], links)
    && forall k :: 0 <= k < |chosen| ==> ReadsZero(all[|links| + k], utc, chosen[k])
  }

  ghost predicate Setting(n: nat, utc: nat, links: Links, readings: Readings) {
    && utc < n && Spans(links, n)
    && forall chosen :: InRange(chosen, n) ==> ReadsAll(readings(chosen), links, utc, chosen)
  }

  /** UTC itself measures no other node. */
  ghost predicate UtcSilent(links: Links, utc: nat) {
    forall k :: 0 <= k < |links| && links[k].0 == utc ==> links[k].1 == utc
  }

  /** Every reading is of a link or of an anchor. */
  lemma ReadingAt(all: seq<Obs>, links: Links, utc: nat, chosen: seq<Anchor>, k: nat)
    requires ReadsAll(all, links, utc, chosen) && k < |all|
    ensures all[k].sigma >= MIN_SIGMA
    ensures k < |links| ==> all[k].a == links[k].0 && all[k].b == links[k].1
    ensures k >= |links| ==> ReadsZero(all[k], utc, chosen[k - |links|]) && Names(chosen, all[k].b)
  {
    if k < |links| {
      assert all[..|links|][k] == all[k];
    } else {
      assert chosen[k - |links|] in chosen && ReadsZero(all[|links| + (k - |links|)], utc, chosen[k - |links|]);
    }
  }

  lemma ReadingsUsable(n: nat, utc: nat, links: Links, all: seq<Obs>, chosen: seq<Anchor>)
    requires utc < n && Spans(links, n) && ReadsAll(all, links, utc, chosen) && InRange(chosen, n)
    ensures Usable(all, n)
  {
    forall k | 0 <= k < |all|
      ensures all[k].sigma > 0.0 && all[k].a < n && all[k].b < n
    {
      ReadingAt(all, links, utc, chosen, k);
      if k >= |links| { assert chosen[k - |links|] in chosen; }
    }
  }

  method SolveWith(n: nat, utc: nat, links: Links, readings: Readings, chosen: seq<Anchor>, sqrt: real -> real)
    returns (f: NetworkFrame)
    requires Setting(n, utc, links, readings) && InRange(chosen, n) && IsSqrt(sqrt)
    ensures Solved(f, n, utc, readings(chosen))
  {
    ReadingsUsable(n, utc, links, readings(chosen), chosen);
    f := SolveFrame(n, utc, readings(chosen), sqrt);
  }

  lemma FrameEdge(f: NetworkFrame, n: nat, utc: nat, all: seq<Obs>, i: nat) returns (k: nat)
    requires Solved(f, n, utc, all) && i < |f.inside|
    ensures k < |all| && all[k] == f.inside[i] && f.inside[i].a != f.inside[i].b
  {
    assert f.inside[i] in f.inside;
    k :| 0 <= k < |all| && all[k] == f.inside[i];
  }

  /** An edge of UTC in the frame leads to a chosen anchor. */
  lemma UtcEdgeIsChosen(n: nat, utc: nat, links: Links, all: seq<Obs>, chosen: seq<Anchor>, f: NetworkFrame, i: nat)
    requires UtcSilent(links, utc) && ReadsAll(all, links, utc, chosen) && Solved(f, n, utc, all) && i < |f.inside|
    requires f.inside[i].a == utc
    ensures Names(chosen, f.inside[i].b)
  {
    var k := FrameEdge(f, n, utc, all, i);
    ReadingAt(all, links, utc, chosen, k);
  }

  lemma AnchorConnected(utc: nat, links: Links, all: seq<Obs>, chosen: seq<Anchor>, a: Anchor)
    requires ReadsAll(all, links, utc, chosen) && a in chosen
    ensures Connected(Proper(all), utc, a.node)
  {
    if a.node == utc {
      assert Route(Proper(all), utc, utc, [utc]);
    } else {
      var i :| 0 <= i < |chosen| && chosen[i] == a;
      var o := all[|links| + i];
      assert ReadsZero(o, utc, a) && o in all && o in Proper(all);
      assert Joins(o, utc, a.node);
      JoinedBy(Proper(all), utc, a.node);
      assert Route(Proper(all), utc, a.node, [utc, a.node]);
    }
  }

  // ----- Falsetickers -----

  /** How many of its own spreads an edge's measurement is from the solution. */
  function Z(f: NetworkFrame, i: nat): real
    requires i < |f.inside| && |f.residuals| == |f.inside| && f.inside[i].sigma != 0.0
  {
    AbsReal(f.residuals[i] / f.inside[i].sigma)
  }

  ghost predicate Readable(f: NetworkFrame) {
    |f.residuals| == |f.inside| && forall i :: 0 <= i < |f.inside| ==> f.inside[i].sigma != 0.0
  }

  lemma SolvedIsReadable(f: NetworkFrame, n: nat, r: nat, obs: seq<Obs>)
    requires Solved(f, n, r, obs)
    ensures Readable(f)
  {
  }

  /** No edge of UTC is farther from the solution in its own spreads. */
  ghost predicate WorstAt(f: NetworkFrame, utc: nat, i: nat) {
    && Readable(f) && i < |f.inside| && f.inside[i].a == utc
    && forall k :: 0 <= k < |f.inside| && f.inside[k].a == utc ==> Z(f, k) <= Z(f, i)
  }

  method WorstEdge(f: NetworkFrame, utc: nat) returns (worst: Option<nat>)
    requires Readable(f)
    ensures worst.None? <==> forall i :: 0 <= i < |f.inside| ==> f.inside[i].a != utc
    ensures worst.Some? ==> WorstAt(f, utc, worst.value)
  {
    worst := None;
    for i := 0 to |f.inside|
      invariant worst.None? <==> forall k :: 0 <= k < i ==> f.inside[k].a != utc
      invariant worst.Some? ==> worst.value < i && f.inside[worst.value].a == utc
      invariant worst.Some? ==> forall k :: 0 <= k < i && f.inside[k].a == utc ==> Z(f, k) <= Z(f, worst.value)
    {
      if f.inside[i].a == utc && (worst.None? || Z(f, i) >= Z(f, worst.value)) { worst := Some(i); }
    }
  }

  /** With three or more anchors, none is more than five of its spreads from the consensus. */
  ghost predicate Agreed(f: NetworkFrame, utc: nat, chosen: seq<Anchor>) {
    Readable(f) && (|chosen| >= 3 ==> forall i :: 0 <= i < |f.inside| && f.inside[i].a == utc ==> Z(f, i) <= 5.0)
  }

  /** The round does not stop: with three or more anchors, the worst edge i is past five of its spreads. */
  ghost predicate Rejects(f: NetworkFrame, utc: nat, chosen: seq<Anchor>, i: nat) {
    WorstAt(f, utc, i) && |chosen| >= 3 && Z(f, i) > 5.0
  }

  /** The round cuts a node that is not chosen, so it changes nothing. */
  ghost predicate Stuck(f: NetworkFrame, utc: nat, chosen: seq<Anchor>) {
    exists i: nat :: Rejects(f, utc, chosen, i) && !Names(chosen, f.inside[i].b)
  }

  /** A round that cut the node its worst edge leads to. */
  ghost predicate CutsWorst(n: nat, utc: nat, readings: Readings, r: Round) {
    Solved(r.frame, n, utc, readings(r.chosen)) && LeadsWorst(r.frame, utc, r.chosen, r.cut)
  }

  ghost predicate LeadsWorst(f: NetworkFrame, utc: nat, chosen: seq<Anchor>, v: nat) {
    exists i: nat :: Rejects(f, utc, chosen, i) && v == f.inside[i].b
  }

  ghost predicate AllCutWorst(n: nat, utc: nat, readings: Readings, rounds: seq<Round>) {
    rounds == []
    || (&& CutsWorst(n, utc, readings, rounds[|rounds| - 1])
        && AllCutWorst(n, utc, readings, rounds[..|rounds| - 1]))
  }

  lemma AnotherCutsWorst(n: nat, utc: nat, readings: Readings, rounds: seq<Round>, r: Round)
    requires AllCutWorst(n, utc, readings, rounds) && CutsWorst(n, utc, readings, r)
    ensures AllCutWorst(n, utc, readings, rounds + [r])
  {
    assert (rounds + [r])[..|rounds|] == rounds;
  }

  datatype Sifted = Sifted(chosen: seq<Anchor>, falsetickers: seq<nat>, frame: NetworkFrame, ends: bool)

  /**
   * The first loop. It ends with the anchors agreed, or comes to a list it never leaves again: its worst edge leads to
   * a node that is not chosen. The second happens only when UTC itself measures another node.
   */
  method SetAsideFalsetickers(n: nat, utc: nat, links: Links, readings: Readings, start: seq<Anchor>,
                              sqrt: real -> real)
    returns (s: Sifted, ghost rounds: seq<Round>)
    requires Setting(n, utc, links, readings) && InRange(start, n) && OneEach(start) && IsSqrt(sqrt)
    ensures Divided(start, s.chosen, s.falsetickers) && (s.falsetickers != [] ==> |s.chosen| >= 2)
    ensures Chained(start, rounds, s.chosen) && CutBy(rounds, s.falsetickers)
    ensures AllCutWorst(n, utc, readings, rounds)
    ensures Solved(s.frame, n, utc, readings(s.chosen))
    ensures if s.ends then Agreed(s.frame, utc, s.chosen) else Stuck(s.frame, utc, s.chosen)
    ensures UtcSilent(links, utc) ==> s.ends
  {
    var chosen, falsetickers := start, [];
    rounds := [];
    while true
      invariant Divided(start, chosen, falsetickers) && (falsetickers != [] ==> |chosen| >= 2)
      invariant Chained(start, rounds, chosen) && CutBy(rounds, falsetickers)
      invariant AllCutWorst(n, utc, readings, rounds)
      decreases |chosen|
    {
      var f := SolveWith(n, utc, links, readings, chosen, sqrt);
      var cut := Falseticker(n, utc, links, readings, chosen, f);
      if cut.None? { return Sifted(chosen, falsetickers, f, true), rounds; }
      if !Names(chosen, cut.value) { return Sifted(chosen, falsetickers, f, false), rounds; }
      SetAside(start, chosen, falsetickers, cut.value);
      ghost var r := Round(chosen, f, cut.value);
      ChainGrows(start, rounds, chosen, falsetickers, r);
      AnotherCutsWorst(n, utc, readings, rounds, r);
      rounds := rounds + [r];
      chosen, falsetickers := Without(chosen, cut.value), falsetickers + [cut.value];
    }
  }

  /** The node one round cuts, if it does not stop. */
  method Falseticker(n: nat, utc: nat, ghost links: Links, ghost readings: Readings, chosen: seq<Anchor>,
                     f: NetworkFrame)
    returns (cut: Option<nat>)
    requires Setting(n, utc, links, readings) && InRange(chosen, n) && Solved(f, n, utc, readings(chosen))
    ensures cut.None? ==> Agreed(f, utc, chosen)
    ensures cut.Some? ==> CutsWorst(n, utc, readings, Round(chosen, f, cut.value))
    ensures cut.Some? && !Names(chosen, cut.value) ==> Stuck(f, utc, chosen) && !UtcSilent(links, utc)
  {
    SolvedIsReadable(f, n, utc, readings(chosen));
    var worst := WorstEdge(f, utc);
    if !(worst.Some? && |chosen| >= 3 && Z(f, worst.value) > 5.0) { return None; }
    assert Rejects(f, utc, chosen, worst.value);
    if UtcSilent(links, utc) { UtcEdgeIsChosen(n, utc, links, readings(chosen), chosen, f, worst.value); }
    cut := Some(f.inside[worst.value].b);
  }

  // ----- Outliers -----

  /** The offsets the frame has for the chosen. */
  function Offsets(f: NetworkFrame, chosen: seq<Anchor>): seq<(nat, real)> {
    if chosen == [] then [] else
      var a := chosen[|chosen| - 1];
      Offsets(f, chosen[..|chosen| - 1])
      + if a.node in f.span.order && a.node < |f.value| then [(a.node, f.value[a.node])] else []
  }

  function Seconds(s: seq<(nat, real)>): (r: seq<real>)
    ensures |r| == |s| && forall i :: 0 <= i < |s| ==> r[i] == s[i].1
  {
    seq(|s|, i requires 0 <= i < |s| => s[i].1)
  }

  ghost predicate Placed(f: NetworkFrame, chosen: seq<Anchor>) {
    forall a :: a in chosen ==> a.node in f.span.order && a.node < |f.value|
  }

  /** The offsets read, one for each chosen anchor in order. */
  lemma {:induction false} OffsetsComplete(f: NetworkFrame, chosen: seq<Anchor>)
    requires Placed(f, chosen)
    ensures |Offsets(f, chosen)| == |chosen|
    ensures forall i :: 0 <= i < |chosen| ==>
              chosen[i] in chosen && Offsets(f, chosen)[i] == (chosen[i].node, f.value[chosen[i].node])
  {
    if chosen != [] {
      var a := chosen[|chosen| - 1];
      assert chosen == chosen[..|chosen| - 1] + [a] && a in chosen;
      OffsetsComplete(f, chosen[..|chosen| - 1]);
    }
  }

  /** Every chosen anchor is in UTC's component, so the frame has an offset for it. */
  lemma AllPlaced(n: nat, utc: nat, links: Links, all: seq<Obs>, chosen: seq<Anchor>, f: NetworkFrame)
    requires ReadsAll(all, links, utc, chosen) && Solved(f, n, utc, all) && InRange(chosen, n)
    ensures Placed(f, chosen)
  {
    forall a | a in chosen ensures a.node in f.span.order {
      AnchorConnected(utc, links, all, chosen, a);
    }
  }

  method Farthest(offsets: seq<(nat, real)>, median: real) returns (w: nat)
    requires offsets != []
    ensures w < |offsets|
    ensures forall i :: 0 <= i < |offsets| ==> AbsReal(offsets[i].1 - median) <= AbsReal(offsets[w].1 - median)
  {
    w := 0;
    for i := 1 to |offsets|
      invariant w < i
      invariant forall k :: 0 <= k < i ==> AbsReal(offsets[k].1 - median) <= AbsReal(offsets[w].1 - median)
    {
      if AbsReal(offsets[i].1 - median) >= AbsReal(offsets[w].1 - median) { w := i; }
    }
  }

  /** With more than three survivors, none is more than four robust spreads from their median. */
  ghost predicate Clustered(f: NetworkFrame, chosen: seq<Anchor>, jitter: real) {
    var (median, spread) := R.RobustSpread(Seconds(Offsets(f, chosen)));
    && jitter == spread && Placed(f, chosen)
    && (|chosen| > MIN_SURVIVORS ==>
        forall a :: a in chosen ==> AbsReal(f.value[a.node] - median) <= CLUSTER_K * spread)
  }

  /** v is the survivor farthest from the median, and past four robust spreads. */
  ghost predicate FarthestOut(f: NetworkFrame, chosen: seq<Anchor>, v: nat)
    requires Placed(f, chosen)
  {
    exists a :: a in chosen && a.node == v && Beyond(f, chosen, a, Centre(f, chosen), Limit(f, chosen))
  }

  ghost function Centre(f: NetworkFrame, chosen: seq<Anchor>): real {
    R.RobustSpread(Seconds(Offsets(f, chosen))).0
  }

  ghost function Limit(f: NetworkFrame, chosen: seq<Anchor>): real {
    CLUSTER_K * R.RobustSpread(Seconds(Offsets(f, chosen))).1
  }

  ghost predicate Beyond(f: NetworkFrame, chosen: seq<Anchor>, a: Anchor, median: real, limit: real)
    requires Placed(f, chosen) && a in chosen
  {
    && AbsReal(f.value[a.node] - median) > limit
    && forall b :: b in chosen ==> AbsReal(f.value[b.node] - median) <= AbsReal(f.value[a.node] - median)
  }

  /** A round that cut the farthest of more than three survivors. */
  ghost predicate CutsFarthest(n: nat, utc: nat, readings: Readings, r: Round) {
    && Solved(r.frame, n, utc, readings(r.chosen))
    && |r.chosen| > MIN_SURVIVORS && Placed(r.frame, r.chosen) && FarthestOut(r.frame, r.chosen, r.cut)
  }

  ghost predicate AllCutFarthest(n: nat, utc: nat, readings: Readings, rounds: seq<Round>) {
    rounds == []
    || (&& CutsFarthest(n, utc, readings, rounds[|rounds| - 1])
        && AllCutFarthest(n, utc, readings, rounds[..|rounds| - 1]))
  }

  lemma AnotherCutsFarthest(n: nat, utc: nat, readings: Readings, rounds: seq<Round>, r: Round)
    requires AllCutFarthest(n, utc, readings, rounds) && CutsFarthest(n, utc, readings, r)
    ensures AllCutFarthest(n, utc, readings, rounds + [r])
  {
    assert (rounds + [r])[..|rounds|] == rounds;
  }

  method SetAsideOutliers(n: nat, utc: nat, links: Links, readings: Readings, start: seq<Anchor>, f0: NetworkFrame,
                          sqrt: real -> real)
    returns (chosen: seq<Anchor>, outliers: seq<nat>, f: NetworkFrame, jitter: real, ghost rounds: seq<Round>)
    requires Setting(n, utc, links, readings) && InRange(start, n) && OneEach(start) && IsSqrt(sqrt)
    requires Solved(f0, n, utc, readings(start))
    ensures Divided(start, chosen, outliers)
    ensures if outliers == [] then chosen == start && f == f0 else |chosen| >= MIN_SURVIVORS
    ensures Chained(start, rounds, chosen) && CutBy(rounds, outliers)
    ensures AllCutFarthest(n, utc, readings, rounds)
    ensures Solved(f, n, utc, readings(chosen)) && Clustered(f, chosen, jitter)
  {
    chosen, outliers, f, rounds := start, [], f0, [];
    while true
      invariant Divided(start, chosen, outliers)
      invariant if outliers == [] then chosen == start && f == f0 else |chosen| >= MIN_SURVIVORS
      invariant Chained(start, rounds, chosen) && CutBy(rounds, outliers)
      invariant AllCutFarthest(n, utc, readings, rounds)
      invariant Solved(f, n, utc, readings(chosen))
      decreases |chosen|
    {
      AllPlaced(n, utc, links, readings(chosen), chosen, f);
      var worst, spread := Outlier(f, chosen);
      jitter := spread;
      if worst.None? { return; }
      SetAside(start, chosen, outliers, worst.value);
      ghost var r := Round(chosen, f, worst.value);
      ChainGrows(start, rounds, chosen, outliers, r);
      AnotherCutsFarthest(n, utc, readings, rounds, r);
      rounds := rounds + [r];
      chosen, outliers := Without(chosen, worst.value), outliers + [worst.value];
      f := SolveWith(n, utc, links, readings, chosen, sqrt);
    }
  }

  /** The survivor to cut next, if any: the one farthest from the median, past four robust spreads. */
  method Outlier(f: NetworkFrame, chosen: seq<Anchor>) returns (worst: Option<nat>, jitter: real)
    requires Placed(f, chosen)
    ensures worst.None? <==> Clustered(f, chosen, jitter)
    ensures worst.Some? ==>
              |chosen| > MIN_SURVIVORS && Names(chosen, worst.value) && FarthestOut(f, chosen, worst.value)
  {
    OffsetsComplete(f, chosen);
    var offsets := Offsets(f, chosen);
    var (median, spread) := R.RobustSpread(Seconds(offsets));
    jitter := spread;
    if |chosen| <= MIN_SURVIVORS { return None, jitter; }
    var w := Farthest(offsets, median);
    ghost var a := chosen[w];
    assert a in chosen;
    WithinAll(f, chosen, offsets, median, AbsReal(offsets[w].1 - median));
    if AbsReal(offsets[w].1 - median) <= CLUSTER_K * spread { return None, jitter; }
    assert Beyond(f, chosen, a, median, CLUSTER_K * spread);
    worst := Some(offsets[w].0);
  }

  lemma WithinAll(f: NetworkFrame, chosen: seq<Anchor>, offsets: seq<(nat, real)>, median: real, d: real)
    requires |offsets| == |chosen| && Placed(f, chosen)
    requires forall i :: 0 <= i < |chosen| ==>
              chosen[i] in chosen && offsets[i] == (chosen[i].node, f.value[chosen[i].node])
    requires forall i :: 0 <= i < |offsets| ==> AbsReal(offsets[i].1 - median) <= d
    ensures forall a :: a in chosen ==> AbsReal(f.value[a.node] - median) <= d
  {
    forall a | a in chosen ensures AbsReal(f.value[a.node] - median) <= d {
      var i :| 0 <= i < |chosen| && chosen[i] == a;
    }
  }

  // ----- The whole selection -----

  /**
   * The absolute frame, none without an anchor tied to the network. Survivors, falsetickers and outliers share out the
   * tied anchors; at least two survive if there were two, at least three if any outlier was cut. It does not end only
   * where a falseticker round is stuck, which takes an edge that UTC itself measures.
   */
  method SolveAbsolute(n: nat, utc: nat, links: Links, readings: Readings, anchors: seq<Anchor>, sqrt: real -> real)
    returns (r: Absolute)
    requires Setting(n, utc, links, readings) && InRange(anchors, n) && OneEach(anchors) && IsSqrt(sqrt)
    ensures r.NoAnchor? <==> TiedAnchors(anchors, links) == []
    ensures r.Unending? ==> !UtcSilent(links, utc) && Stuck(r.frame, utc, r.chosen)
                            && Solved(r.frame, n, utc, readings(r.chosen))
    ensures r.Selected? ==> var start := TiedAnchors(anchors, links);
            && Divided(start, r.survivors, r.falsetickers + r.outliers)
            && |r.survivors| >= (if |start| < 2 then |start| else 2)
            && (r.outliers != [] ==> |r.survivors| >= 3)
            && Solved(r.frame, n, utc, readings(r.survivors))
            && (r.outliers == [] ==> Agreed(r.frame, utc, r.survivors))
            && Clustered(r.frame, r.survivors, r.jitter)
  {
    var start := TiedAnchors(anchors, links);
    if start == [] { return NoAnchor; }
    TiedOneEach(anchors, links);
    var s, _ := SetAsideFalsetickers(n, utc, links, readings, start, sqrt);
    if !s.ends { return Unending(s.chosen, s.frame); }
    var survivors, outliers, f, jitter, _ := SetAsideOutliers(n, utc, links, readings, s.chosen, s.frame, sqrt);
    DividedTwice(start, s.chosen, s.falsetickers, survivors, outliers);
    r := Selected(f, survivors, s.falsetickers, outliers, jitter);
  }

  lemma DividedTwice(start: seq<Anchor>, mid: seq<Anchor>, first: seq<nat>, chosen: seq<Anchor>, second: seq<nat>)
    requires Divided(start, mid, first) && Divided(mid, chosen, second)
    ensures Divided(start, chosen, first + second)
  {
    assert forall x :: x in first + second <==> x in first || x in second;
    forall v | v in second ensures Names(start, v) && v !in first {
      var a :| a in mid && a.node == v;
    }
    forall i, j | 0 <= i < j < |first + second| ensures (first + second)[i] != (first + second)[j] {
      if i < |first| <= j {
        assert second[j - |first|] in second && first[i] in first;
      }
    }
  }

  // ----- What the rounds compared -----

  /** The offsets of the chosen, their median m, and the spread around it. */
  ghost predicate Scatter(f: NetworkFrame, chosen: seq<Anchor>, offsets: seq<real>, m: real, spread: real)
    requires Placed(f, chosen)
  {
    && |offsets| == |chosen| && R.IsMedian(offsets, m)
    && (forall i :: 0 <= i < |chosen| ==> chosen[i] in chosen && offsets[i] == f.value[chosen[i].node])
    && exists mad :: R.IsMedian(R.Deviations(offsets, m), mad) && R.IsSpread(spread, mad)
  }

  lemma ScatterOf(f: NetworkFrame, chosen: seq<Anchor>)
    requires Placed(f, chosen) && chosen != []
    ensures var offsets := Seconds(Offsets(f, chosen));
            Scatter(f, chosen, offsets, R.RobustSpread(offsets).0, R.RobustSpread(offsets).1)
  {
    OffsetsComplete(f, chosen);
    R.SpreadIsExact(Seconds(Offsets(f, chosen)));
  }

  /** The survivors left: the jitter is their spread, and of more than three none is past four of them. */
  lemma ClusteredMeans(f: NetworkFrame, chosen: seq<Anchor>, jitter: real) returns (offsets: seq<real>, m: real)
    requires Clustered(f, chosen, jitter) && chosen != []
    ensures Scatter(f, chosen, offsets, m, jitter)
    ensures |chosen| > 3 ==> forall a :: a in chosen ==> AbsReal(f.value[a.node] - m) <= 4.0 * jitter
  {
    offsets := Seconds(Offsets(f, chosen));
    m := R.RobustSpread(offsets).0;
    ScatterOf(f, chosen);
  }

  /** An anchor cut: one of more than three, the farthest from their median, and past four spreads. */
  lemma CutMeans(n: nat, utc: nat, readings: Readings, r: Round) returns (offsets: seq<real>, m: real, spread: real)
    requires CutsFarthest(n, utc, readings, r)
    ensures |r.chosen| > 3 && Placed(r.frame, r.chosen) && Scatter(r.frame, r.chosen, offsets, m, spread)
    ensures FarthestBy(r.frame, r.chosen, r.cut, m, 4.0 * spread)
  {
    offsets, m, spread := FarthestMeans(r.frame, r.chosen, r.cut);
  }

  /** v is farther than d from m, and no other farther than v. */
  ghost predicate FarthestBy(f: NetworkFrame, chosen: seq<Anchor>, v: nat, m: real, d: real)
    requires Placed(f, chosen)
  {
    && Names(chosen, v) && v < |f.value| && AbsReal(f.value[v] - m) > d
    && forall b :: b in chosen ==> AbsReal(f.value[b.node] - m) <= AbsReal(f.value[v] - m)
  }

  lemma FarthestMeans(f: NetworkFrame, chosen: seq<Anchor>, v: nat)
    returns (offsets: seq<real>, m: real, spread: real)
    requires Placed(f, chosen) && FarthestOut(f, chosen, v)
    ensures Scatter(f, chosen, offsets, m, spread) && FarthestBy(f, chosen, v, m, 4.0 * spread)
  {
    offsets := Seconds(Offsets(f, chosen));
    m, spread := R.RobustSpread(offsets).0, R.RobustSpread(offsets).1;
    FarthestIs(f, chosen, v, Centre(f, chosen), Limit(f, chosen));
    ScatterOf(f, chosen);
  }

  lemma FarthestIs(f: NetworkFrame, chosen: seq<Anchor>, v: nat, m: real, limit: real)
    requires Placed(f, chosen) && exists a :: a in chosen && a.node == v && Beyond(f, chosen, a, m, limit)
    ensures chosen != [] && FarthestBy(f, chosen, v, m, limit)
  {
    var a :| a in chosen && a.node == v && Beyond(f, chosen, a, m, limit);
    BeyondMeans(f, chosen, a, m, limit);
  }

  lemma BeyondMeans(f: NetworkFrame, chosen: seq<Anchor>, a: Anchor, m: real, limit: real)
    requires Placed(f, chosen) && a in chosen && Beyond(f, chosen, a, m, limit)
    ensures chosen != [] && FarthestBy(f, chosen, a.node, m, limit)
  {
  }

  /**
   * A strict majority of the chosen are at least d from their median, and none is more than 4 times 1.4826 d from it.
   */
  ghost predicate SpreadOut(f: NetworkFrame, chosen: seq<Anchor>, d: real)
    requires Placed(f, chosen)
  {
    var offsets := Seconds(Offsets(f, chosen));
    var median := R.RobustSpread(offsets).0;
    && R.Scattered(offsets, median, d)
    && forall a :: a in chosen ==> AbsReal(f.value[a.node] - median) <= 4.0 * (1.4826 * d)
  }

  /** Where the scatter is that wide nobody is cut, and the jitter reported is as wide. */
  lemma ScatterIsKept(f: NetworkFrame, chosen: seq<Anchor>, d: real, jitter: real)
    requires Placed(f, chosen) && SpreadOut(f, chosen, d)
    ensures Clustered(f, chosen, jitter) <==> jitter == R.RobustSpread(Seconds(Offsets(f, chosen))).1
    ensures Clustered(f, chosen, jitter) ==> jitter >= 1.4826 * d
    ensures forall v :: !FarthestOut(f, chosen, v)
  {
    R.SpreadFollowsScatter(Seconds(Offsets(f, chosen)), d);
  }

  /** So no round of the second loop cut anyone where it was. */
  lemma RoundsWereNarrow(n: nat, utc: nat, readings: Readings, rounds: seq<Round>, k: nat, d: real)
    requires AllCutFarthest(n, utc, readings, rounds) && k < |rounds|
    ensures Placed(rounds[k].frame, rounds[k].chosen) && !SpreadOut(rounds[k].frame, rounds[k].chosen, d)
    decreases |rounds|
  {
    if k == |rounds| - 1 {
      var r := rounds[k];
      if SpreadOut(r.frame, r.chosen, d) {
        ScatterIsKept(r.frame, r.chosen, d, 0.0);
      }
    } else {
      RoundsWereNarrow(n, utc, readings, rounds[..|rounds| - 1], k, d);
    }
  }

  /** More than three survivors all lie near any interval that holds a strict majority of them. */
  lemma SurvivorsNearMajority(f: NetworkFrame, survivors: seq<Anchor>, jitter: real, lo: real, hi: real, a: Anchor)
    requires Clustered(f, survivors, jitter) && |survivors| > MIN_SURVIVORS && a in survivors
    requires R.Majority(Seconds(Offsets(f, survivors)), lo, hi)
    ensures var reach := CLUSTER_K * Max(R.NORMAL * (hi - lo), R.MIN_SPREAD);
            lo - reach <= f.value[a.node] <= hi + reach
  {
    R.SpreadIsRobust(Seconds(Offsets(f, survivors)), lo, hi);
  }
}
