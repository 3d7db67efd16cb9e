/** The iterative holonomy solver: damped corrections, truncated to whole nanoseconds. */
module Solver {
  import opened Basics
  import opened Twist

  /** Node offsets, in nanoseconds. */
  type Offsets = map<NodeId, int>

  // ----- One edge -----

  /** The edge takes part: it holds a measurement and both its ends are nodes of the solver. */
  predicate Active(e: Entry, x: Offsets) {
    e.twists != [] && e.lo in x && e.hi in x
  }

  function Last(e: Entry): TwistIndex
    requires e.twists != []
  {
    e.twists[|e.twists| - 1]
  }

  /** The edge's defect: how far the difference of its ends is from the measured one. */
  function Defect(e: Entry, x: Offsets): int
    requires Active(e, x)
  {
    x[e.hi] - x[e.lo] - Last(e).offset
  }

  /** Where node i should move to satisfy the edge, seen from its end. */
  function ErrorAt(e: Entry, x: Offsets, i: NodeId): int
    requires Active(e, x) && (i == e.lo || i == e.hi)
  {
    var (nb, m) := (if e.lo == i then e.hi else e.lo, Last(e).offset);
    var expected := if i > nb then x[nb] + m else x[nb] - m;
    expected - x[i]
  }

  lemma ErrorIsDefect(e: Entry, x: Offsets, i: NodeId)
    requires Active(e, x) && e.lo < e.hi && (i == e.lo || i == e.hi)
    ensures ErrorAt(e, x, i) == if i == e.lo then Defect(e, x) else -Defect(e, x)
  {
  }

  predicate Touches(e: Entry, x: Offsets, i: NodeId) {
    Active(e, x) && (i == e.lo || i == e.hi)
  }

  // ----- One node -----

  /** Truncated weighted errors of node i over the first t edges, weights in hundredths. */
  ghost function Pull(es: seq<Entry>, t: nat, x: Offsets, i: NodeId): int
    requires t <= |es|
  {
    if t == 0 then 0 else
      Pull(es, t - 1, x, i)
      + if Touches(es[t - 1], x, i) then Share(ErrorAt(es[t - 1], x, i), Last(es[t - 1]).quality) else 0
  }

  /** One edge's weighted error, truncated to whole nanoseconds. */
  function Share(err: int, q: nat): int {
    TDiv(err * q, 100)
  }

  /** Total quality of the edges at node i. */
  ghost function Load(es: seq<Entry>, t: nat, x: Offsets, i: NodeId): nat
    requires t <= |es|
  {
    if t == 0 then 0 else Load(es, t - 1, x, i) + if Touches(es[t - 1], x, i) then Last(es[t - 1]).quality else 0
  }

  /** The damped correction: 0.3 of the weighted mean error, truncated. */
  ghost function Correction(es: seq<Entry>, x: Offsets, i: NodeId): int {
    var q := Load(es, |es|, x, i);
    if q == 0 then 0 else TDiv(30 * Pull(es, |es|, x, i), q)
  }

  /** One simultaneous step of every node. */
  ghost function Stepped(es: seq<Entry>, x: Offsets): (y: Offsets)
    ensures y.Keys == x.Keys
  {
    map i | i in x :: x[i] + Correction(es, x, i)
  }

  /** Whether d bounds every active edge's defect. */
  ghost predicate Bounds(es: seq<Entry>, t: nat, x: Offsets, d: int)
    requires t <= |es|
  {
    forall k :: 0 <= k < t && Active(es[k], x) ==> -d <= Defect(es[k], x) <= d
  }

  ghost predicate Loopless(es: seq<Entry>) {
    forall k :: 0 <= k < |es| ==> es[k].lo < es[k].hi
  }

  // ----- A step against the defects it measured -----

  lemma {:induction false} PullBound(es: seq<Entry>, t: nat, x: Offsets, i: NodeId, d: int)
    requires t <= |es| && Loopless(es) && d >= 0 && Bounds(es, t, x, d)
    ensures -(d * Load(es, t, x, i)) <= 100 * Pull(es, t, x, i) <= d * Load(es, t, x, i)
  {
    if t > 0 {
      PullBound(es, t - 1, x, i, d);
      var e := es[t - 1];
      if Touches(e, x, i) {
        ErrorIsDefect(e, x, i);
        ShareBound(ErrorAt(e, x, i), Last(e).quality, d);
        Distribute(d, Load(es, t - 1, x, i), Last(e).quality);
      }
    }
  }

  lemma Distribute(d: int, a: int, b: int)
    ensures d * (a + b) == d * a + d * b
  {
  }

  lemma ShareBound(err: int, q: nat, d: int)
    requires 0 - d <= err <= d
    ensures -(d * q) <= 100 * TDiv(err * q, 100) <= d * q
  {
    assert -(d * q) <= err * q <= d * q;
  }

  lemma CorrectionBound(es: seq<Entry>, x: Offsets, i: NodeId, d: int)
    requires Loopless(es) && d >= 0 && Bounds(es, |es|, x, d)
    ensures -3 * d <= 10 * Correction(es, x, i) <= 3 * d
  {
    var q, p, c := Load(es, |es|, x, i), Pull(es, |es|, x, i), Correction(es, x, i);
    PullBound(es, |es|, x, i, d);
    if q > 0 {
      assert c == TDiv(30 * p, q);
      QuotientBound(p, q, d, c);
    }
  }

  lemma QuotientBound(p: int, q: int, d: int, c: int)
    requires q > 0 && d >= 0 && -(d * q) <= 100 * p <= d * q && c == TDiv(30 * p, q)
    ensures -3 * d <= 10 * c <= 3 * d
  {
    if p >= 0 {
      assert (10 * c) * q == 10 * (c * q) <= 300 * p;
      Cancel(10 * c, 3 * d, q);
    } else {
      assert (-10 * c) * q == -10 * (c * q) <= -300 * p;
      Cancel(-10 * c, 3 * d, q);
    }
  }

  lemma Cancel(a: int, b: int, q: int)
    requires q > 0 && a * q <= b * q
    ensures a <= b
  {
  }

  /** The state a step leaves behind is within 1.6 times the defect the step measured. */
  lemma StepStaysClose(es: seq<Entry>, x: Offsets, d: int, k: nat)
    requires Loopless(es) && d >= 0 && Bounds(es, |es|, x, d) && k < |es| && Active(es[k], x)
    ensures Active(es[k], Stepped(es, x)) && -16 * d <= 10 * Defect(es[k], Stepped(es, x)) <= 16 * d
  {
    CorrectionBound(es, x, es[k].lo, d);
    CorrectionBound(es, x, es[k].hi, d);
  }

  // ----- Sums over edges and over nodes -----

  /** What each edge gives its ends. */
  type Dues = seq<map<NodeId, int>>

  function Due(m: map<NodeId, int>, i: NodeId): int {
    if i in m then m[i] else 0
  }

  ghost function ByEdge(g: Dues, es: seq<Entry>, t: nat): int
    requires t <= |es| == |g|
  {
    if t == 0 then 0 else ByEdge(g, es, t - 1) + Due(g[t - 1], es[t - 1].lo) + Due(g[t - 1], es[t - 1].hi)
  }

  ghost function ByNode(g: Dues, t: nat, i: NodeId): int
    requires t <= |g|
  {
    if t == 0 then 0 else ByNode(g, t - 1, i) + Due(g[t - 1], i)
  }

  ghost function ByNodes(g: Dues, t: nat, ids: seq<NodeId>, k: nat): int
    requires t <= |g| && k <= |ids|
  {
    if k == 0 then 0 else ByNodes(g, t, ids, k - 1) + ByNode(g, t, ids[k - 1])
  }

  /** ids lists the nodes, each once. */
  ghost predicate Lists(ids: seq<NodeId>, nodes: set<NodeId>) {
    && (forall i, j :: 0 <= i < j < |ids| ==> ids[i] != ids[j])
    && (forall i :: i in ids <==> i in nodes)
  }

  lemma {:induction false} Listing(nodes: set<NodeId>) returns (ids: seq<NodeId>)
    ensures Lists(ids, nodes)
  {
    ids := [];
    if i :| i in nodes {
      ids := Listing(nodes - {i});
      ids := ids + [i];
    }
  }

  /** The edges give only to their own ends. */
  ghost predicate OwnEnds(g: Dues, es: seq<Entry>, x: Offsets) {
    |g| == |es| && forall k :: 0 <= k < |es| ==> EndsOnly(g[k], es[k], x)
  }

  ghost predicate EndsOnly(m: map<NodeId, int>, e: Entry, x: Offsets) {
    forall i :: i in m ==> i in x && (i == e.lo || i == e.hi)
  }

  /** One edge's dues over the first k nodes. */
  ghost function DuesOf(m: map<NodeId, int>, ids: seq<NodeId>, k: nat): int
    requires k <= |ids|
  {
    if k == 0 then 0 else DuesOf(m, ids, k - 1) + Due(m, ids[k - 1])
  }

  lemma {:induction false} DuesOnce(m: map<NodeId, int>, e: Entry, x: Offsets, ids: seq<NodeId>, k: nat)
    requires k <= |ids| && e.lo < e.hi && EndsOnly(m, e, x) && Lists(ids, x.Keys)
    ensures DuesOf(m, ids, k)
         == (if e.lo in ids[..k] then Due(m, e.lo) else 0) + (if e.hi in ids[..k] then Due(m, e.hi) else 0)
  {
    if k > 0 {
      DuesOnce(m, e, x, ids, k - 1);
      assert ids[..k] == ids[..k - 1] + [ids[k - 1]];
      assert ids[k - 1] !in ids[..k - 1];
    }
  }

  lemma {:induction false} ByNodesStep(g: Dues, t: nat, ids: seq<NodeId>, k: nat)
    requires t < |g| && k <= |ids|
    ensures ByNodes(g, t + 1, ids, k) == ByNodes(g, t, ids, k) + DuesOf(g[t], ids, k)
  {
    if k > 0 { ByNodesStep(g, t, ids, k - 1); }
  }

  lemma {:induction false} ByNodesNone(g: Dues, ids: seq<NodeId>, k: nat)
    requires k <= |ids|
    ensures ByNodes(g, 0, ids, k) == 0
  {
    if k > 0 { ByNodesNone(g, ids, k - 1); }
  }

  /** Summing by edges is summing by nodes. */
  lemma {:induction false} EdgesAreNodes(g: Dues, es: seq<Entry>, t: nat, ids: seq<NodeId>, x: Offsets)
    requires OwnEnds(g, es, x) && t <= |es| && Lists(ids, x.Keys) && Loopless(es)
    ensures ByEdge(g, es, t) == ByNodes(g, t, ids, |ids|)
  {
    if t == 0 {
      ByNodesNone(g, ids, |ids|);
    } else {
      EdgesAreNodes(g, es, t - 1, ids, x);
      ByNodesStep(g, t - 1, ids, |ids|);
      DuesOnce(g[t - 1], es[t - 1], x, ids, |ids|);
      assert ids[..|ids|] == ids;
    }
  }

  lemma {:induction false} NodesNonPositive(g: Dues, t: nat, ids: seq<NodeId>, k: nat)
    requires t <= |g| && k <= |ids| && forall j :: 0 <= j < k ==> ByNode(g, t, ids[j]) <= 0
    ensures ByNodes(g, t, ids, k) <= 0
    ensures (exists j :: 0 <= j < k && ByNode(g, t, ids[j]) < 0) ==> ByNodes(g, t, ids, k) < 0
  {
    if k > 0 { NodesNonPositive(g, t, ids, k - 1); }
  }

  /** If no node gains, neither do the edges together; and they lose if some node does. */
  lemma EdgesNonPositive(g: Dues, es: seq<Entry>, x: Offsets)
    requires OwnEnds(g, es, x) && Loopless(es) && forall i :: i in x ==> ByNode(g, |es|, i) <= 0
    ensures ByEdge(g, es, |es|) <= 0
    ensures (exists i :: i in x && ByNode(g, |es|, i) < 0) ==> ByEdge(g, es, |es|) < 0
  {
    var ids := Listing(x.Keys);
    EdgesAreNodes(g, es, |es|, ids, x);
    NodesNonPositive(g, |es|, ids, |ids|);
    if i :| i in x && ByNode(g, |es|, i) < 0 {
      var j :| 0 <= j < |ids| && ids[j] == i;
    }
  }

  // ----- Descent -----

  /** The weighted sum of squared defects, weights in hundredths. */
  ghost function Energy(es: seq<Entry>, t: nat, x: Offsets): int
    requires t <= |es|
  {
    if t == 0 then 0 else
      Energy(es, t - 1, x)
      + if Active(es[t - 1], x) then Last(es[t - 1]).quality * (Defect(es[t - 1], x) * Defect(es[t - 1], x)) else 0
  }

  lemma {:induction false} EnergyNonNegative(es: seq<Entry>, t: nat, x: Offsets)
    requires t <= |es|
    ensures Energy(es, t, x) >= 0
  {
    if t > 0 {
      EnergyNonNegative(es, t - 1, x);
      if Active(es[t - 1], x) { WeightedSquare(Last(es[t - 1]).quality, Defect(es[t - 1], x)); }
    }
  }

  lemma WeightedSquare(q: nat, d: int)
    ensures q * (d * d) >= 0
  {
    assert d * d >= 0;
  }

  /** The untruncated weighted errors of node i. */
  ghost function Gradient(es: seq<Entry>, t: nat, x: Offsets, i: NodeId): int
    requires t <= |es|
  {
    if t == 0 then 0 else
      Gradient(es, t - 1, x, i)
      + if Touches(es[t - 1], x, i) then ErrorAt(es[t - 1], x, i) * Last(es[t - 1]).quality else 0
  }

  /** A quality at which what truncation loses of an edge stays under 7/3 of it. */
  predicate HighGrade(q: nat) {
    q == 0 || q == 40 || q >= 42
  }

  ghost predicate Graded(es: seq<Entry>, x: Offsets) {
    forall k :: 0 <= k < |es| && Active(es[k], x) ==> HighGrade(Last(es[k]).quality)
  }

  /** Truncation loses at most 7/3 of an edge's quality, and nothing in the direction of the error. */
  lemma ShareLoss(err: int, q: nat)
    requires HighGrade(q)
    ensures -7 * q <= 3 * (100 * Share(err, q) - err * q) <= 7 * q
    ensures err * q > 0 ==> 100 * Share(err, q) - err * q <= 0
    ensures err * q < 0 ==> 100 * Share(err, q) - err * q >= 0
  {
    TruncationLoss(err * q);
    if q == 40 { TwentiethsLoss(err); }
    if q == 42 { EvenLoss(err); }
  }

  lemma TruncationLoss(p: int)
    ensures p >= 0 ==> -99 <= 100 * TDiv(p, 100) - p <= 0
    ensures p <= 0 ==> 0 <= 100 * TDiv(p, 100) - p <= 99
  {
  }

  /** At quality 40 the products are multiples of 20, and so is what truncation loses. */
  lemma TwentiethsLoss(err: int)
    ensures -80 <= 100 * TDiv(err * 40, 100) - err * 40 <= 80
  {
    TruncationLoss(err * 40);
    assert 100 * TDiv(err * 40, 100) - err * 40 == 20 * (5 * TDiv(err * 40, 100) - 2 * err);
  }

  /** At quality 42 the products are even, and so is what truncation loses. */
  lemma EvenLoss(err: int)
    ensures -98 <= 100 * TDiv(err * 42, 100) - err * 42 <= 98
  {
    TruncationLoss(err * 42);
    assert 100 * TDiv(err * 42, 100) - err * 42 == 2 * (50 * TDiv(err * 42, 100) - 21 * err);
  }

  /** So the truncated pull is close to the gradient, strictly so on the side it points to. */
  lemma {:induction false} PullLoss(es: seq<Entry>, t: nat, x: Offsets, i: NodeId)
    requires t <= |es| && Graded(es, x)
    ensures var loss := 3 * (100 * Pull(es, t, x, i) - Gradient(es, t, x, i));
            && -7 * Load(es, t, x, i) <= loss <= 7 * Load(es, t, x, i)
            && (Pull(es, t, x, i) > 0 ==> loss < 7 * Load(es, t, x, i))
            && (Pull(es, t, x, i) < 0 ==> loss > -7 * Load(es, t, x, i))
  {
    if t > 0 {
      PullLoss(es, t - 1, x, i);
      var e := es[t - 1];
      if Touches(e, x, i) {
        var err, q := ErrorAt(e, x, i), Last(e).quality;
        ShareLoss(err, q);
        assert q == 0 ==> err * q == 0;
      }
    }
  }

  /** A correction never overshoots the gradient. */
  lemma CorrectionDescends(es: seq<Entry>, x: Offsets, i: NodeId, c: int, g: int, q: int)
    requires Graded(es, x) && c == Correction(es, x, i)
    requires g == Gradient(es, |es|, x, i) && q == Load(es, |es|, x, i)
    ensures c * (g - q * c) >= 0 && (c != 0 ==> c * (g - q * c) > 0)
  {
    var p := Pull(es, |es|, x, i);
    PullLoss(es, |es|, x, i);
    if q > 0 {
      assert c == TDiv(30 * p, q);
      OvershootFree(p, q, g, c);
    }
  }

  lemma OvershootFree(p: int, q: int, g: int, c: int)
    requires q > 0 && c == TDiv(30 * p, q)
    requires -7 * q <= 3 * (100 * p - g) <= 7 * q
    requires (p > 0 ==> 3 * (100 * p - g) < 7 * q) && (p < 0 ==> 3 * (100 * p - g) > -7 * q)
    ensures c * (g - q * c) >= 0 && (c != 0 ==> c * (g - q * c) > 0)
  {
    assert c * q == q * c;
    if c > 0 {
      assert q * c >= q * 1 by { MulMono(q, 1, c); }
      assert p > 0;
      assert 3 * g > 10 * (q * c) - 7 * q >= 3 * (q * c);
      Positive(c, g - q * c);
    } else if c < 0 {
      assert q * c <= q * -1 by { MulMono(q, c, -1); }
      assert p < 0;
      assert 3 * g < 10 * (q * c) + 7 * q <= 3 * (q * c);
      Positive(-c, q * c - g);
      assert (-c) * (q * c - g) == c * (g - q * c);
    }
  }

  lemma MulMono(q: int, a: int, b: int)
    requires q >= 0 && a <= b
    ensures q * a <= q * b
  {
  }

  lemma Positive(a: int, b: int)
    requires a > 0 && b > 0
    ensures a * b > 0
  {
  }

  /** Node i's share of what corrections c change on the edge. */
  ghost function Term(e: Entry, x: Offsets, c: Offsets, i: NodeId): int
    requires c.Keys == x.Keys
  {
    if Touches(e, x, i) then Last(e).quality * (2 * (c[i] * c[i]) - 2 * (c[i] * ErrorAt(e, x, i))) else 0
  }

  ghost function Terms(es: seq<Entry>, x: Offsets, c: Offsets): (g: Dues)
    requires c.Keys == x.Keys
    ensures |g| == |es| && forall k :: 0 <= k < |es| ==> g[k] == EdgeTerms(es[k], x, c)
  {
    seq(|es|, k requires 0 <= k < |es| => EdgeTerms(es[k], x, c))
  }

  ghost function EdgeTerms(e: Entry, x: Offsets, c: Offsets): map<NodeId, int>
    requires c.Keys == x.Keys
  {
    if Active(e, x) then map[e.lo := Term(e, x, c, e.lo), e.hi := Term(e, x, c, e.hi)] else map[]
  }

  lemma DueIsTerm(e: Entry, x: Offsets, c: Offsets, i: NodeId)
    requires c.Keys == x.Keys
    ensures Due(EdgeTerms(e, x, c), i) == Term(e, x, c, i)
  {
  }

  lemma TermsOwnEnds(es: seq<Entry>, x: Offsets, c: Offsets)
    requires c.Keys == x.Keys
    ensures OwnEnds(Terms(es, x, c), es, x)
  {
  }

  lemma {:induction false} TermsFactor(es: seq<Entry>, t: nat, x: Offsets, c: Offsets, i: NodeId, ci: int)
    requires t <= |es| && c.Keys == x.Keys && i in x && ci == c[i]
    ensures ByNode(Terms(es, x, c), t, i) == 2 * (Load(es, t, x, i) * (ci * ci)) - 2 * (ci * Gradient(es, t, x, i))
  {
    if t > 0 {
      TermsFactor(es, t - 1, x, c, i, ci);
      DueIsTerm(es[t - 1], x, c, i);
      if Touches(es[t - 1], x, i) {
        FactorStep(Load(es, t - 1, x, i), Gradient(es, t - 1, x, i), ci, ci * ci,
                   ErrorAt(es[t - 1], x, i), Last(es[t - 1]).quality);
      }
    }
  }

  lemma FactorStep(q0: int, g0: int, c: int, cc: int, err: int, q: int)
    requires cc == c * c
    ensures 2 * ((q0 + q) * cc) - 2 * (c * (g0 + err * q))
         == (2 * (q0 * cc) - 2 * (c * g0)) + q * (2 * cc - 2 * (c * err))
  {
    assert c * (err * q) == q * (c * err);
  }

  /** Moving by c changes an edge's energy by at most its two ends' terms. */
  lemma EdgeChange(e: Entry, x: Offsets, c: Offsets, y: Offsets)
    requires Active(e, x) && e.lo < e.hi && c.Keys == x.Keys == y.Keys
    requires y[e.lo] == x[e.lo] + c[e.lo] && y[e.hi] == x[e.hi] + c[e.hi]
    ensures Last(e).quality * (Defect(e, y) * Defect(e, y))
         <= Last(e).quality * (Defect(e, x) * Defect(e, x)) + Term(e, x, c, e.lo) + Term(e, x, c, e.hi)
  {
    var d, d', a, b := Defect(e, x), Defect(e, y), c[e.lo], c[e.hi];
    ErrorIsDefect(e, x, e.lo);
    ErrorIsDefect(e, x, e.hi);
    SquareChange(d, d', a, b);
    QualityChange(Last(e).quality, d * d, d' * d', 2 * (a * a) - 2 * (a * d), 2 * (b * b) - 2 * (b * -d));
  }

  lemma SquareChange(d: int, d': int, a: int, b: int)
    requires d' == d + b - a
    ensures d' * d' <= d * d + (2 * (a * a) - 2 * (a * d)) + (2 * (b * b) - 2 * (b * -d))
  {
    assert (a + b) * (a + b) >= 0;
    assert d * d + (2 * (a * a) - 2 * (a * d)) + (2 * (b * b) - 2 * (b * -d)) - d' * d' == (a + b) * (a + b);
  }

  lemma QualityChange(q: nat, s: int, s': int, u: int, v: int)
    requires s' <= s + u + v
    ensures q * s' <= q * s + q * u + q * v
  {
    assert q * s' <= q * (s + u + v);
  }

  lemma {:induction false} EnergyChange(es: seq<Entry>, t: nat, x: Offsets, c: Offsets, y: Offsets)
    requires t <= |es| && Loopless(es) && c.Keys == x.Keys == y.Keys
    requires forall i :: i in x ==> y[i] == x[i] + c[i]
    ensures Energy(es, t, y) <= Energy(es, t, x) + ByEdge(Terms(es, x, c), es, t)
  {
    if t > 0 {
      EnergyChange(es, t - 1, x, c, y);
      var e := es[t - 1];
      DueIsTerm(e, x, c, e.lo);
      DueIsTerm(e, x, c, e.hi);
      if Active(e, x) { EdgeChange(e, x, c, y); }
    }
  }

  ghost function Corrections(es: seq<Entry>, x: Offsets): (c: Offsets)
    ensures c.Keys == x.Keys
  {
    map i | i in x :: Correction(es, x, i)
  }

  lemma NodeDescends(es: seq<Entry>, x: Offsets, i: NodeId)
    requires Graded(es, x) && i in x
    ensures ByNode(Terms(es, x, Corrections(es, x)), |es|, i) <= 0
    ensures Correction(es, x, i) != 0 ==> ByNode(Terms(es, x, Corrections(es, x)), |es|, i) < 0
  {
    var c, g, q := Correction(es, x, i), Gradient(es, |es|, x, i), Load(es, |es|, x, i);
    TermsFactor(es, |es|, x, Corrections(es, x), i, c);
    CorrectionDescends(es, x, i, c, g, q);
    FactorGain(c, g, q);
  }

  lemma FactorGain(c: int, g: int, q: int)
    ensures 2 * (q * (c * c)) - 2 * (c * g) == -2 * (c * (g - q * c))
  {
  }

  /** A step never increases the energy, and lowers it whenever it moves a node. */
  lemma StepDescends(es: seq<Entry>, x: Offsets)
    requires Loopless(es) && Graded(es, x)
    ensures Energy(es, |es|, Stepped(es, x)) <= Energy(es, |es|, x)
    ensures Stepped(es, x) != x ==> Energy(es, |es|, Stepped(es, x)) < Energy(es, |es|, x)
  {
    var c := Corrections(es, x);
    EnergyChange(es, |es|, x, c, Stepped(es, x));
    TermsOwnEnds(es, x, c);
    forall i | i in x
      ensures ByNode(Terms(es, x, c), |es|, i) <= 0
      ensures Correction(es, x, i) != 0 ==> ByNode(Terms(es, x, c), |es|, i) < 0
    {
      NodeDescends(es, x, i);
    }
    EdgesNonPositive(Terms(es, x, c), es, x);
    if Stepped(es, x) != x { var i := Mover(es, x); }
  }

  lemma Mover(es: seq<Entry>, x: Offsets) returns (i: NodeId)
    requires Stepped(es, x) != x
    ensures i in x && Correction(es, x, i) != 0
  {
    i :| i in x && Correction(es, x, i) != 0;
  }

  // ----- Runs -----

  ghost function Run(es: seq<Entry>, x: Offsets, k: nat): (y: Offsets)
    ensures y.Keys == x.Keys
  {
    if k == 0 then x else Stepped(es, Run(es, x, k - 1))
  }

  lemma {:induction false} RunFromNext(es: seq<Entry>, x: Offsets, k: nat)
    ensures Run(es, Stepped(es, x), k) == Run(es, x, k + 1)
  {
    if k > 0 { RunFromNext(es, x, k - 1); }
  }

  lemma {:induction false} RunRests(es: seq<Entry>, x: Offsets, k: nat, j: nat)
    requires k <= j && Stepped(es, Run(es, x, k)) == Run(es, x, k)
    ensures Run(es, x, j) == Run(es, x, k)
    decreases j
  {
    if k < j { RunRests(es, x, k, j - 1); }
  }

  /** Sum of the errors of node i and the number of edges they come from. */
  ghost function ErrorSum(es: seq<Entry>, t: nat, x: Offsets, i: NodeId): int
    requires t <= |es|
  {
    if t == 0 then 0 else ErrorSum(es, t - 1, x, i) + if Touches(es[t - 1], x, i) then ErrorAt(es[t - 1], x, i) else 0
  }

  ghost function Degree(es: seq<Entry>, t: nat, x: Offsets, i: NodeId): nat
    requires t <= |es|
  {
    if t == 0 then 0 else Degree(es, t - 1, x, i) + if Touches(es[t - 1], x, i) then 1 else 0
  }

  ghost predicate FullQuality(es: seq<Entry>, x: Offsets) {
    forall k :: 0 <= k < |es| && Active(es[k], x) ==> Last(es[k]).quality == 100
  }

  lemma {:induction false} FullQualityPull(es: seq<Entry>, t: nat, x: Offsets, i: NodeId)
    requires t <= |es| && FullQuality(es, x)
    ensures Pull(es, t, x, i) == ErrorSum(es, t, x, i) && Load(es, t, x, i) == 100 * Degree(es, t, x, i)
  {
    if t > 0 { FullQualityPull(es, t - 1, x, i); }
  }

  /** A state is at rest exactly when thirty times the pull on every node is less than the weight behind it. */
  lemma RestIffBalanced(es: seq<Entry>, x: Offsets)
    ensures Stepped(es, x) == x <==> forall i :: i in x ==> Balanced(Pull(es, |es|, x, i), Load(es, |es|, x, i))
  {
    forall i | i in x
      ensures Correction(es, x, i) == 0 <==> Balanced(Pull(es, |es|, x, i), Load(es, |es|, x, i))
    {
      QuotientIsZero(30 * Pull(es, |es|, x, i), Load(es, |es|, x, i));
    }
    if Stepped(es, x) == x {
      forall i | i in x
        ensures Correction(es, x, i) == 0
      {
        assert Stepped(es, x)[i] == x[i] + Correction(es, x, i);
      }
    }
  }

  predicate Balanced(pull: int, load: nat) {
    load > 0 ==> 0 - load < 30 * pull < load
  }

  lemma QuotientIsZero(p: int, q: nat)
    ensures q > 0 ==> (TDiv(p, q) == 0 <==> 0 - q < p < q)
  {
    if q > 0 {
      if 0 <= p < q { QuotientUnique(p, q, 0, p); }
      if 0 - q < p < 0 { QuotientUnique(-p, q, 0, -p); }
      if p >= q { QuotientGrows(p, q); }
      if p <= 0 - q { QuotientGrows(-p, q); }
    }
  }

  lemma QuotientGrows(p: nat, q: nat)
    requires p >= q > 0
    ensures p / q >= 1
  {
  }

  /** Truncation loses less than one part in a hundred of each edge. */
  lemma {:induction false} PullNearGradient(es: seq<Entry>, t: nat, x: Offsets, i: NodeId)
    requires t <= |es|
    ensures var loss := 100 * Pull(es, t, x, i) - Gradient(es, t, x, i);
            -99 * Degree(es, t, x, i) <= loss <= 99 * Degree(es, t, x, i)
    ensures Degree(es, t, x, i) == 0 || Load(es, t, x, i) == 0 ==> Gradient(es, t, x, i) == 0
  {
    if t > 0 {
      PullNearGradient(es, t - 1, x, i);
      if Touches(es[t - 1], x, i) { TruncationLoss(ErrorAt(es[t - 1], x, i) * Last(es[t - 1]).quality); }
    }
  }

  /** At any qualities, a state at rest has the weighted errors of every node balanced up to what truncation loses. */
  lemma RestIsNearlyBalanced(es: seq<Entry>, x: Offsets, i: NodeId)
    requires Stepped(es, x) == x && i in x && Degree(es, |es|, x, i) > 0
    ensures var slack := 10 * Load(es, |es|, x, i) + 297 * Degree(es, |es|, x, i);
            -slack < 3 * Gradient(es, |es|, x, i) < slack
  {
    RestIffBalanced(es, x);
    PullNearGradient(es, |es|, x, i);
  }

  /** At full quality nothing is lost, and every node's mean error at rest is under 10/3 ns. */
  lemma RestIsBalanced(es: seq<Entry>, x: Offsets, i: NodeId)
    requires FullQuality(es, x) && Stepped(es, x) == x && i in x && Degree(es, |es|, x, i) > 0
    ensures -10 * Degree(es, |es|, x, i) < 3 * ErrorSum(es, |es|, x, i) < 10 * Degree(es, |es|, x, i)
  {
    FullQualityPull(es, |es|, x, i);
    RestIffBalanced(es, x);
  }

  // ----- A consistent lie -----

  function ShiftTwists(ts: seq<TwistIndex>, d: int): seq<TwistIndex> {
    seq(|ts|, k requires 0 <= k < |ts| => ts[k].(offset := ts[k].offset + d))
  }

  /** Every measurement lo -> hi moved by phi(hi) - phi(lo). */
  function ShiftEntries(es: seq<Entry>, phi: NodeId -> int): seq<Entry> {
    seq(|es|, k requires 0 <= k < |es| => es[k].(twists := ShiftTwists(es[k].twists, phi(es[k].hi) - phi(es[k].lo))))
  }

  function ShiftOffsets(x: Offsets, phi: NodeId -> int): (y: Offsets)
    ensures y.Keys == x.Keys
  {
    map i | i in x :: x[i] + phi(i)
  }

  lemma ShiftedEdge(es: seq<Entry>, x: Offsets, phi: NodeId -> int, k: nat)
    requires k < |es| && es[k].lo < es[k].hi
    ensures var e, y := ShiftEntries(es, phi)[k], ShiftOffsets(x, phi);
            && e.lo == es[k].lo && e.hi == es[k].hi && (Active(e, y) <==> Active(es[k], x))
            && (Active(e, y) ==> Last(e).quality == Last(es[k]).quality && Defect(e, y) == Defect(es[k], x))
            && forall i :: Touches(e, y, i) ==> ErrorAt(e, y, i) == ErrorAt(es[k], x, i)
  {
  }

  lemma {:induction false} ShiftedPull(es: seq<Entry>, t: nat, x: Offsets, phi: NodeId -> int, i: NodeId)
    requires t <= |es| && Loopless(es)
    ensures Pull(ShiftEntries(es, phi), t, ShiftOffsets(x, phi), i) == Pull(es, t, x, i)
    ensures Load(ShiftEntries(es, phi), t, ShiftOffsets(x, phi), i) == Load(es, t, x, i)
  {
    if t > 0 {
      ShiftedPull(es, t - 1, x, phi, i);
      ShiftedEdge(es, x, phi, t - 1);
    }
  }

  /** y' is y with every node moved by its phi. */
  ghost predicate Alike(y: Offsets, y': Offsets, phi: NodeId -> int) {
    y'.Keys == y.Keys && forall i :: i in y ==> y'[i] == y[i] + phi(i)
  }

  lemma {:induction false} RunsAlike(es: seq<Entry>, es': seq<Entry>, phi: NodeId -> int, x: Offsets, x': Offsets,
                                     k: nat)
    requires Loopless(es) && es' == ShiftEntries(es, phi) && Alike(x, x', phi)
    ensures Alike(Run(es, x, k), Run(es', x', k), phi)
  {
    if k > 0 {
      RunsAlike(es, es', phi, x, x', k - 1);
      StepsAlike(es, es', phi, Run(es, x, k - 1), Run(es', x', k - 1));
    }
  }

  lemma StepsAlike(es: seq<Entry>, es': seq<Entry>, phi: NodeId -> int, y: Offsets, y': Offsets)
    requires Loopless(es) && es' == ShiftEntries(es, phi) && Alike(y, y', phi)
    ensures Alike(Stepped(es, y), Stepped(es', y'), phi)
  {
    AlikeIsShifted(y, y', phi);
    forall i | i in y
      ensures Stepped(es', y')[i] == Stepped(es, y)[i] + phi(i)
    {
      NodesAlike(es, es', phi, y, y', i);
    }
  }

  lemma NodesAlike(es: seq<Entry>, es': seq<Entry>, phi: NodeId -> int, y: Offsets, y': Offsets, i: NodeId)
    requires Loopless(es) && es' == ShiftEntries(es, phi) && y' == ShiftOffsets(y, phi) && i in y
    ensures Stepped(es', y')[i] == Stepped(es, y)[i] + phi(i)
  {
    ShiftedPull(es, |es|, y, phi, i);
  }

  lemma AlikeIsShifted(y: Offsets, y': Offsets, phi: NodeId -> int)
    requires Alike(y, y', phi)
    ensures y' == ShiftOffsets(y, phi)
  {
    var z := ShiftOffsets(y, phi);
    assert y'.Keys == z.Keys;
    forall i | i in y'.Keys
      ensures y'[i] == z[i]
    {
    }
  }

  /** A run over a consistently shifted table moves exactly as the honest run does: same corrections, same defects. */
  lemma ShiftedRun(es: seq<Entry>, x: Offsets, phi: NodeId -> int, k: nat)
    requires Loopless(es)
    ensures Run(ShiftEntries(es, phi), ShiftOffsets(x, phi), k) == ShiftOffsets(Run(es, x, k), phi)
    ensures SameMoves(es, Run(es, x, k), phi)
  {
    RunsAlike(es, ShiftEntries(es, phi), phi, x, ShiftOffsets(x, phi), k);
    ShiftedMoves(es, Run(es, x, k), phi);
  }

  /** In the shifted state every correction and every defect is what it was. */
  ghost predicate SameMoves(es: seq<Entry>, y: Offsets, phi: NodeId -> int) {
    && (forall i :: Correction(ShiftEntries(es, phi), ShiftOffsets(y, phi), i) == Correction(es, y, i))
    && forall j :: 0 <= j < |es| && Active(es[j], y) ==>
         && Active(ShiftEntries(es, phi)[j], ShiftOffsets(y, phi))
         && Defect(ShiftEntries(es, phi)[j], ShiftOffsets(y, phi)) == Defect(es[j], y)
  }

  lemma ShiftedMoves(es: seq<Entry>, y: Offsets, phi: NodeId -> int)
    requires Loopless(es)
    ensures SameMoves(es, y, phi)
  {
    forall i: NodeId
      ensures Correction(ShiftEntries(es, phi), ShiftOffsets(y, phi), i) == Correction(es, y, i)
    {
      ShiftedPull(es, |es|, y, phi, i);
    }
    forall j | 0 <= j < |es| && Active(es[j], y)
      ensures Active(ShiftEntries(es, phi)[j], ShiftOffsets(y, phi))
      ensures Defect(ShiftEntries(es, phi)[j], ShiftOffsets(y, phi)) == Defect(es[j], y)
    {
      ShiftedEdge(es, y, phi, j);
    }
  }
}
