/** The solver's step with the truncation to whole nanoseconds left out: it descends whatever the qualities. */
module ExactSolver {
  import opened Twist
  import opened Solver

  type Exact = map<NodeId, real>

  predicate Present(e: Entry, x: Exact) {
    e.twists != [] && e.lo in x && e.hi in x
  }

  function Gap(e: Entry, x: Exact): real
    requires Present(e, x)
  {
    x[e.hi] - x[e.lo] - Last(e).offset as real
  }

  function Quality(e: Entry): real
    requires e.twists != []
  {
    Last(e).quality as real
  }

  /** Node i's error on the edge, and its weight; both zero away from the edge's ends. */
  function Pulls(e: Entry, x: Exact, i: NodeId): real {
    if !Present(e, x) then 0.0 else if i == e.lo then Gap(e, x) else if i == e.hi then -Gap(e, x) else 0.0
  }

  function Weighs(e: Entry, x: Exact, i: NodeId): real {
    if Present(e, x) && (i == e.lo || i == e.hi) then Quality(e) else 0.0
  }

  function Times(a: real, b: real): real {
    a * b
  }

  ghost function TotalPull(es: seq<Entry>, t: nat, x: Exact, i: NodeId): real
    requires t <= |es|
  {
    if t == 0 then 0.0 else TotalPull(es, t - 1, x, i) + Times(Weighs(es[t - 1], x, i), Pulls(es[t - 1], x, i))
  }

  ghost function TotalWeight(es: seq<Entry>, t: nat, x: Exact, i: NodeId): real
    requires t <= |es|
  {
    if t == 0 then 0.0 else TotalWeight(es, t - 1, x, i) + Weighs(es[t - 1], x, i)
  }

  ghost function SquaredGaps(es: seq<Entry>, t: nat, x: Exact): real
    requires t <= |es|
  {
    if t == 0 then 0.0 else
      SquaredGaps(es, t - 1, x)
        + if Present(es[t - 1], x) then Quality(es[t - 1]) * (Gap(es[t - 1], x) * Gap(es[t - 1], x)) else 0.0
  }

  /** Three tenths of the weighted mean error. */
  function Damped(pull: real, weight: real): real {
    if weight > 0.0 then pull / weight * 0.3 else 0.0
  }

  ghost function Move(es: seq<Entry>, x: Exact, i: NodeId): real {
    Damped(TotalPull(es, |es|, x, i), TotalWeight(es, |es|, x, i))
  }

  ghost function Moved(es: seq<Entry>, x: Exact): Exact {
    map i | i in x :: x[i] + Move(es, x, i)
  }

  // ----- Node i's share of what moves c change on an edge -----

  ghost function Share(e: Entry, x: Exact, c: Exact, i: NodeId): real {
    if i in c then Weighs(e, x, i) * (2.0 * (c[i] * c[i]) - 2.0 * (c[i] * Pulls(e, x, i))) else 0.0
  }

  ghost function ByNode(es: seq<Entry>, t: nat, x: Exact, c: Exact, i: NodeId): real
    requires t <= |es|
  {
    if t == 0 then 0.0 else ByNode(es, t - 1, x, c, i) + Share(es[t - 1], x, c, i)
  }

  ghost function ByEdge(es: seq<Entry>, t: nat, x: Exact, c: Exact): real
    requires t <= |es|
  {
    if t == 0 then 0.0 else
      ByEdge(es, t - 1, x, c) + Share(es[t - 1], x, c, es[t - 1].lo) + Share(es[t - 1], x, c, es[t - 1].hi)
  }

  lemma SquareStep(d: real, d': real, a: real, b: real, q: real)
    requires d' == d + b - a && q >= 0.0
    ensures q * (d' * d') <= q * (d * d) + q * (2.0 * (a * a) - 2.0 * (a * d)) + q * (2.0 * (b * b) - 2.0 * (b * -d))
  {
    SquareSign(a + b);
    var s := (a + b) * (a + b);
    assert d' * d' == d * d + (2.0 * (a * a) - 2.0 * (a * d)) + (2.0 * (b * b) - 2.0 * (b * -d)) - s;
    Spread(q, d * d, 2.0 * (a * a) - 2.0 * (a * d), 2.0 * (b * b) - 2.0 * (b * -d), s);
  }

  lemma Spread(q: real, u: real, v: real, w: real, s: real)
    requires q >= 0.0 && s >= 0.0
    ensures q * (u + v + w - s) <= q * u + q * v + q * w
  {
    assert q * s >= 0.0;
  }

  lemma {:induction false} GapsChange(es: seq<Entry>, t: nat, x: Exact, c: Exact, y: Exact)
    requires t <= |es| && Loopless(es) && c.Keys == x.Keys == y.Keys && forall i :: i in x ==> y[i] == x[i] + c[i]
    ensures SquaredGaps(es, t, y) <= SquaredGaps(es, t, x) + ByEdge(es, t, x, c)
  {
    if t > 0 {
      GapsChange(es, t - 1, x, c, y);
      if Present(es[t - 1], x) { GapChange(es[t - 1], x, c, y); }
    }
  }

  lemma GapChange(e: Entry, x: Exact, c: Exact, y: Exact)
    requires Present(e, x) && e.lo < e.hi && c.Keys == x.Keys == y.Keys && y[e.lo] == x[e.lo] + c[e.lo]
    requires y[e.hi] == x[e.hi] + c[e.hi]
    ensures Quality(e) * (Gap(e, y) * Gap(e, y))
         <= Quality(e) * (Gap(e, x) * Gap(e, x)) + Share(e, x, c, e.lo) + Share(e, x, c, e.hi)
  {
    var d, a, b, q := Gap(e, x), c[e.lo], c[e.hi], Quality(e);
    SquareStep(d, Gap(e, y), a, b, q);
    assert Share(e, x, c, e.lo) == q * (2.0 * (a * a) - 2.0 * (a * d));
    assert Share(e, x, c, e.hi) == q * (2.0 * (b * b) - 2.0 * (b * -d));
  }

  // ----- Summing by nodes -----

  ghost function OneEdge(e: Entry, ids: seq<NodeId>, k: nat, x: Exact, c: Exact): real
    requires k <= |ids|
  {
    if k == 0 then 0.0 else OneEdge(e, ids, k - 1, x, c) + Share(e, x, c, ids[k - 1])
  }

  ghost function AllNodes(es: seq<Entry>, t: nat, ids: seq<NodeId>, k: nat, x: Exact, c: Exact): real
    requires t <= |es| && k <= |ids|
  {
    if k == 0 then 0.0 else AllNodes(es, t, ids, k - 1, x, c) + ByNode(es, t, x, c, ids[k - 1])
  }

  /** Only the two ends of an edge have a share in it. */
  lemma {:induction false} OneEdgeEnds(e: Entry, ids: seq<NodeId>, k: nat, x: Exact, c: Exact)
    requires k <= |ids| && c.Keys == x.Keys && Lists(ids, x.Keys) && e.lo < e.hi
    ensures OneEdge(e, ids, k, x, c)
         == (if e.lo in ids[..k] then Share(e, x, c, e.lo) else 0.0)
              + (if e.hi in ids[..k] then Share(e, x, c, e.hi) else 0.0)
  {
    if k > 0 {
      OneEdgeEnds(e, ids, k - 1, x, c);
      var i := ids[k - 1];
      assert ids[..k] == ids[..k - 1] + [i] && i !in ids[..k - 1];
      if i != e.lo && i != e.hi { NoShare(e, x, c, i); }
    }
  }

  lemma NoShare(e: Entry, x: Exact, c: Exact, i: NodeId)
    requires i != e.lo && i != e.hi
    ensures Share(e, x, c, i) == 0.0
  {
  }

  lemma {:induction false} AllNodesStep(es: seq<Entry>, t: nat, ids: seq<NodeId>, k: nat, x: Exact, c: Exact)
    requires t < |es| && k <= |ids|
    ensures AllNodes(es, t + 1, ids, k, x, c) == AllNodes(es, t, ids, k, x, c) + OneEdge(es[t], ids, k, x, c)
  {
    if k > 0 { AllNodesStep(es, t, ids, k - 1, x, c); }
  }

  lemma {:induction false} AllNodesNone(es: seq<Entry>, ids: seq<NodeId>, k: nat, x: Exact, c: Exact)
    requires k <= |ids|
    ensures AllNodes(es, 0, ids, k, x, c) == 0.0
  {
    if k > 0 { AllNodesNone(es, ids, k - 1, x, c); }
  }

  lemma {:induction false} EdgesByNodes(es: seq<Entry>, t: nat, ids: seq<NodeId>, x: Exact, c: Exact)
    requires t <= |es| && c.Keys == x.Keys && Lists(ids, x.Keys) && Loopless(es)
    ensures ByEdge(es, t, x, c) == AllNodes(es, t, ids, |ids|, x, c)
  {
    if t == 0 {
      AllNodesNone(es, ids, |ids|, x, c);
    } else {
      EdgesByNodes(es, t - 1, ids, x, c);
      AllNodesStep(es, t - 1, ids, |ids|, x, c);
      OneEdgeEnds(es[t - 1], ids, |ids|, x, c);
      assert ids[..|ids|] == ids;
    }
  }

  // ----- One node -----

  /** b is what moving by c changes around a node of weight w and pull g. */
  ghost predicate Factored(b: real, w: real, g: real, c: real) {
    b == 2.0 * (w * (c * c)) - 2.0 * (c * g)
  }

  lemma {:induction false} ByNodeFactors(es: seq<Entry>, t: nat, x: Exact, c: Exact, i: NodeId, ci: real)
    requires t <= |es| && i in c && ci == c[i]
    ensures Factored(ByNode(es, t, x, c, i), TotalWeight(es, t, x, i), TotalPull(es, t, x, i), ci)
  {
    if t > 0 {
      ByNodeFactors(es, t - 1, x, c, i, ci);
      ShareFactors(es[t - 1], x, c, i, ci);
      FactorStep(ByNode(es, t - 1, x, c, i), TotalWeight(es, t - 1, x, i), TotalPull(es, t - 1, x, i), ci,
                 Share(es[t - 1], x, c, i), Weighs(es[t - 1], x, i),
                 Times(Weighs(es[t - 1], x, i), Pulls(es[t - 1], x, i)));
    }
  }

  lemma ShareFactors(e: Entry, x: Exact, c: Exact, i: NodeId, ci: real)
    requires i in c && ci == c[i]
    ensures Factored(Share(e, x, c, i), Weighs(e, x, i), Times(Weighs(e, x, i), Pulls(e, x, i)), ci)
  {
    ShareExpands(Weighs(e, x, i), Pulls(e, x, i), ci);
  }

  lemma ShareExpands(q: real, err: real, c: real)
    ensures Factored(q * (2.0 * (c * c) - 2.0 * (c * err)), q, Times(q, err), c)
  {
    assert c * (q * err) == q * (c * err);
    assert q * (2.0 * (c * c) - 2.0 * (c * err)) == 2.0 * (q * (c * c)) - 2.0 * (q * (c * err));
  }

  lemma FactorStep(b: real, w: real, g: real, c: real, share: real, q: real, p: real)
    requires Factored(b, w, g, c) && Factored(share, q, p, c)
    ensures Factored(b + share, w + q, g + p, c)
  {
    assert (w + q) * (c * c) == w * (c * c) + q * (c * c);
    assert c * (g + p) == c * g + c * p;
  }

  lemma {:induction false} WeightSign(es: seq<Entry>, t: nat, x: Exact, i: NodeId)
    requires t <= |es|
    ensures TotalWeight(es, t, x, i) >= 0.0
  {
    if t > 0 { WeightSign(es, t - 1, x, i); }
  }

  /** A move of three tenths of the way gains: 2 w c^2 - 2 c g = -14/3 w c^2. */
  lemma DampedGains(b: real, g: real, w: real, c: real)
    requires w >= 0.0 && c == Damped(g, w) && Factored(b, w, g, c)
    ensures b <= 0.0 && (c != 0.0 ==> b < 0.0)
  {
    if w > 0.0 {
      var r := g / w;
      assert r * w == g && c == r * 0.3;
      ScaledPull(r, w, g, c);
      SquareSign(c);
      PositiveTimes(w, c * c);
    }
  }

  lemma ScaledPull(r: real, w: real, g: real, c: real)
    requires r * w == g && c == r * 0.3
    ensures 3.0 * (c * g) == 10.0 * (w * (c * c))
  {
    assert 3.0 * g == 10.0 * (w * c);
    assert c * (3.0 * g) == c * (10.0 * (w * c));
    assert c * (w * c) == w * (c * c);
  }

  lemma SquareSign(c: real)
    ensures c * c >= 0.0 && (c != 0.0 ==> c * c > 0.0)
  {
  }

  lemma PositiveTimes(w: real, s: real)
    requires w > 0.0 && s >= 0.0
    ensures w * s >= 0.0 && (s > 0.0 ==> w * s > 0.0)
  {
  }

  lemma {:induction false} NodesGain(es: seq<Entry>, ids: seq<NodeId>, k: nat, x: Exact, c: Exact)
    requires k <= |ids| && Lists(ids, x.Keys) && c.Keys == x.Keys && forall i :: i in x ==> c[i] == Move(es, x, i)
    ensures AllNodes(es, |es|, ids, k, x, c) <= 0.0
    ensures (exists j :: 0 <= j < k && Move(es, x, ids[j]) != 0.0) ==> AllNodes(es, |es|, ids, k, x, c) < 0.0
  {
    if k > 0 {
      NodesGain(es, ids, k - 1, x, c);
      NodeGains(es, x, c, ids[k - 1], Move(es, x, ids[k - 1]));
    }
  }

  lemma NodeGains(es: seq<Entry>, x: Exact, c: Exact, i: NodeId, ci: real)
    requires i in c && c[i] == ci == Move(es, x, i)
    ensures ByNode(es, |es|, x, c, i) <= 0.0 && (ci != 0.0 ==> ByNode(es, |es|, x, c, i) < 0.0)
  {
    ByNodeFactors(es, |es|, x, c, i, ci);
    WeightSign(es, |es|, x, i);
    DampedGains(ByNode(es, |es|, x, c, i), TotalPull(es, |es|, x, i), TotalWeight(es, |es|, x, i), ci);
  }

  /**
   * Without truncation, a step on any graph without self-loops never increases the weighted squared gaps, and lowers
   * them if it moves a node.
   */
  lemma ExactStepDescends(es: seq<Entry>, x: Exact)
    requires Loopless(es)
    ensures SquaredGaps(es, |es|, Moved(es, x)) <= SquaredGaps(es, |es|, x)
    ensures Moved(es, x) != x ==> SquaredGaps(es, |es|, Moved(es, x)) < SquaredGaps(es, |es|, x)
  {
    var ids := Listing(x.Keys);
    var c: Exact := map i | i in x :: Move(es, x, i);
    GapsChange(es, |es|, x, c, Moved(es, x));
    EdgesByNodes(es, |es|, ids, x, c);
    NodesGain(es, ids, |ids|, x, c);
    if Moved(es, x) != x {
      var i :| i in x && Move(es, x, i) != 0.0;
      var j :| 0 <= j < |ids| && ids[j] == i;
    }
  }
}
