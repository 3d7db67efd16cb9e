/** A consistent lie leaves the frame's spreads as they were. */
module FrameSpreads {
  import opened Basics
  import opened Vectors
  import opened Cholesky
  import opened Laplacian
  import opened Bfs
  import opened Cycles
  import opened Frame
  import opened FrameProperties

  // ----- The inverse is unique -----

  lemma {:induction false} DotDifference(u: Vec, x: Vec, y: Vec, d: Vec, m: nat)
    requires m <= |u| && m <= |x| && m <= |y| && m <= |d| && forall k :: 0 <= k < m ==> d[k] == x[k] - y[k]
    ensures Dot(u, d, m) == Dot(u, x, m) - Dot(u, y, m)
  {
    if m > 0 { DotDifference(u, x, y, d, m - 1); }
  }

  /** A positive definite system has one solution. */
  lemma OneSolution(a: Matrix, n: nat, x: Vec, y: Vec)
    requires Square(a, n) && PosDef(a, n) && |x| == n && |y| == n
    requires forall p :: 0 <= p < n ==> Dot(a[p], x, n) == Dot(a[p], y, n)
    ensures x == y
  {
    var d := seq(n, k requires 0 <= k < n => x[k] - y[k]);
    forall p | 0 <= p < n ensures Dot(a[p], d, n) == 0.0 {
      DotDifference(a[p], x, y, d, n);
    }
    QuadAsDot(a, d, Zeros(n), n, n);
    DotTail(d, Zeros(n), 0, n);
    assert !NonZero(d);
    forall k | 0 <= k < n ensures x[k] == y[k] {
      assert d[k] == 0.0;
    }
  }

  lemma OneInverse(a: Matrix, n: nat, p: nat, d: real, e: real)
    requires Square(a, n) && PosDef(a, n) && p < n && InverseDiagonal(a, n, p, d) && InverseDiagonal(a, n, p, e)
    ensures d == e
  {
    var x: Vec :| InverseColumn(a, x, n, p) && x[p] == d;
    var y: Vec :| InverseColumn(a, y, n, p) && y[p] == e;
    OneSolution(a, n, x, y);
  }

  lemma OneSpread(a: Matrix, n: nat, p: nat, s: real, t: real)
    requires Square(a, n) && PosDef(a, n) && p < n && SpreadOf(a, n, p, s) && SpreadOf(a, n, p, t)
    ensures s == t
  {
    OneInverse(a, n, p, s * s, t * t);
    OneRoot(s, t);
  }

  // ----- The Laplacian does not see the readings -----

  lemma {:induction false} ShiftedSpread(obs: seq<Obs>, phi: Vec, c: Vec, t: nat, i: nat)
    requires Bounded(obs, |phi|) && t <= |obs| && t <= |c|
    ensures Spread(Shift(obs, phi), c, t, i) == Spread(obs, c, t, i)
  {
    if t > 0 { ShiftedSpread(obs, phi, c, t - 1, i); }
  }

  lemma ShiftedRow(obs: seq<Obs>, phi: Vec, n: nat, i: nat)
    requires Usable(obs, n) && |phi| == n && Usable(Shift(obs, phi), n)
    ensures RowCoefs(Shift(obs, phi), n, i) == RowCoefs(obs, n, i)
  {
    forall o | 0 <= o < |obs| ensures RowCoefs(Shift(obs, phi), n, i)[o] == RowCoefs(obs, n, i)[o] {
      assert Shift(obs, phi)[o] == Moved(obs[o], phi);
      SameWeight(obs[o], Shift(obs, phi)[o], i);
    }
  }

  lemma SameWeight(o: Obs, p: Obs, i: nat)
    requires o.sigma > 0.0 && p == o.(m := p.m)
    ensures p.Weight() * Inc(p, i) == o.Weight() * Inc(o, i)
  {
  }

  lemma ShiftedNormal(obs: seq<Obs>, phi: Vec, n: nat, un: seq<nat>)
    requires Usable(obs, n) && |phi| == n && Usable(Shift(obs, phi), n)
    ensures Normal(Shift(obs, phi), n, un) == Normal(obs, n, un)
  {
    var a, b := Normal(Shift(obs, phi), n, un), Normal(obs, n, un);
    forall p | 0 <= p < |un| ensures a[p] == b[p] {
      ShiftedRow(obs, phi, n, un[p]);
      forall q | 0 <= q < |un| ensures a[p][q] == b[p][q] {
        ShiftedSpread(obs, phi, RowCoefs(obs, n, un[p]), |obs|, un[q]);
      }
    }
  }

  // ----- The frame -----

  lemma SolvedIsPosDef(f: NetworkFrame, n: nat, r: nat, obs: seq<Obs>, un: seq<nat>)
    requires Solved(f, n, r, obs) && Usable(f.inside, n) && Unknowns(un, n, f.span.order)
    ensures PosDef(Normal(f.inside, n, un), |un|)
  {
    OrderIsLinked(f.span, f.inside);
    NormalIsPosDef(f.inside, n, un, f.span.order);
  }

  lemma SameSpreads(f: NetworkFrame, f': NetworkFrame, n: nat, a: Matrix, un: seq<nat>)
    requires Square(a, |un|) && PosDef(a, |un|) && |f.sigma| == |f'.sigma| == n && f.span.r == f'.span.r
    requires forall p :: 0 <= p < |un| ==> un[p] < n
    requires forall p :: 0 <= p < |un| ==> SpreadOf(a, |un|, p, f.sigma[un[p]]) && SpreadOf(a, |un|, p, f'.sigma[un[p]])
    requires forall i :: 0 <= i < n && i !in un ==> f.sigma[i] == 0.0 && f'.sigma[i] == 0.0
    ensures f'.sigma == f.sigma
  {
    forall i | 0 <= i < n ensures f'.sigma[i] == f.sigma[i] {
      if i in un {
        var p :| 0 <= p < |un| && un[p] == i;
        OneSpread(a, |un|, p, f.sigma[i], f'.sigma[i]);
      }
    }
  }

  lemma SameUnknowns(un: seq<nat>, un': seq<nat>, n: nat, order: seq<nat>, order': seq<nat>)
    requires Unknowns(un, n, order) && Unknowns(un', n, order') && Ascends(un) && Ascends(un')
    requires order[0] == order'[0] && forall u :: u in order' <==> u in order
    ensures un' == un
  {
    OneAscending(un', un, (i: nat, j: nat) => i < j);
  }

  /** Adding phi[b] - phi[a] to every measurement leaves every spread as it was. */
  lemma LieKeepsSpreads(f: NetworkFrame, f': NetworkFrame, n: nat, r: nat, obs: seq<Obs>, phi: Vec)
    requires |phi| == n && Usable(obs, n) && Solved(f, n, r, obs) && Solved(f', n, r, Shift(obs, phi))
    requires Filled(f, n) && Filled(f', n)
    ensures f'.sigma == f.sigma
  {
    SolvedFacts(f, n, r, obs);
    SolvedFacts(f', n, r, Shift(obs, phi));
    SameComponent(f.span.order, f'.span.order, r, obs, phi);
    var un: seq<nat> :| Spreading(f, n, un);
    var un': seq<nat> :| Spreading(f', n, un');
    SameUnknowns(un, un', n, f.span.order, f'.span.order);
    ShiftedNormal(f.inside, phi, n, un);
    SolvedIsPosDef(f, n, r, obs, un);
    SameSpreads(f, f', n, Normal(f.inside, n, un), un);
  }
}
