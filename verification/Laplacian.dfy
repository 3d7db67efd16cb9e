/** Weighted least squares for node values from measured differences: `laplacian_solve`. */
module Laplacian {
  import opened Basics
  import opened Vectors
  import opened Cholesky

  /** One weighted measurement m of value[b] - value[a]. */
  datatype Obs = Obs(a: nat, b: nat, m: real, sigma: real) {
    function Weight(): real
      requires sigma > 0.0
    {
      1.0 / (sigma * sigma)
    }
  }

  ghost predicate Usable(obs: seq<Obs>, n: nat) {
    forall o :: 0 <= o < |obs| ==> obs[o].sigma > 0.0 && obs[o].a < n && obs[o].b < n
  }

  lemma WeightPositive(o: Obs)
    requires o.sigma > 0.0
    ensures o.Weight() > 0.0
  {
    var e := ProductGap(o.sigma, o.sigma);
  }

  /** The coefficient of node i in the difference o measures. */
  ghost function Inc(o: Obs, i: nat): real {
    (if o.b == i then 1.0 else 0.0) - (if o.a == i then 1.0 else 0.0)
  }

  ghost function Diff(o: Obs, x: Vec): real
    requires o.a < |x| && o.b < |x|
  {
    x[o.b] - x[o.a]
  }

  /** Sum over the first t observations of c[o] times the coefficient of node i. */
  ghost function Spread(obs: seq<Obs>, c: Vec, t: nat, i: nat): real
    requires t <= |obs| && t <= |c|
  {
    if t == 0 then 0.0 else Spread(obs, c, t - 1, i) + c[t - 1] * Inc(obs[t - 1], i)
  }

  /** Sum over the first t observations of c[o] times the difference they see in x. */
  ghost function Pairing(obs: seq<Obs>, c: Vec, t: nat, x: Vec): real
    requires t <= |obs| && t <= |c|
    requires forall o :: 0 <= o < t ==> obs[o].a < |x| && obs[o].b < |x|
  {
    if t == 0 then 0.0 else Pairing(obs, c, t - 1, x) + c[t - 1] * Diff(obs[t - 1], x)
  }

  /** x gives the unknowns their entry of v and every other node zero. */
  ghost predicate Embeds(un: seq<nat>, v: Vec, x: Vec) {
    && |v| == |un|
    && (forall p, q :: 0 <= p < q < |un| ==> un[p] != un[q])
    && (forall p :: 0 <= p < |un| ==> un[p] < |x| && x[un[p]] == v[p])
    && (forall i :: 0 <= i < |x| && i !in un ==> x[i] == 0.0)
  }

  lemma {:induction false} IncidencePrefix(o: Obs, un: seq<nat>, v: Vec, x: Vec, l: Vec, k: nat)
    requires Embeds(un, v, x) && o.a < |x| && o.b < |x| && k <= |un| <= |l|
    requires forall p :: 0 <= p < |un| ==> l[p] == Inc(o, un[p])
    ensures Dot(v, l, k) == (if o.b in un[..k] then x[o.b] else 0.0) - (if o.a in un[..k] then x[o.a] else 0.0)
  {
    if k > 0 {
      IncidencePrefix(o, un, v, x, l, k - 1);
      PrefixHolds(un, k, o.a);
      PrefixHolds(un, k, o.b);
      IncidenceTerm(o, un[k - 1], v[k - 1], l[k - 1]);
      OneMoreTerm(o.b in un[..k - 1], o.a in un[..k - 1], o.b == un[k - 1], o.a == un[k - 1], x[o.b], x[o.a], v[k - 1],
                  v[k - 1] * l[k - 1], Dot(v, l, k - 1));
    }
  }

  lemma OneMoreTerm(bIn: bool, aIn: bool, bNow: bool, aNow: bool, xb: real, xa: real, y: real, term: real,
                    before: real)
    requires before == (if bIn then xb else 0.0) - (if aIn then xa else 0.0)
    requires term == (if bNow then y else 0.0) - (if aNow then y else 0.0)
    requires (bNow ==> !bIn && xb == y) && (aNow ==> !aIn && xa == y)
    ensures before + term == (if bIn || bNow then xb else 0.0) - (if aIn || aNow then xa else 0.0)
  {
  }

  lemma PrefixHolds(un: seq<nat>, k: nat, i: nat)
    requires 0 < k <= |un| && forall p, q :: 0 <= p < q < |un| ==> un[p] != un[q]
    ensures i in un[..k] <==> i in un[..k - 1] || i == un[k - 1]
    ensures un[k - 1] !in un[..k - 1]
  {
    assert un[..k] == un[..k - 1] + [un[k - 1]];
  }

  lemma IncidenceTerm(o: Obs, u: nat, y: real, l: real)
    requires l == Inc(o, u)
    ensures y * l == (if o.b == u then y else 0.0) - (if o.a == u then y else 0.0)
  {
  }

  lemma IncidenceDot(o: Obs, un: seq<nat>, v: Vec, x: Vec, l: Vec)
    requires Embeds(un, v, x) && o.a < |x| && o.b < |x| && |l| == |un|
    requires forall p :: 0 <= p < |un| ==> l[p] == Inc(o, un[p])
    ensures Dot(v, l, |un|) == Diff(o, x)
  {
    IncidencePrefix(o, un, v, x, l, |un|);
    assert un[..|un|] == un;
  }

  lemma SpreadStep(obs: seq<Obs>, c: Vec, t: nat, un: seq<nat>, s: Vec, s': Vec, l: Vec)
    requires 0 < t <= |obs| && t <= |c| && |s| == |s'| == |l| == |un|
    requires forall p :: 0 <= p < |un| ==> s[p] == Spread(obs, c, t, un[p])
    requires forall p :: 0 <= p < |un| ==> s'[p] == Spread(obs, c, t - 1, un[p])
    requires forall p :: 0 <= p < |un| ==> l[p] == Inc(obs[t - 1], un[p])
    ensures Accrues(s, s', l, c[t - 1])
  {
    forall p | 0 <= p < |s|
      ensures s[p] == s'[p] + l[p] * c[t - 1]
    {
      SpreadTerm(obs, c, t, un[p], s'[p], l[p]);
    }
  }

  lemma SpreadTerm(obs: seq<Obs>, c: Vec, t: nat, i: nat, s': real, l: real)
    requires 0 < t <= |obs| && t <= |c| && s' == Spread(obs, c, t - 1, i) && l == Inc(obs[t - 1], i)
    ensures Spread(obs, c, t, i) == s' + l * c[t - 1]
  {
  }

  lemma DotStep(v: Vec, s: Vec, s': Vec, l: Vec, c: real, d: real, k: nat)
    requires |v| == |s| == k && Accrues(s, s', l, c) && Dot(v, l, k) == d
    ensures Dot(v, s, k) == Dot(v, s', k) + c * d
  {
    DotLinear(v, s, s', l, c, k);
    MulSame(c, Dot(v, l, k), d);
  }

  lemma ExchangeStep(obs: seq<Obs>, c: Vec, t: nat, v: Vec, x: Vec, s: Vec, s': Vec, l: Vec)
    requires 0 < t <= |obs| && t <= |c| && |v| == |s| && Accrues(s, s', l, c[t - 1])
    requires forall o :: 0 <= o < t ==> obs[o].a < |x| && obs[o].b < |x|
    requires Dot(v, s', |v|) == Pairing(obs, c, t - 1, x) && Dot(v, l, |v|) == Diff(obs[t - 1], x)
    ensures Dot(v, s, |v|) == Pairing(obs, c, t, x)
  {
    DotStep(v, s, s', l, c[t - 1], Diff(obs[t - 1], x), |v|);
  }

  ghost function Spreads(obs: seq<Obs>, c: Vec, t: nat, un: seq<nat>): (s: Vec)
    requires t <= |obs| && t <= |c|
    ensures |s| == |un| && forall p :: 0 <= p < |un| ==> s[p] == Spread(obs, c, t, un[p])
  {
    seq(|un|, p requires 0 <= p < |un| => Spread(obs, c, t, un[p]))
  }

  ghost function Incs(o: Obs, un: seq<nat>): (l: Vec)
    ensures |l| == |un| && forall p :: 0 <= p < |un| ==> l[p] == Inc(o, un[p])
  {
    seq(|un|, p requires 0 <= p < |un| => Inc(o, un[p]))
  }

  /** Summing by nodes equals summing by observations. */
  lemma {:induction false} Exchange(obs: seq<Obs>, c: Vec, t: nat, un: seq<nat>, v: Vec, x: Vec, s: Vec)
    requires t <= |obs| && t <= |c| && Embeds(un, v, x) && |s| == |un|
    requires forall o :: 0 <= o < t ==> obs[o].a < |x| && obs[o].b < |x|
    requires forall p :: 0 <= p < |un| ==> s[p] == Spread(obs, c, t, un[p])
    ensures Dot(v, s, |un|) == Pairing(obs, c, t, x)
    decreases t
  {
    if t == 0 {
      DotTail(v, s, 0, |un|);
    } else {
      var s', l := Spreads(obs, c, t - 1, un), Incs(obs[t - 1], un);
      Exchange(obs, c, t - 1, un, v, x, s');
      IncidenceDot(obs[t - 1], un, v, x, l);
      SpreadStep(obs, c, t, un, s, s', l);
      ExchangeStep(obs, c, t, v, x, s, s', l);
    }
  }

  // ----- The normal equations -----

  /** Coefficients making Spread an entry of the reduced Laplacian. */
  ghost function RowCoefs(obs: seq<Obs>, n: nat, i: nat): (c: Vec)
    requires Usable(obs, n)
    ensures |c| == |obs|
  {
    seq(|obs|, o requires 0 <= o < |obs| => obs[o].Weight() * Inc(obs[o], i))
  }

  ghost function LoadCoefs(obs: seq<Obs>, n: nat): (c: Vec)
    requires Usable(obs, n)
    ensures |c| == |obs|
  {
    seq(|obs|, o requires 0 <= o < |obs| => obs[o].Weight() * obs[o].m)
  }

  ghost function FlowCoefs(obs: seq<Obs>, n: nat, x: Vec): (c: Vec)
    requires Usable(obs, n) && |x| == n
    ensures |c| == |obs|
  {
    seq(|obs|, o requires 0 <= o < |obs| => obs[o].Weight() * Diff(obs[o], x))
  }

  ghost function ResidualCoefs(obs: seq<Obs>, n: nat, x: Vec): (c: Vec)
    requires Usable(obs, n) && |x| == n
    ensures |c| == |obs|
  {
    seq(|obs|, o requires 0 <= o < |obs| => obs[o].Weight() * (obs[o].m - Diff(obs[o], x)))
  }

  /** The reduced weighted graph Laplacian on the unknowns. */
  ghost function Normal(obs: seq<Obs>, n: nat, un: seq<nat>): (a: Matrix)
    requires Usable(obs, n)
    ensures Square(a, |un|)
  {
    seq(|un|, p requires 0 <= p < |un| =>
      seq(|un|, q requires 0 <= q < |un| => Spread(obs, RowCoefs(obs, n, un[p]), |obs|, un[q])))
  }

  lemma {:induction false} RowPairing(obs: seq<Obs>, n: nat, i: nat, x: Vec, t: nat)
    requires Usable(obs, n) && |x| == n && t <= |obs|
    ensures Pairing(obs, RowCoefs(obs, n, i), t, x) == Spread(obs, FlowCoefs(obs, n, x), t, i)
  {
    if t > 0 {
      RowPairing(obs, n, i, x, t - 1);
      var o := obs[t - 1];
      assert (o.Weight() * Inc(o, i)) * Diff(o, x) == (o.Weight() * Diff(o, x)) * Inc(o, i);
    }
  }

  lemma RowTimes(obs: seq<Obs>, n: nat, un: seq<nat>, v: Vec, x: Vec, p: nat)
    requires Usable(obs, n) && |x| == n && Embeds(un, v, x) && p < |un|
    ensures Dot(Normal(obs, n, un)[p], v, |un|) == Spread(obs, FlowCoefs(obs, n, x), |obs|, un[p])
  {
    var row := Normal(obs, n, un)[p];
    Exchange(obs, RowCoefs(obs, n, un[p]), |obs|, un, v, x, row);
    RowPairing(obs, n, un[p], x, |obs|);
    DotSymmetric(row, v, |un|);
  }

  lemma {:induction false} SpreadSplit(obs: seq<Obs>, n: nat, x: Vec, t: nat, i: nat)
    requires Usable(obs, n) && |x| == n && t <= |obs|
    ensures Spread(obs, ResidualCoefs(obs, n, x), t, i)
         == Spread(obs, LoadCoefs(obs, n), t, i) - Spread(obs, FlowCoefs(obs, n, x), t, i)
  {
    if t > 0 {
      SpreadSplit(obs, n, x, t - 1, i);
      var o := obs[t - 1];
      var w, d, c := o.Weight(), Diff(o, x), Inc(o, i);
      assert (w * (o.m - d)) * c == (w * o.m) * c - (w * d) * c;
    }
  }

  // ----- Energy, positive definiteness -----

  /** Sum of weighted squared differences of z over the first t observations. */
  ghost function Energy(obs: seq<Obs>, n: nat, t: nat, z: Vec): real
    requires Usable(obs, n) && |z| == n && t <= |obs|
  {
    if t == 0 then 0.0 else
      Energy(obs, n, t - 1, z) + obs[t - 1].Weight() * (Diff(obs[t - 1], z) * Diff(obs[t - 1], z))
  }

  lemma WeightedSquareGap(o: Obs, d: real) returns (e: real)
    requires o.sigma > 0.0
    ensures o.Weight() * (d * d) >= e >= 0.0
    ensures d != 0.0 ==> e > 0.0
  {
    WeightPositive(o);
    var g := SquareGap(d);
    if d == 0.0 { e := 0.0; } else {
      e := ProductGap(o.Weight(), g);
      MulMonotone(o.Weight(), g, d * d);
    }
  }

  lemma {:induction false} EnergyNonNegative(obs: seq<Obs>, n: nat, t: nat, z: Vec)
    requires Usable(obs, n) && |z| == n && t <= |obs|
    ensures Energy(obs, n, t, z) >= 0.0
    ensures (exists o :: 0 <= o < t && Diff(obs[o], z) != 0.0) ==> Energy(obs, n, t, z) > 0.0
  {
    if t > 0 {
      EnergyNonNegative(obs, n, t - 1, z);
      var e := WeightedSquareGap(obs[t - 1], Diff(obs[t - 1], z));
    }
  }

  lemma {:induction false} FlowPairing(obs: seq<Obs>, n: nat, x: Vec, t: nat)
    requires Usable(obs, n) && |x| == n && t <= |obs|
    ensures Pairing(obs, FlowCoefs(obs, n, x), t, x) == Energy(obs, n, t, x)
  {
    if t > 0 {
      FlowPairing(obs, n, x, t - 1);
      var w, d := obs[t - 1].Weight(), Diff(obs[t - 1], x);
      assert (w * d) * d == w * (d * d);
    }
  }

  lemma {:induction false} QuadAsDot(a: Matrix, v: Vec, h: Vec, n: nat, m: nat)
    requires Square(a, n) && |v| == n && |h| == n && m <= n
    requires forall p :: 0 <= p < n ==> h[p] == Dot(a[p], v, n)
    ensures Quad(a, v, n, m) == Dot(v, h, m)
  {
    if m > 0 { QuadAsDot(a, v, h, n, m - 1); }
  }

  lemma QuadIsEnergy(obs: seq<Obs>, n: nat, un: seq<nat>, v: Vec, x: Vec)
    requires Usable(obs, n) && |x| == n && Embeds(un, v, x)
    ensures Quad(Normal(obs, n, un), v, |un|, |un|) == Energy(obs, n, |obs|, x)
  {
    var a := Normal(obs, n, un);
    var h := seq(|un|, p requires 0 <= p < |un| => Dot(a[p], v, |un|));
    forall p | 0 <= p < |un|
      ensures h[p] == Spread(obs, FlowCoefs(obs, n, x), |obs|, un[p])
    {
      RowTimes(obs, n, un, v, x, p);
    }
    QuadAsDot(a, v, h, |un|, |un|);
    Exchange(obs, FlowCoefs(obs, n, x), |obs|, un, v, x, h);
    FlowPairing(obs, n, x, |obs|);
  }

  /** Some observation joins u and v. */
  ghost predicate Joined(obs: seq<Obs>, u: nat, v: nat) {
    exists o :: 0 <= o < |obs| && ((obs[o].a == u && obs[o].b == v) || (obs[o].a == v && obs[o].b == u))
  }

  /** Every node of the order but the first is joined to an earlier one. */
  ghost predicate Linked(obs: seq<Obs>, order: seq<nat>) {
    forall t :: 0 < t < |order| ==> exists s :: 0 <= s < t && Joined(obs, order[s], order[t])
  }

  lemma {:induction false} RigidlyZero(obs: seq<Obs>, n: nat, order: seq<nat>, z: Vec, t: nat)
    requires Usable(obs, n) && |z| == n && Linked(obs, order) && t < |order|
    requires forall i :: 0 <= i < |order| ==> order[i] < n
    requires z[order[0]] == 0.0
    requires forall o :: 0 <= o < |obs| ==> Diff(obs[o], z) == 0.0
    ensures z[order[t]] == 0.0
    decreases t
  {
    if t > 0 {
      var s :| 0 <= s < t && Joined(obs, order[s], order[t]);
      RigidlyZero(obs, n, order, z, s);
      var o :| 0 <= o < |obs| && ((obs[o].a == order[s] && obs[o].b == order[t])
                                  || (obs[o].a == order[t] && obs[o].b == order[s]));
      assert Diff(obs[o], z) == 0.0;
    }
  }

  /** Energy separates points of the component once the reference is pinned. */
  lemma EnergySeparates(obs: seq<Obs>, n: nat, order: seq<nat>, z: Vec, i: nat)
    requires Usable(obs, n) && |z| == n && Linked(obs, order) && |order| > 0 && i in order
    requires forall i :: 0 <= i < |order| ==> order[i] < n
    requires z[order[0]] == 0.0 && z[i] != 0.0
    ensures Energy(obs, n, |obs|, z) > 0.0
  {
    EnergyNonNegative(obs, n, |obs|, z);
    if forall o :: 0 <= o < |obs| ==> Diff(obs[o], z) == 0.0 {
      var t :| 0 <= t < |order| && order[t] == i;
      RigidlyZero(obs, n, order, z, t);
    }
  }

  /** un lists, without repetition, the component of the reference but for the reference. */
  ghost predicate Unknowns(un: seq<nat>, n: nat, order: seq<nat>) {
    && |order| > 0
    && (forall i :: 0 <= i < |order| ==> order[i] < n)
    && (forall p :: 0 <= p < |un| ==> un[p] < n)
    && (forall p, q :: 0 <= p < q < |un| ==> un[p] != un[q])
    && (forall i :: i in un <==> i in order && i != order[0])
  }

  ghost function Embed(un: seq<nat>, v: Vec, n: nat): (x: Vec)
    requires |v| == |un|
    ensures |x| == n
  {
    seq(n, i requires 0 <= i < n => if i in un then (var p :| 0 <= p < |un| && un[p] == i; v[p]) else 0.0)
  }

  lemma EmbedEmbeds(un: seq<nat>, v: Vec, n: nat)
    requires |v| == |un| && forall p, q :: 0 <= p < q < |un| ==> un[p] != un[q]
    requires forall p :: 0 <= p < |un| ==> un[p] < n
    ensures Embeds(un, v, Embed(un, v, n))
  {
    var x := Embed(un, v, n);
    forall p | 0 <= p < |un|
      ensures x[un[p]] == v[p]
    {
      var q :| 0 <= q < |un| && un[q] == un[p] && x[un[p]] == v[q];
    }
  }

  /** The reduced Laplacian of a connected component is positive definite. */
  lemma NormalIsPosDef(obs: seq<Obs>, n: nat, un: seq<nat>, order: seq<nat>)
    requires Usable(obs, n) && Unknowns(un, n, order) && Linked(obs, order)
    ensures PosDef(Normal(obs, n, un), |un|)
  {
    forall v: Vec | |v| == |un| && NonZero(v)
      ensures Quad(Normal(obs, n, un), v, |un|, |un|) > 0.0
    {
      assert forall p :: 0 <= p < |un| ==> un[p] in order;
      EmbedEmbeds(un, v, n);
      var x := Embed(un, v, n);
      QuadIsEnergy(obs, n, un, v, x);
      var p :| 0 <= p < |v| && v[p] != 0.0;
      EnergySeparates(obs, n, order, x, un[p]);
    }
  }

  lemma NormalIsSymmetric(obs: seq<Obs>, n: nat, un: seq<nat>)
    requires Usable(obs, n)
    ensures Symmetric(Normal(obs, n, un), |un|)
  {
    forall p, q | 0 <= p < |un| && 0 <= q < |un|
      ensures Normal(obs, n, un)[p][q] == Normal(obs, n, un)[q][p]
    {
      SpreadSymmetric(obs, n, |obs|, un[p], un[q]);
    }
  }

  lemma {:induction false} SpreadSymmetric(obs: seq<Obs>, n: nat, t: nat, i: nat, j: nat)
    requires Usable(obs, n) && t <= |obs|
    ensures Spread(obs, RowCoefs(obs, n, i), t, j) == Spread(obs, RowCoefs(obs, n, j), t, i)
  {
    if t > 0 {
      SpreadSymmetric(obs, n, t - 1, i, j);
      var o := obs[t - 1];
      assert (o.Weight() * Inc(o, i)) * Inc(o, j) == (o.Weight() * Inc(o, j)) * Inc(o, i);
    }
  }

  // ----- Least squares -----

  /** The weighted squared residual of an assignment. */
  ghost function Cost(obs: seq<Obs>, n: nat, t: nat, x: Vec): real
    requires Usable(obs, n) && |x| == n && t <= |obs|
  {
    if t == 0 then 0.0 else
      var r := obs[t - 1].m - Diff(obs[t - 1], x);
      Cost(obs, n, t - 1, x) + obs[t - 1].Weight() * (r * r)
  }

  /** The weighted residuals balance at every listed node. */
  ghost predicate Stationary(obs: seq<Obs>, n: nat, x: Vec, un: seq<nat>)
    requires Usable(obs, n) && |x| == n
  {
    forall p :: 0 <= p < |un| ==> Spread(obs, ResidualCoefs(obs, n, x), |obs|, un[p]) == 0.0
  }

  /** Sum of w[o] * (r[o] * r[o]) over o < t. */
  ghost function Squares(w: Vec, r: Vec, t: nat): real
    requires t <= |w| && t <= |r|
  {
    if t == 0 then 0.0 else Squares(w, r, t - 1) + w[t - 1] * (r[t - 1] * r[t - 1])
  }

  /** r' is r less d, and c is r weighted by w. */
  ghost predicate Splits(w: Vec, r: Vec, d: Vec, r': Vec, c: Vec) {
    && |w| == |r| == |d| == |r'| == |c|
    && forall o :: 0 <= o < |w| ==> r'[o] == r[o] - d[o] && c[o] == w[o] * r[o]
  }

  lemma {:induction false} SquaresSplit(w: Vec, r: Vec, d: Vec, r': Vec, c: Vec, t: nat)
    requires t <= |w| && Splits(w, r, d, r', c)
    ensures Squares(w, r', t) == Squares(w, r, t) + Squares(w, d, t) - 2.0 * Dot(c, d, t)
  {
    if t > 0 {
      SquaresSplit(w, r, d, r', c, t - 1);
      SquareOfDifference(w[t - 1], r[t - 1], d[t - 1]);
    }
  }

  lemma SquareOfDifference(w: real, r: real, d: real)
    ensures w * ((r - d) * (r - d)) == w * (r * r) + w * (d * d) - 2.0 * ((w * r) * d)
  {
  }

  ghost function WeightsOf(obs: seq<Obs>, n: nat): (w: Vec)
    requires Usable(obs, n)
    ensures |w| == |obs| && forall o :: 0 <= o < |obs| ==> w[o] == obs[o].Weight()
  {
    seq(|obs|, o requires 0 <= o < |obs| => obs[o].Weight())
  }

  ghost function Diffs(obs: seq<Obs>, n: nat, x: Vec): (d: Vec)
    requires Usable(obs, n) && |x| == n
    ensures |d| == |obs| && forall o :: 0 <= o < |obs| ==> d[o] == Diff(obs[o], x)
  {
    seq(|obs|, o requires 0 <= o < |obs| => Diff(obs[o], x))
  }

  ghost function Misses(obs: seq<Obs>, n: nat, x: Vec): (r: Vec)
    requires Usable(obs, n) && |x| == n
    ensures |r| == |obs| && forall o :: 0 <= o < |obs| ==> r[o] == obs[o].m - Diff(obs[o], x)
  {
    seq(|obs|, o requires 0 <= o < |obs| => obs[o].m - Diff(obs[o], x))
  }

  lemma {:induction false} CostIsSquares(obs: seq<Obs>, n: nat, t: nat, x: Vec)
    requires Usable(obs, n) && |x| == n && t <= |obs|
    ensures Cost(obs, n, t, x) == Squares(WeightsOf(obs, n), Misses(obs, n, x), t)
  {
    if t > 0 { CostIsSquares(obs, n, t - 1, x); }
  }

  lemma {:induction false} EnergyIsSquares(obs: seq<Obs>, n: nat, t: nat, z: Vec)
    requires Usable(obs, n) && |z| == n && t <= |obs|
    ensures Energy(obs, n, t, z) == Squares(WeightsOf(obs, n), Diffs(obs, n, z), t)
  {
    if t > 0 { EnergyIsSquares(obs, n, t - 1, z); }
  }

  lemma {:induction false} PairingIsDot(obs: seq<Obs>, n: nat, c: Vec, t: nat, z: Vec)
    requires Usable(obs, n) && |z| == n && t <= |obs| == |c|
    ensures Pairing(obs, c, t, z) == Dot(c, Diffs(obs, n, z), t)
  {
    if t > 0 { PairingIsDot(obs, n, c, t - 1, z); }
  }

  lemma ResidualsSplit(obs: seq<Obs>, n: nat, x: Vec, y: Vec, z: Vec)
    requires Usable(obs, n) && |x| == n && |y| == n && |z| == n && forall i :: 0 <= i < n ==> z[i] == y[i] - x[i]
    ensures Splits(WeightsOf(obs, n), Misses(obs, n, x), Diffs(obs, n, z), Misses(obs, n, y), ResidualCoefs(obs, n, x))
  {
    var w, r, r' := WeightsOf(obs, n), Misses(obs, n, x), Misses(obs, n, y);
    var d, c := Diffs(obs, n, z), ResidualCoefs(obs, n, x);
    forall o | 0 <= o < |obs|
      ensures r'[o] == r[o] - d[o] && c[o] == w[o] * r[o]
    {
      assert Diff(obs[o], z) == Diff(obs[o], y) - Diff(obs[o], x);
      MulSame(obs[o].Weight(), r[o], obs[o].m - Diff(obs[o], x));
    }
  }

  lemma CostSplit(obs: seq<Obs>, n: nat, t: nat, x: Vec, y: Vec, z: Vec, c: Vec)
    requires Usable(obs, n) && |x| == n && |y| == n && |z| == n && t <= |obs| && c == ResidualCoefs(obs, n, x)
    requires forall i :: 0 <= i < n ==> z[i] == y[i] - x[i]
    ensures Cost(obs, n, t, y) == Cost(obs, n, t, x) + Energy(obs, n, t, z) - 2.0 * Pairing(obs, c, t, z)
  {
    CostIsSquares(obs, n, t, x);
    CostIsSquares(obs, n, t, y);
    EnergyIsSquares(obs, n, t, z);
    PairingIsDot(obs, n, c, t, z);
    ResidualsSplit(obs, n, x, y, z);
    SquaresSplit(WeightsOf(obs, n), Misses(obs, n, x), Diffs(obs, n, z), Misses(obs, n, y), c, t);
  }

  ghost predicate Within(obs: seq<Obs>, order: seq<nat>) {
    forall o :: 0 <= o < |obs| ==> obs[o].a in order && obs[o].b in order
  }

  /** A stationary assignment costs less than any other by the energy of their difference. */
  lemma StationaryExcess(obs: seq<Obs>, n: nat, un: seq<nat>, order: seq<nat>, x: Vec, y: Vec, z: Vec)
    requires Usable(obs, n) && |x| == n && |y| == n && |z| == n
    requires Unknowns(un, n, order) && Within(obs, order) && Stationary(obs, n, x, un)
    requires x[order[0]] == 0.0 && y[order[0]] == 0.0
    requires forall i :: 0 <= i < n ==> z[i] == y[i] - x[i]
    ensures Cost(obs, n, |obs|, y) == Cost(obs, n, |obs|, x) + Energy(obs, n, |obs|, z)
  {
    CostSplit(obs, n, |obs|, x, y, z, ResidualCoefs(obs, n, x));
    BalancedPairing(obs, ResidualCoefs(obs, n, x), n, un, order, z);
  }

  /** Balanced coefficients do not see a displacement that leaves the reference where it is. */
  lemma BalancedPairing(obs: seq<Obs>, r: Vec, n: nat, un: seq<nat>, order: seq<nat>, z: Vec)
    requires Usable(obs, n) && |z| == n && |r| == |obs| && Unknowns(un, n, order) && Within(obs, order)
    requires z[order[0]] == 0.0
    requires forall p :: 0 <= p < |un| ==> Spread(obs, r, |obs|, un[p]) == 0.0
    ensures Pairing(obs, r, |obs|, z) == 0.0
  {
    assert forall p :: 0 <= p < |un| ==> un[p] in order;
    var v := seq(|un|, p requires 0 <= p < |un| => z[un[p]]);
    var z' := Embed(un, v, n);
    EmbedEmbeds(un, v, n);
    assert Pairing(obs, r, |obs|, z) == Pairing(obs, r, |obs|, z') by {
      forall i | i in order
        ensures z'[i] == z[i]
      {
        if i in un {
          var p :| 0 <= p < |un| && un[p] == i;
          assert z'[un[p]] == v[p];
        }
      }
      PairingSame(obs, r, |obs|, z, z');
    }
    var s := Zeros(|un|);
    Exchange(obs, r, |obs|, un, v, z', s);
    DotTail(v, s, 0, |un|);
  }

  lemma {:induction false} PairingSame(obs: seq<Obs>, c: Vec, t: nat, x: Vec, y: Vec)
    requires t <= |obs| && t <= |c|
    requires forall o :: 0 <= o < t ==> obs[o].a < |x| && obs[o].b < |x| && obs[o].a < |y| && obs[o].b < |y|
    requires forall o :: 0 <= o < t ==> x[obs[o].a] == y[obs[o].a] && x[obs[o].b] == y[obs[o].b]
    ensures Pairing(obs, c, t, x) == Pairing(obs, c, t, y)
  {
    if t > 0 { PairingSame(obs, c, t - 1, x, y); }
  }

  /** The least-squares property: x is the one minimiser among assignments holding the reference at zero. */
  ghost predicate LeastSquares(obs: seq<Obs>, n: nat, order: seq<nat>, x: Vec)
    requires Usable(obs, n) && |x| == n && |order| > 0
    requires forall i :: 0 <= i < |order| ==> order[i] < n
  {
    forall y: Vec :: |y| == n && y[order[0]] == 0.0 ==>
      && Cost(obs, n, |obs|, x) <= Cost(obs, n, |obs|, y)
      && (Cost(obs, n, |obs|, x) == Cost(obs, n, |obs|, y) ==> forall i :: i in order ==> x[i] == y[i])
  }

  lemma StationaryIsLeastSquares(obs: seq<Obs>, n: nat, un: seq<nat>, order: seq<nat>, x: Vec)
    requires Usable(obs, n) && |x| == n && Unknowns(un, n, order) && Within(obs, order) && Linked(obs, order)
    requires Stationary(obs, n, x, un) && x[order[0]] == 0.0
    ensures LeastSquares(obs, n, order, x)
  {
    forall y: Vec | |y| == n && y[order[0]] == 0.0
      ensures Cost(obs, n, |obs|, x) <= Cost(obs, n, |obs|, y)
      ensures Cost(obs, n, |obs|, x) == Cost(obs, n, |obs|, y) ==> forall i :: i in order ==> x[i] == y[i]
    {
      var z := seq(n, i requires 0 <= i < n => y[i] - x[i]);
      StationaryExcess(obs, n, un, order, x, y, z);
      EnergyNonNegative(obs, n, |obs|, z);
      if i :| i in order && x[i] != y[i] {
        EnergySeparates(obs, n, order, z, i);
      }
    }
  }

  // ----- Assembly and solution -----

  function Bump(mat: Matrix, i: nat, j: nat, d: real): (r: Matrix)
    requires i < |mat| && j < |mat[i]|
    ensures |r| == |mat| && forall p :: 0 <= p < |mat| ==> |r[p]| == |mat[p]|
    ensures forall p, q :: 0 <= p < |mat| && 0 <= q < |mat[p]| ==>
              r[p][q] == mat[p][q] + (if p == i && q == j then d else 0.0)
  {
    mat[i := mat[i][j := mat[i][j] + d]]
  }

  ghost predicate Indexes(pos: map<nat, nat>, un: seq<nat>) {
    && (forall p, q :: 0 <= p < q < |un| ==> un[p] != un[q])
    && (forall p :: 0 <= p < |un| ==> un[p] in pos && pos[un[p]] == p)
    && (forall i :: i in pos ==> pos[i] < |un| && un[pos[i]] == i)
  }

  /** The unknowns of the system, in ascending order, and where each stands. */
  ghost predicate Ascends(s: seq<nat>) {
    forall p, q :: 0 <= p < q < |s| ==> s[p] < s[q]
  }

  method ListUnknowns(n: nat, fixed: nat, members: set<nat>) returns (un: seq<nat>, pos: map<nat, nat>)
    ensures Indexes(pos, un) && Ascends(un)
    ensures forall i :: i in un <==> i in members && i < n && i != fixed
  {
    un, pos := [], map[];
    for i := 0 to n
      invariant Indexes(pos, un) && Ascends(un)
      invariant forall j :: j in un <==> j in members && j < i && j != fixed
    {
      if i in members && i != fixed {
        assert forall p :: 0 <= p < |un| ==> un[p] in un;
        pos := pos[i := |un|];
        un := un + [i];
      }
    }
  }

  /** What an observation of weight w adds to entry (i, j). */
  ghost function Share(w: real, o: Obs, i: nat, j: nat): real {
    (if i == o.a && j == o.a then w else 0.0) + (if i == o.b && j == o.b then w else 0.0)
    + (if i == o.a && j == o.b then -w else 0.0) + (if i == o.b && j == o.a then -w else 0.0)
  }

  lemma ShareIsProduct(w: real, o: Obs, i: nat, j: nat)
    ensures Share(w, o, i, j) == (w * Inc(o, i)) * Inc(o, j)
  {
  }

  /** mat' is mat with o's share of weight w added. */
  ghost predicate Weighted(mat: Matrix, mat': Matrix, un: seq<nat>, o: Obs, w: real) {
    && Square(mat, |un|) && Square(mat', |un|)
    && forall p, q :: 0 <= p < |un| && 0 <= q < |un| ==> mat'[p][q] == mat[p][q] + Share(w, o, un[p], un[q])
  }

  /** rhs' is rhs with o's load added. */
  ghost predicate Loaded(rhs: Vec, rhs': Vec, un: seq<nat>, o: Obs, load: real) {
    && |rhs| == |rhs'| == |un|
    && forall p :: 0 <= p < |un| ==> rhs'[p] == rhs[p] + load * Inc(o, un[p])
  }

  /** Add d to the entry of nodes i and j, if both are unknown. */
  method BumpNodes(mat: Matrix, pos: map<nat, nat>, ghost un: seq<nat>, i: nat, j: nat, d: real) returns (mat': Matrix)
    requires Indexes(pos, un) && Square(mat, |un|)
    ensures Bumped(mat, mat', un, i, j, d)
  {
    mat' := if i in pos && j in pos then Bump(mat, pos[i], pos[j], d) else mat;
  }

  ghost predicate Bumped(mat: Matrix, mat': Matrix, un: seq<nat>, i: nat, j: nat, d: real) {
    && Square(mat, |un|) && Square(mat', |un|)
    && forall p, q :: 0 <= p < |un| && 0 <= q < |un| ==>
         mat'[p][q] == mat[p][q] + if un[p] == i && un[q] == j then d else 0.0
  }

  /** One observation's share of the Laplacian. */
  method AddWeight(mat: Matrix, pos: map<nat, nat>, o: Obs, w: real, ghost un: seq<nat>) returns (mat': Matrix)
    requires Indexes(pos, un) && Square(mat, |un|)
    ensures Weighted(mat, mat', un, o, w)
  {
    mat' := BumpNodes(mat, pos, un, o.a, o.a, w);
    mat' := BumpNodes(mat', pos, un, o.b, o.b, w);
    mat' := BumpNodes(mat', pos, un, o.a, o.b, -w);
    mat' := BumpNodes(mat', pos, un, o.b, o.a, -w);
  }

  /** One observation's share of the right-hand side. */
  method AddLoad(rhs: Vec, pos: map<nat, nat>, o: Obs, load: real, ghost un: seq<nat>) returns (rhs': Vec)
    requires Indexes(pos, un) && |rhs| == |un|
    ensures Loaded(rhs, rhs', un, o, load)
  {
    rhs' := rhs;
    if o.a in pos { rhs' := rhs'[pos[o.a] := rhs'[pos[o.a]] - load]; }
    if o.b in pos { rhs' := rhs'[pos[o.b] := rhs'[pos[o.b]] + load]; }
  }

  ghost function Entry(obs: seq<Obs>, n: nat, t: nat, i: nat, j: nat): real
    requires Usable(obs, n) && t <= |obs|
  {
    Spread(obs, RowCoefs(obs, n, i), t, j)
  }

  /** mat and rhs hold the shares of the first t observations. */
  ghost predicate Assembled(mat: Matrix, rhs: Vec, obs: seq<Obs>, n: nat, un: seq<nat>, t: nat)
    requires Usable(obs, n) && t <= |obs|
  {
    && Square(mat, |un|) && |rhs| == |un|
    && (forall p, q :: 0 <= p < |un| && 0 <= q < |un| ==> mat[p][q] == Entry(obs, n, t, un[p], un[q]))
    && (forall p :: 0 <= p < |un| ==> rhs[p] == Spread(obs, LoadCoefs(obs, n), t, un[p]))
  }

  lemma AssembledStep(mat: Matrix, rhs: Vec, mat': Matrix, rhs': Vec,
                      obs: seq<Obs>, n: nat, un: seq<nat>, t: nat, w: real, load: real)
    requires Usable(obs, n) && t < |obs| && Assembled(mat, rhs, obs, n, un, t)
    requires w == obs[t].Weight() && Weighted(mat, mat', un, obs[t], w)
    requires load == w * obs[t].m && Loaded(rhs, rhs', un, obs[t], load)
    ensures Assembled(mat', rhs', obs, n, un, t + 1)
  {
    forall p, q | 0 <= p < |un| && 0 <= q < |un|
      ensures mat'[p][q] == Entry(obs, n, t + 1, un[p], un[q])
    {
      EntryStep(obs, n, t, un[p], un[q], mat[p][q], mat'[p][q]);
    }
  }

  method Assemble(n: nat, un: seq<nat>, pos: map<nat, nat>, obs: seq<Obs>) returns (mat: Matrix, rhs: Vec)
    requires Usable(obs, n) && Indexes(pos, un)
    ensures mat == Normal(obs, n, un)
    ensures |rhs| == |un|
    ensures forall p :: 0 <= p < |un| ==> rhs[p] == Spread(obs, LoadCoefs(obs, n), |obs|, un[p])
  {
    mat, rhs := seq(|un|, _ => Zeros(|un|)), Zeros(|un|);
    AssembledNothing(mat, rhs, obs, n, un);
    for t := 0 to |obs|
      invariant Assembled(mat, rhs, obs, n, un, t)
    {
      mat, rhs := AddObservation(n, un, pos, obs, t, mat, rhs);
    }
    AssembledAll(mat, rhs, obs, n, un);
  }

  method AddObservation(n: nat, un: seq<nat>, pos: map<nat, nat>, obs: seq<Obs>, t: nat, mat: Matrix, rhs: Vec)
    returns (mat': Matrix, rhs': Vec)
    requires Usable(obs, n) && Indexes(pos, un) && t < |obs| && Assembled(mat, rhs, obs, n, un, t)
    ensures Assembled(mat', rhs', obs, n, un, t + 1)
  {
    var w := obs[t].Weight();
    var load := w * obs[t].m;
    mat' := AddWeight(mat, pos, obs[t], w, un);
    rhs' := AddLoad(rhs, pos, obs[t], load, un);
    AssembledStep(mat, rhs, mat', rhs', obs, n, un, t, w, load);
  }

  lemma AssembledNothing(mat: Matrix, rhs: Vec, obs: seq<Obs>, n: nat, un: seq<nat>)
    requires Usable(obs, n) && mat == seq(|un|, _ => Zeros(|un|)) && rhs == Zeros(|un|)
    ensures Assembled(mat, rhs, obs, n, un, 0)
  {
  }

  lemma AssembledAll(mat: Matrix, rhs: Vec, obs: seq<Obs>, n: nat, un: seq<nat>)
    requires Usable(obs, n) && Assembled(mat, rhs, obs, n, un, |obs|)
    ensures mat == Normal(obs, n, un)
  {
    forall p | 0 <= p < |un|
      ensures mat[p] == Normal(obs, n, un)[p]
    {
    }
  }

  lemma EntryStep(obs: seq<Obs>, n: nat, t: nat, i: nat, j: nat, e: real, e': real)
    requires Usable(obs, n) && t < |obs| && e == Entry(obs, n, t, i, j)
    requires e' == e + Share(obs[t].Weight(), obs[t], i, j)
    ensures e' == Entry(obs, n, t + 1, i, j)
  {
    ShareIsProduct(obs[t].Weight(), obs[t], i, j);
  }

  /** The diagonal of the inverse of a positive definite matrix is positive. */
  lemma InverseDiagonalPositive(a: Matrix, n: nat, i: nat, d: real)
    requires Square(a, n) && i < n && PosDef(a, n) && InverseDiagonal(a, n, i, d)
    ensures d > 0.0
  {
    var z: Vec :| InverseColumn(a, z, n, i) && z[i] == d;
    var h := Zeros(n)[i := 1.0];
    QuadAsDot(a, z, h, n, n);
    DotTail(z, h, i + 1, n);
    DotTail(z, h, 0, i);
    if !NonZero(z) {
      DotTail(a[i], z, 0, n);
    }
  }

  /** The spread of node un[p] is the root of its entry of the inverse Laplacian. */
  ghost predicate SpreadOf(a: Matrix, n: nat, p: nat, sigma: real)
    requires Square(a, n) && p < n
  {
    sigma >= 0.0 && InverseDiagonal(a, n, p, sigma * sigma)
  }

  /** Write the solution and its spreads back to the nodes. */
  method Scatter(mat: Matrix, un: seq<nat>, n: nat, x: Vec, diag: Vec, sqrt: real -> real)
    returns (value: Vec, sigma: Vec)
    requires Square(mat, |un|) && PosDef(mat, |un|) && IsSqrt(sqrt) && |x| == |diag| == |un|
    requires forall p :: 0 <= p < |un| ==> un[p] < n
    requires forall p, q :: 0 <= p < q < |un| ==> un[p] != un[q]
    requires forall p :: 0 <= p < |un| ==> InverseDiagonal(mat, |un|, p, diag[p])
    ensures |value| == n && |sigma| == n && Embeds(un, x, value)
    ensures forall p :: 0 <= p < |un| ==> SpreadOf(mat, |un|, p, sigma[un[p]])
    ensures forall i :: 0 <= i < n && i !in un ==> sigma[i] == 0.0
  {
    value, sigma := Zeros(n), Zeros(n);
    for p := 0 to |un|
      invariant |value| == n && |sigma| == n
      invariant forall q :: 0 <= q < p ==> value[un[q]] == x[q] && SpreadOf(mat, |un|, q, sigma[un[q]])
      invariant forall i :: 0 <= i < n && i !in un ==> value[i] == 0.0 && sigma[i] == 0.0
    {
      InverseDiagonalPositive(mat, |un|, p, diag[p]);
      value := value[un[p] := x[p]];
      sigma := sigma[un[p] := sqrt(if diag[p] > 0.0 then diag[p] else 0.0)];
    }
  }

  /** `laplacian_solve`: the order lists the members, the fixed node first. */
  method LaplacianSolve(n: nat, fixed: nat, members: set<nat>, obs: seq<Obs>, sqrt: real -> real, ghost order: seq<nat>)
    returns (value: Vec, sigma: Vec, ghost un: seq<nat>)
    requires Usable(obs, n) && IsSqrt(sqrt)
    requires |order| > 0 && order[0] == fixed && (forall i :: i in order <==> i in members)
    requires forall i :: i in members ==> i < n
    ensures |value| == n && |sigma| == n && Unknowns(un, n, order) && Ascends(un)
    ensures forall i :: 0 <= i < n && (i !in members || i == fixed) ==> value[i] == 0.0 && sigma[i] == 0.0
    ensures PosDef(Normal(obs, n, un), |un|) ==>
              && Stationary(obs, n, value, un)
              && (forall p :: 0 <= p < |un| ==> SpreadOf(Normal(obs, n, un), |un|, p, sigma[un[p]]))
    ensures !PosDef(Normal(obs, n, un), |un|) ==> value == Zeros(n) && sigma == Zeros(n)
    ensures Linked(obs, order) && Within(obs, order) ==>
              PosDef(Normal(obs, n, un), |un|) && LeastSquares(obs, n, order, value)
  {
    var u, pos := ListUnknowns(n, fixed, members);
    un := u;
    var k := |u|;
    var mat, rhs := Assemble(n, u, pos, obs);
    NormalIsSymmetric(obs, n, u);
    assert forall p :: 0 <= p < k ==> u[p] in u;
    assert forall i :: 0 <= i < |order| ==> order[i] in order;
    value, sigma := Zeros(n), Zeros(n);
    var r := SpdSolve(mat, rhs, k, sqrt);
    if r.Some? {
      value, sigma := Scatter(mat, u, n, r.value.0, r.value.1, sqrt);
      SolvedIsStationary(obs, n, u, r.value.0, value, rhs);
    }
    if Linked(obs, order) && Within(obs, order) {
      NormalIsPosDef(obs, n, u, order);
      StationaryIsLeastSquares(obs, n, u, order, value);
    }
  }

  lemma SolvedIsStationary(obs: seq<Obs>, n: nat, un: seq<nat>, x: Vec, value: Vec, rhs: Vec)
    requires Usable(obs, n) && |value| == n && Embeds(un, x, value) && |rhs| == |un|
    requires forall p :: 0 <= p < |un| ==> rhs[p] == Spread(obs, LoadCoefs(obs, n), |obs|, un[p])
    requires forall p :: 0 <= p < |un| ==> Dot(Normal(obs, n, un)[p], x, |un|) == rhs[p]
    ensures Stationary(obs, n, value, un)
  {
    forall p | 0 <= p < |un|
      ensures Spread(obs, ResidualCoefs(obs, n, value), |obs|, un[p]) == 0.0
    {
      RowTimes(obs, n, un, x, value, p);
      SpreadSplit(obs, n, value, |obs|, un[p]);
    }
  }
}
