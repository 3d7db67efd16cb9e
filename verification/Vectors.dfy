/** Finite sums over real vectors and matrices, stored as sequences of rows. */
module Vectors {

  type Vec = seq<real>
  type Matrix = seq<seq<real>>

  ghost predicate Square(a: Matrix, n: nat) {
    |a| == n && forall i :: 0 <= i < n ==> |a[i]| == n
  }

  ghost predicate Symmetric(a: Matrix, n: nat)
    requires Square(a, n)
  {
    forall i, j :: 0 <= i < n && 0 <= j < n ==> a[i][j] == a[j][i]
  }

  /** Sum of u[k] * v[k] over k < m. */
  ghost function Dot(u: Vec, v: Vec, m: nat): real
    requires m <= |u| && m <= |v|
  {
    if m == 0 then 0.0 else Dot(u, v, m - 1) + u[m - 1] * v[m - 1]
  }

  /** Sum of a[k][c] * x[k] over lo <= k < hi. */
  ghost function ColSum(a: Matrix, x: Vec, c: nat, lo: nat, hi: nat): real
    requires lo <= hi <= |a| && hi <= |x|
    requires forall k :: lo <= k < hi ==> c < |a[k]|
    decreases hi - lo
  {
    if lo == hi then 0.0 else ColSum(a, x, c, lo, hi - 1) + a[hi - 1][c] * x[hi - 1]
  }

  /** The quadratic form: sum of v[p] * (row p of a) . v over p < m. */
  ghost function Quad(a: Matrix, v: Vec, n: nat, m: nat): real
    requires Square(a, n) && |v| == n && m <= n
  {
    if m == 0 then 0.0 else Quad(a, v, n, m - 1) + v[m - 1] * Dot(a[m - 1], v, n)
  }

  ghost predicate NonZero(v: Vec) {
    exists i :: 0 <= i < |v| && v[i] != 0.0
  }

  ghost predicate PosDef(a: Matrix, n: nat)
    requires Square(a, n)
  {
    forall v: Vec :: |v| == n && NonZero(v) ==> Quad(a, v, n, n) > 0.0
  }

  lemma {:induction false} DotSame(u: Vec, v: Vec, u': Vec, v': Vec, m: nat)
    requires m <= |u| && m <= |v| && m <= |u'| && m <= |v'|
    requires forall k :: 0 <= k < m ==> u[k] == u'[k] && v[k] == v'[k]
    ensures Dot(u, v, m) == Dot(u', v', m)
  {
    if m > 0 { DotSame(u, v, u', v', m - 1); }
  }

  lemma {:induction false} DotSymmetric(u: Vec, v: Vec, m: nat)
    requires m <= |u| && m <= |v|
    ensures Dot(u, v, m) == Dot(v, u, m)
  {
    if m > 0 { DotSymmetric(u, v, m - 1); }
  }

  /** Terms past j vanish when one factor does. */
  lemma {:induction false} DotTail(u: Vec, v: Vec, j: nat, m: nat)
    requires j <= m <= |u| && m <= |v|
    requires forall k :: j <= k < m ==> u[k] == 0.0 || v[k] == 0.0
    ensures Dot(u, v, m) == Dot(u, v, j)
  {
    if j < m { DotTail(u, v, j, m - 1); }
  }

  lemma {:induction false} DotLinear(u: Vec, c: Vec, c': Vec, l: Vec, t: real, m: nat)
    requires m <= |u| && m <= |c| && m <= |c'| && m <= |l|
    requires forall k :: 0 <= k < m ==> c[k] == c'[k] + l[k] * t
    ensures Dot(u, c, m) == Dot(u, c', m) + t * Dot(u, l, m)
  {
    if m > 0 {
      DotLinear(u, c, c', l, t, m - 1);
      assert u[m - 1] * (c'[m - 1] + l[m - 1] * t) == u[m - 1] * c'[m - 1] + t * (u[m - 1] * l[m - 1]);
    }
  }

  /** A positive product is at least some positive e. */
  lemma ProductGap(a: real, b: real) returns (e: real)
    requires (a > 0.0 && b > 0.0) || (a < 0.0 && b < 0.0)
    ensures a * b >= e > 0.0
  {
    e := a * b;
  }

  /** A nonzero square is at least some positive e. */
  lemma SquareGap(x: real) returns (e: real)
    ensures x * x >= e >= 0.0
    ensures x != 0.0 ==> e > 0.0
  {
    if x == 0.0 { e := 0.0; } else { e := ProductGap(x, x); }
  }

  lemma ProductNonZero(x: real, y: real)
    requires x != 0.0 && y != 0.0
    ensures x * y != 0.0
  {
  }

  /** A number has one root that is not negative. */
  lemma OneRoot(s: real, t: real)
    requires s >= 0.0 && t >= 0.0 && s * s == t * t
    ensures s == t
  {
    assert (s - t) * (s + t) == 0.0;
    if s - t != 0.0 && s + t != 0.0 { ProductNonZero(s - t, s + t); }
  }

  lemma MulMonotone(w: real, x: real, y: real)
    requires w >= 0.0 && x <= y
    ensures w * x <= w * y
  {
  }

  lemma MulSame(c: real, x: real, y: real)
    requires x == y
    ensures c * x == c * y
  {
  }

  lemma {:induction false} DotSquareNonNegative(u: Vec, m: nat)
    requires m <= |u|
    ensures Dot(u, u, m) >= 0.0
    ensures (exists k :: 0 <= k < m && u[k] != 0.0) ==> Dot(u, u, m) > 0.0
  {
    if m > 0 {
      DotSquareNonNegative(u, m - 1);
      var e := SquareGap(u[m - 1]);
    }
  }

  lemma {:induction false} ColSumSame(a: Matrix, x: Vec, x': Vec, c: nat, lo: nat, hi: nat)
    requires lo <= hi <= |a| && hi <= |x| && hi <= |x'|
    requires forall k :: lo <= k < hi ==> c < |a[k]| && x[k] == x'[k]
    ensures ColSum(a, x, c, lo, hi) == ColSum(a, x', c, lo, hi)
    decreases hi - lo
  {
    if lo < hi { ColSumSame(a, x, x', c, lo, hi - 1); }
  }

  lemma {:induction false} ColSumSplit(a: Matrix, x: Vec, c: nat, lo: nat, mid: nat, hi: nat)
    requires lo <= mid <= hi <= |a| && hi <= |x|
    requires forall k :: lo <= k < hi ==> c < |a[k]|
    ensures ColSum(a, x, c, lo, hi) == ColSum(a, x, c, lo, mid) + ColSum(a, x, c, mid, hi)
    decreases hi - mid
  {
    if mid < hi { ColSumSplit(a, x, c, lo, mid, hi - 1); }
  }

  lemma {:induction false} ColSumZero(a: Matrix, x: Vec, c: nat, lo: nat, hi: nat)
    requires lo <= hi <= |a| && hi <= |x|
    requires forall k :: lo <= k < hi ==> c < |a[k]| && (a[k][c] == 0.0 || x[k] == 0.0)
    ensures ColSum(a, x, c, lo, hi) == 0.0
    decreases hi - lo
  {
    if lo < hi { ColSumZero(a, x, c, lo, hi - 1); }
  }

  /** s is s' with c times l added to it. */
  ghost predicate Accrues(s: Vec, s': Vec, l: Vec, c: real) {
    |s| == |s'| == |l| && forall p :: 0 <= p < |s| ==> s[p] == s'[p] + l[p] * c
  }

  /** c holds the sums of the columns of the first m rows of l, each weighted by x. */
  ghost predicate AreColSums(c: Vec, l: Matrix, x: Vec, n: nat, m: nat) {
    && m <= |l| && m <= |x| && |c| == n && (forall j :: 0 <= j < m ==> |l[j]| == n)
    && forall k :: 0 <= k < n ==> c[k] == ColSum(l, x, k, 0, m)
  }

  /** If g[j] = u . l[j] for every row, then g . x = u . (l^T x). */
  lemma {:induction false} DotExchange(u: Vec, l: Matrix, x: Vec, c: Vec, g: Vec, n: nat, m: nat)
    requires AreColSums(c, l, x, n, m) && m <= |g| && |u| == n
    requires forall j :: 0 <= j < m ==> g[j] == Dot(u, l[j], n)
    ensures Dot(g, x, m) == Dot(u, c, n)
    decreases m
  {
    if m == 0 {
      DotTail(u, c, 0, n);
    } else {
      var c' := ColSums(l, x, n, m - 1);
      DotExchange(u, l, x, c', g, n, m - 1);
      ColumnAdded(l, x, c, c', n, m);
      DotColumn(u, l[m - 1], c, c', g, x, n, m);
    }
  }

  lemma DotColumn(u: Vec, row: Vec, c: Vec, c': Vec, g: Vec, x: Vec, n: nat, m: nat)
    requires |u| == |row| == |c| == |c'| == n && 0 < m <= |g| && m <= |x| && g[m - 1] == Dot(u, row, n)
    requires Accrues(c, c', row, x[m - 1])
    requires Dot(g, x, m - 1) == Dot(u, c', n)
    ensures Dot(g, x, m) == Dot(u, c, n)
  {
    DotLinear(u, c, c', row, x[m - 1], n);
    ExchangeTerm(g[m - 1], x[m - 1], Dot(u, row, n), Dot(g, x, m - 1), Dot(u, c', n), Dot(g, x, m), Dot(u, c, n));
  }

  ghost function ColSums(l: Matrix, x: Vec, n: nat, m: nat): (c: Vec)
    requires m <= |l| && m <= |x| && forall j :: 0 <= j < m ==> |l[j]| == n
    ensures AreColSums(c, l, x, n, m)
  {
    seq(n, k requires 0 <= k < n => ColSum(l, x, k, 0, m))
  }

  lemma ColumnAdded(l: Matrix, x: Vec, c: Vec, c': Vec, n: nat, m: nat)
    requires 0 < m && AreColSums(c, l, x, n, m) && AreColSums(c', l, x, n, m - 1)
    ensures Accrues(c, c', l[m - 1], x[m - 1])
  {
  }

  /** One more term on either side, in plain numbers. */
  lemma ExchangeTerm(g: real, x: real, d: real, before: real, before': real, after: real, after': real)
    requires g == d && before == before' && after == before + g * x && after' == before' + x * d
    ensures after == after'
  {
  }
}
