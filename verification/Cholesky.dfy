/** Cholesky factorisation and the two triangular substitutions: `spd_solve`. */
module Cholesky {
  import opened Basics
  import opened Vectors

  /** What is asked of the square root: it is one, on every non-negative input. */
  ghost predicate IsSqrt(sqrt: real -> real) {
    forall s :: s >= 0.0 ==> sqrt(s) >= 0.0 && sqrt(s) * sqrt(s) == s
  }

  /** Rows below m are those of a lower triangular matrix with a positive diagonal. */
  ghost predicate Triangular(l: Matrix, n: nat, m: nat)
    requires Square(l, n) && m <= n
  {
    && (forall i, k :: 0 <= i < m && i < k < n ==> l[i][k] == 0.0)
    && (forall i :: 0 <= i < m ==> l[i][i] > 0.0)
  }

  /** The leading m by m block of a is the Gram matrix of the first m rows of l. */
  ghost predicate Factors(a: Matrix, l: Matrix, n: nat, m: nat)
    requires Square(a, n) && Square(l, n) && m <= n
  {
    forall p, q :: 0 <= p < m && 0 <= q < m ==> a[p][q] == Dot(l[p], l[q], n)
  }

  function Zeros(n: nat): (z: Vec)
    ensures |z| == n && forall i :: 0 <= i < n ==> z[i] == 0.0
  {
    seq(n, _ => 0.0)
  }

  /** Back substitution against the leading m by m block of l, transposed, from row m - 1 down to row i. */
  ghost function BackSub(l: Matrix, y: Vec, n: nat, m: nat, i: nat): (x: Vec)
    requires Square(l, n) && |y| == n && i <= m <= n && Triangular(l, n, m)
    ensures |x| == n
    decreases m - i
  {
    if i == m then Zeros(n) else
      var x := BackSub(l, y, n, m, i + 1);
      x[i := (y[i] - ColSum(l, x, i, i + 1, m)) / l[i][i]]
  }

  lemma {:induction false} BackSubSolves(l: Matrix, y: Vec, n: nat, m: nat, i: nat)
    requires Square(l, n) && |y| == n && i <= m <= n && Triangular(l, n, m)
    ensures forall k :: 0 <= k < i || m <= k < n ==> BackSub(l, y, n, m, i)[k] == 0.0
    ensures forall c :: i <= c < m ==> ColSum(l, BackSub(l, y, n, m, i), c, c, m) == y[c]
    decreases m - i
  {
    if i < m {
      BackSubSolves(l, y, n, m, i + 1);
      var x, x' := BackSub(l, y, n, m, i + 1), BackSub(l, y, n, m, i);
      forall c | i <= c < m
        ensures ColSum(l, x', c, c, m) == y[c]
      {
        if c > i { ColSumSame(l, x, x', c, c, m); } else { BackSubPivot(l, y, n, m, i, x, x'); }
      }
    }
  }

  lemma BackSubPivot(l: Matrix, y: Vec, n: nat, m: nat, i: nat, x: Vec, x': Vec)
    requires Square(l, n) && |y| == n && i < m <= n && Triangular(l, n, m) && |x| == n
    requires x' == x[i := (y[i] - ColSum(l, x, i, i + 1, m)) / l[i][i]]
    ensures ColSum(l, x', i, i, m) == y[i]
  {
    var s := ColSum(l, x, i, i + 1, m);
    DivideBack(l[i][i], x'[i], y[i] - s);
    PivotSolves(l, x, x', i, m, s, y[i]);
  }

  lemma DivideBack(d: real, q: real, p: real)
    requires d != 0.0 && q == p / d
    ensures d * q == p
  {
  }

  /** The entry that solves row i of the transposed system, given the later ones. */
  lemma PivotSolves(l: Matrix, x: Vec, x': Vec, i: nat, m: nat, s: real, t: real)
    requires i < m <= |l| && m <= |x| == |x'| && forall k :: i <= k < m ==> i < |l[k]|
    requires forall k :: i < k < m ==> x'[k] == x[k]
    requires s == ColSum(l, x, i, i + 1, m) && l[i][i] * x'[i] == t - s
    ensures ColSum(l, x', i, i, m) == t
  {
    ColSumSame(l, x, x', i, i + 1, m);
    PivotSplits(l, x', i, m);
  }

  lemma PivotSplits(l: Matrix, x: Vec, i: nat, m: nat)
    requires i < m <= |l| && m <= |x| && forall k :: i <= k < m ==> i < |l[k]|
    ensures ColSum(l, x, i, i, m) == l[i][i] * x[i] + ColSum(l, x, i, i + 1, m)
  {
    ColSumSplit(l, x, i, i, i + 1, m);
    assert ColSum(l, x, i, i, i) == 0.0;
  }

  /** So the solution of the transposed system reproduces y column by column. */
  lemma {:induction false} BackSubColumns(l: Matrix, y: Vec, n: nat, m: nat, c: nat)
    requires Square(l, n) && |y| == n && c < m <= n && Triangular(l, n, m)
    ensures ColSum(l, BackSub(l, y, n, m, 0), c, 0, m) == y[c]
  {
    var x := BackSub(l, y, n, m, 0);
    BackSubSolves(l, y, n, m, 0);
    ColSumSplit(l, x, c, 0, c, m);
    ColSumZero(l, x, c, 0, c);
  }

  /** Entry c of l^T v, over rows 0 to i. */
  ghost function Column(l: Matrix, v: Vec, c: nat, i: nat): real
    requires i < |l| && i < |v| && forall k :: 0 <= k <= i ==> c < |l[k]|
  {
    ColSum(l, v, c, 0, i + 1)
  }

  /** The pivot of row i is the quadratic form of a at a vector with entry one at i. */
  lemma {:induction false} PivotIsQuadratic(a: Matrix, l: Matrix, n: nat, i: nat) returns (v: Vec)
    requires Square(a, n) && Symmetric(a, n) && Square(l, n) && i < n
    requires Triangular(l, n, i) && Factors(a, l, n, i)
    requires forall k :: i <= k < n ==> l[i][k] == 0.0
    requires forall j :: 0 <= j < i ==> a[i][j] == Dot(l[i], l[j], n)
    ensures |v| == n && v[i] == 1.0
    ensures Quad(a, v, n, n) == a[i][i] - Dot(l[i], l[i], n)
  {
    var w := BackSub(l, l[i], n, i, 0);
    BackSubSolves(l, l[i], n, i, 0);
    v := seq(n, k requires 0 <= k < n => if k == i then 1.0 else -w[k]);
    var s := a[i][i] - Dot(l[i], l[i], n);
    forall k | 0 <= k < n
      ensures Column(l, v, k, i) == 0.0
    {
      NegatedColumn(l, w, v, k, i);
      if k < i {
        BackSubColumns(l, l[i], n, i, k);
      } else {
        ColSumZero(l, w, k, 0, i);
      }
    }
    forall p | 0 <= p <= i
      ensures Dot(a[p], v, n) == if p == i then s else 0.0
    {
      RowAgainstPivot(a, l, v, n, i, p);
    }
    QuadOnlyAt(a, v, n, i, s, n);
  }

  lemma {:induction false} NegatedColumn(l: Matrix, w: Vec, v: Vec, c: nat, m: nat)
    requires m < |l| && m < |w| && m < |v|
    requires forall k :: 0 <= k <= m ==> c < |l[k]|
    requires v[m] == 1.0 && forall k :: 0 <= k < m ==> v[k] == -w[k]
    ensures ColSum(l, v, c, 0, m + 1) == l[m][c] - ColSum(l, w, c, 0, m)
  {
    NegatedPrefix(l, w, v, c, m);
  }

  lemma {:induction false} NegatedPrefix(l: Matrix, w: Vec, v: Vec, c: nat, m: nat)
    requires m <= |l| && m <= |w| && m <= |v|
    requires forall k :: 0 <= k < m ==> c < |l[k]| && v[k] == -w[k]
    ensures ColSum(l, v, c, 0, m) == -ColSum(l, w, c, 0, m)
  {
    if m > 0 { NegatedPrefix(l, w, v, c, m - 1); }
  }

  lemma {:induction false} RowAgainstPivot(a: Matrix, l: Matrix, v: Vec, n: nat, i: nat, p: nat)
    requires Square(a, n) && Symmetric(a, n) && Square(l, n) && p <= i < n && |v| == n
    requires Factors(a, l, n, i)
    requires forall j :: 0 <= j < i ==> a[i][j] == Dot(l[i], l[j], n)
    requires v[i] == 1.0 && forall k :: i < k < n ==> v[k] == 0.0
    requires forall k :: 0 <= k < n ==> Column(l, v, k, i) == 0.0
    ensures Dot(a[p], v, n) == if p == i then a[i][i] - Dot(l[i], l[i], n) else 0.0
  {
    var g := seq(i + 1, q requires 0 <= q <= i => Dot(l[p], l[q], n));
    RowVanishes(l, v, n, i, p, g);
    DotTail(a[p], v, i + 1, n);
    DotSame(a[p], v, g, v, i);
    if p < i {
      assert a[p][i] == a[i][p];
      DotSymmetric(l[i], l[p], n);
    }
  }

  /** Row p of the factor meets nothing in v, whose columns all sum to zero. */
  lemma RowVanishes(l: Matrix, v: Vec, n: nat, i: nat, p: nat, g: Vec)
    requires Square(l, n) && p <= i < n && |v| == n && |g| == i + 1
    requires forall k :: 0 <= k < n ==> Column(l, v, k, i) == 0.0
    requires forall q :: 0 <= q <= i ==> g[q] == Dot(l[p], l[q], n)
    ensures Dot(g, v, i + 1) == 0.0
  {
    var c := seq(n, k requires 0 <= k < n => Column(l, v, k, i));
    DotExchange(l[p], l, v, c, g, n, i + 1);
    DotTail(l[p], c, 0, n);
  }

  lemma {:induction false} QuadOnlyAt(a: Matrix, v: Vec, n: nat, i: nat, s: real, m: nat)
    requires Square(a, n) && |v| == n && i < n && m <= n
    requires v[i] == 1.0 && forall k :: i < k < n ==> v[k] == 0.0
    requires forall p :: 0 <= p <= i ==> Dot(a[p], v, n) == if p == i then s else 0.0
    ensures Quad(a, v, n, m) == if m > i then s else 0.0
  {
    if m > 0 { QuadOnlyAt(a, v, n, i, s, m - 1); }
  }

  /** A factored matrix has quadratic form |l^T v|^2, positive for every nonzero v. */
  lemma {:induction false} FactoredIsPosDef(a: Matrix, l: Matrix, n: nat)
    requires Square(a, n) && Square(l, n) && Triangular(l, n, n) && Factors(a, l, n, n)
    ensures PosDef(a, n)
  {
    forall v: Vec | |v| == n && NonZero(v)
      ensures Quad(a, v, n, n) > 0.0
    {
      var c := ColSums(l, v, n, n);
      QuadIsNorm(a, l, v, c, n, n);
      var i := LastNonZero(v);
      LastColumn(l, v, n, i);
      assert c[i] != 0.0;
      DotSquareNonNegative(c, n);
    }
  }

  /** The column of v's last entry that is not zero sums to that entry times the pivot. */
  lemma LastColumn(l: Matrix, v: Vec, n: nat, i: nat)
    requires Square(l, n) && Triangular(l, n, n) && i < |v| == n && v[i] != 0.0 && forall k :: i < k < n ==> v[k] == 0.0
    ensures ColSum(l, v, i, 0, n) != 0.0
  {
    ColSumSplit(l, v, i, 0, i, n);
    ColSumSplit(l, v, i, i, i + 1, n);
    ColSumZero(l, v, i, 0, i);
    ColSumZero(l, v, i, i + 1, n);
    assert ColSum(l, v, i, i, i + 1) == ColSum(l, v, i, i, i) + l[i][i] * v[i];
    ProductNonZero(l[i][i], v[i]);
  }

  lemma LastNonZero(v: Vec) returns (i: nat)
    requires NonZero(v)
    ensures i < |v| && v[i] != 0.0 && forall k :: i < k < |v| ==> v[k] == 0.0
  {
    i := |v| - 1;
    while v[i] == 0.0
      invariant 0 <= i < |v| && forall k :: i < k < |v| ==> v[k] == 0.0
      decreases i
    {
      i := i - 1;
    }
  }

  /** Quad over the first m rows is c . (l^T of v's first m entries). */
  lemma {:induction false} QuadIsNorm(a: Matrix, l: Matrix, v: Vec, c: Vec, n: nat, m: nat)
    requires Square(a, n) && Square(l, n) && |v| == n && |c| == n && m <= n
    requires Factors(a, l, n, n)
    requires AreColSums(c, l, v, n, n)
    ensures Quad(a, v, n, m) == Dot(ColSums(l, v, n, m), c, n)
  {
    var d := ColSums(l, v, n, m);
    if m == 0 {
      DotTail(d, c, 0, n);
    } else {
      QuadIsNorm(a, l, v, c, n, m - 1);
      var d' := ColSums(l, v, n, m - 1);
      RowDot(a, l, v, c, n, m - 1);
      ColumnAdded(l, v, d, d', n, m);
      NormStep(c, l[m - 1], d, d', v[m - 1], Dot(a[m - 1], v, n), n);
    }
  }

  lemma RowDot(a: Matrix, l: Matrix, v: Vec, c: Vec, n: nat, i: nat)
    requires Square(a, n) && Square(l, n) && i < n && |v| == n && Factors(a, l, n, n) && AreColSums(c, l, v, n, n)
    ensures Dot(a[i], v, n) == Dot(l[i], c, n)
  {
    DotExchange(l[i], l, v, c, a[i], n, n);
  }

  lemma NormStep(c: Vec, row: Vec, d: Vec, d': Vec, t: real, r: real, n: nat)
    requires |c| == |d| == n && Accrues(d, d', row, t) && r == Dot(row, c, n)
    ensures Dot(d, c, n) == Dot(d', c, n) + t * r
  {
    DotLinear(c, d, d', row, t, n);
    DotSymmetric(c, d, n);
    DotSymmetric(c, d', n);
    DotSymmetric(c, row, n);
    MulSame(t, Dot(c, row, n), r);
  }

  method BackSubstitute(l: Matrix, y: Vec, n: nat) returns (x: Vec)
    requires Square(l, n) && |y| == n && Triangular(l, n, n)
    ensures x == BackSub(l, y, n, n, 0)
    ensures |x| == n && forall c :: 0 <= c < n ==> ColSum(l, x, c, 0, n) == y[c]
  {
    x := Zeros(n);
    var i := n;
    while i > 0
      invariant 0 <= i <= n && |x| == n
      invariant x == BackSub(l, y, n, n, i)
    {
      i := i - 1;
      var s := y[i];
      for k := i + 1 to n
        invariant s == y[i] - ColSum(l, x, i, i + 1, k)
      {
        s := s - l[k][i] * x[k];
      }
      x := x[i := s / l[i][i]];
    }
    forall c | 0 <= c < n
      ensures ColSum(l, x, c, 0, n) == y[c]
    {
      BackSubColumns(l, y, n, n, c);
    }
  }

  method ForwardSubstitute(l: Matrix, b: Vec, n: nat) returns (y: Vec)
    requires Square(l, n) && |b| == n && Triangular(l, n, n)
    ensures |y| == n && forall i :: 0 <= i < n ==> Dot(l[i], y, n) == b[i]
  {
    y := Zeros(n);
    for i := 0 to n
      invariant |y| == n
      invariant forall p :: 0 <= p < i ==> Dot(l[p], y, p + 1) == b[p]
    {
      var s := b[i];
      for k := 0 to i
        invariant s == b[i] - Dot(l[i], y, k)
      {
        s := s - l[i][k] * y[k];
      }
      ghost var y0 := y;
      y := y[i := s / l[i][i]];
      assert l[i][i] * (s / l[i][i]) == s;
      DotSame(l[i], y0, l[i], y, i);
      forall p | 0 <= p < i
        ensures Dot(l[p], y, p + 1) == b[p]
      {
        DotSame(l[p], y0, l[p], y, p + 1);
      }
    }
    forall i | 0 <= i < n
      ensures Dot(l[i], y, n) == b[i]
    {
      DotTail(l[i], y, i + 1, n);
    }
  }

  /** The two substitutions solve a x = b. */
  method Solve(a: Matrix, l: Matrix, b: Vec, n: nat) returns (x: Vec)
    requires Square(a, n) && Square(l, n) && |b| == n
    requires Triangular(l, n, n) && Factors(a, l, n, n)
    ensures |x| == n && forall i :: 0 <= i < n ==> Dot(a[i], x, n) == b[i]
  {
    var y := ForwardSubstitute(l, b, n);
    x := BackSubstitute(l, y, n);
    forall i | 0 <= i < n
      ensures Dot(a[i], x, n) == b[i]
    {
      DotExchange(l[i], l, x, y, a[i], n, n);
    }
  }

  ghost predicate RowDone(a: Matrix, l: Matrix, n: nat, i: nat, j: nat)
    requires Square(a, n) && Square(l, n) && i < n && j <= i
  {
    && (forall k :: j <= k < n ==> l[i][k] == 0.0)
    && (forall q :: 0 <= q < j ==> a[i][q] == Dot(l[i], l[q], n))
  }

  /** Filling entry (i, j) of the factor, j < i, matches entry (i, j) of the matrix. */
  lemma {:induction false} EntryDone(a: Matrix, l: Matrix, l': Matrix, n: nat, i: nat, j: nat)
    requires Square(a, n) && Square(l, n) && Square(l', n) && j < i < n
    requires Triangular(l, n, i) && RowDone(a, l, n, i, j)
    requires forall p :: 0 <= p < n && p != i ==> l'[p] == l[p]
    requires l'[i] == l[i][j := (a[i][j] - Dot(l[i], l[j], j)) / l[j][j]]
    ensures RowDone(a, l', n, i, j + 1)
  {
    forall q | 0 <= q <= j
      ensures a[i][q] == Dot(l'[i], l'[q], n)
    {
      DotTail(l'[i], l[q], q + 1, n);
      DotTail(l[i], l[q], q + 1, n);
      if q < j {
        DotSame(l[i], l[q], l'[i], l[q], q + 1);
      } else {
        DotSame(l[i], l[j], l'[i], l[j], j);
        var s := a[i][j] - Dot(l[i], l[j], j);
        assert (s / l[j][j]) * l[j][j] == s;
      }
    }
  }

  /** Filling the pivot completes row i. */
  lemma {:induction false} PivotDone(a: Matrix, l: Matrix, l': Matrix, n: nat, i: nat)
    requires Square(a, n) && Symmetric(a, n) && Square(l, n) && Square(l', n) && i < n
    requires Triangular(l, n, i) && Factors(a, l, n, i) && RowDone(a, l, n, i, i)
    requires forall p :: 0 <= p < n && p != i ==> l'[p] == l[p]
    requires |l'[i]| == n && forall k :: 0 <= k < n && k != i ==> l'[i][k] == l[i][k]
    requires l'[i][i] > 0.0 && l'[i][i] * l'[i][i] == a[i][i] - Dot(l[i], l[i], i)
    ensures Triangular(l', n, i + 1) && Factors(a, l', n, i + 1)
  {
    DotTail(l'[i], l'[i], i + 1, n);
    DotSame(l[i], l[i], l'[i], l'[i], i);
    forall q | 0 <= q < i
      ensures a[i][q] == Dot(l'[i], l'[q], n) && a[q][i] == Dot(l'[q], l'[i], n)
    {
      DotTail(l'[i], l[q], i, n);
      DotTail(l[i], l[q], i, n);
      DotSame(l[i], l[q], l'[i], l[q], i);
      DotSymmetric(l'[i], l[q], n);
      assert a[q][i] == a[i][q];
    }
  }

  /** The factorisation succeeds exactly on the positive definite matrices. */
  method Factorise(a: Matrix, n: nat, sqrt: real -> real) returns (r: Option<Matrix>)
    requires Square(a, n) && Symmetric(a, n) && IsSqrt(sqrt)
    ensures r.Some? <==> PosDef(a, n)
    ensures r.Some? ==> Square(r.value, n) && Triangular(r.value, n, n) && Factors(a, r.value, n, n)
  {
    var l: Matrix := seq(n, _ => Zeros(n));
    for i := 0 to n
      invariant Square(l, n) && Triangular(l, n, i) && Factors(a, l, n, i)
      invariant forall p, k :: i <= p < n && 0 <= k < n ==> l[p][k] == 0.0
    {
      for j := 0 to i
        invariant Square(l, n) && Triangular(l, n, i) && Factors(a, l, n, i)
        invariant forall p, k :: i < p < n && 0 <= k < n ==> l[p][k] == 0.0
        invariant RowDone(a, l, n, i, j)
      {
        var s := a[i][j];
        for k := 0 to j
          invariant s == a[i][j] - Dot(l[i], l[j], k)
        {
          s := s - l[i][k] * l[j][k];
        }
        ghost var l0 := l;
        l := l[i := l[i][j := s / l[j][j]]];
        EntryDone(a, l0, l, n, i, j);
      }
      var s := a[i][i];
      for k := 0 to i
        invariant s == a[i][i] - Dot(l[i], l[i], k)
      {
        s := s - l[i][k] * l[i][k];
      }
      DotTail(l[i], l[i], i, n);
      if s <= 0.0 {
        ghost var v := PivotIsQuadratic(a, l, n, i);
        assert NonZero(v);
        return None;
      }
      ghost var l0 := l;
      l := l[i := l[i][i := sqrt(s)]];
      PivotDone(a, l0, l, n, i);
    }
    FactoredIsPosDef(a, l, n);
    r := Some(l);
  }

  /** Column i of the inverse of a, solved for. */
  ghost predicate InverseColumn(a: Matrix, z: Vec, n: nat, i: nat)
    requires Square(a, n)
  {
    |z| == n && forall p :: 0 <= p < n ==> Dot(a[p], z, n) == if p == i then 1.0 else 0.0
  }

  /** d is entry (i, i) of the inverse of a. */
  ghost predicate InverseDiagonal(a: Matrix, n: nat, i: nat, d: real)
    requires Square(a, n) && i < n
  {
    exists z: Vec :: InverseColumn(a, z, n, i) && z[i] == d
  }

  /** `spd_solve`: the solution and the diagonal of the inverse, or None exactly when a is not positive definite. */
  method SpdSolve(a: Matrix, b: Vec, n: nat, sqrt: real -> real) returns (r: Option<(Vec, Vec)>)
    requires Square(a, n) && Symmetric(a, n) && |b| == n && IsSqrt(sqrt)
    ensures r.Some? <==> PosDef(a, n)
    ensures r.Some? ==>
              && |r.value.0| == n && |r.value.1| == n
              && (forall i :: 0 <= i < n ==> Dot(a[i], r.value.0, n) == b[i])
              && (forall i :: 0 <= i < n ==> InverseDiagonal(a, n, i, r.value.1[i]))
  {
    var f := Factorise(a, n, sqrt);
    if f.None? { return None; }
    var x := Solve(a, f.value, b, n);
    var diag := Zeros(n);
    for i := 0 to n
      invariant |diag| == n
      invariant forall p :: 0 <= p < i ==> InverseDiagonal(a, n, p, diag[p])
    {
      var z := Solve(a, f.value, Zeros(n)[i := 1.0], n);
      diag := diag[i := z[i]];
      assert InverseColumn(a, z, n, i) && InverseDiagonal(a, n, i, z[i]);
    }
    r := Some((x, diag));
  }
}
