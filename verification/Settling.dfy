/** A potential of the solver's truncated step: which qualities make every run come to rest. */
module Settling {
  import opened Basics
  import opened Twist
  import opened Solver

  // ----- Staircases -----

  /** The truncated share of an error, as the error grows. */
  type Stairs = int -> int

  ghost predicate Climbs(phi: Stairs, q: nat, d: int, e: int) {
    0 <= 100 * (phi(e) - phi(d)) <= q * (e - d) + 99
  }

  ghost predicate Odd(phi: Stairs, d: int) {
    phi(-d) == -phi(d)
  }

  /** An odd staircase that climbs at most one hundredth of q each nanosecond, rounded up. */
  ghost predicate Staircase(phi: Stairs, q: nat) {
    && (forall d, e {:trigger Climbs(phi, q, d, e)} :: d <= e ==> Climbs(phi, q, d, e))
    && (forall d {:trigger Odd(phi, d)} :: Odd(phi, d))
  }

  // ----- A potential for one edge -----

  /** Twice the area under the stairs, from zero to n. */
  ghost function Ramp(phi: Stairs, n: nat): int {
    if n == 0 then 0 else Ramp(phi, n - 1) + phi(n - 1) + phi(n)
  }

  /** The stairs have a step to one side or the other of d. */
  predicate AtStep(phi: Stairs, d: int) {
    phi(d + 1) != phi(d) || phi(d) != phi(d - 1)
  }

  /** The area, and one more next to a step where steps are far apart. */
  ghost function Height(phi: Stairs, q: nat, d: int): int {
    Ramp(phi, Abs(d)) + if q <= 22 && AtStep(phi, d) then 1 else 0
  }

  lemma {:induction false} RampNonNegative(phi: Stairs, q: nat, n: nat)
    requires Staircase(phi, q)
    ensures Ramp(phi, n) >= 0
  {
    if n > 0 {
      RampNonNegative(phi, q, n - 1);
      assert Odd(phi, 0) && Climbs(phi, q, 0, n - 1) && Climbs(phi, q, 0, n);
    }
  }

  lemma HeightEven(phi: Stairs, q: nat, d: int)
    requires Staircase(phi, q)
    ensures Height(phi, q, -d) == Height(phi, q, d)
  {
    assert Odd(phi, d) && Odd(phi, d + 1) && Odd(phi, d - 1);
  }

  lemma RampStep(phi: Stairs, q: nat, d: int)
    requires Staircase(phi, q)
    ensures Ramp(phi, Abs(d + 1)) - Ramp(phi, Abs(d)) == phi(d) + phi(d + 1)
  {
    assert Odd(phi, d) && Odd(phi, d + 1);
  }

  /** How far the area over j nanoseconds exceeds the rectangle at its start. */
  ghost function Excess(phi: Stairs, d: int, j: nat): int {
    Ramp(phi, Abs(d + j)) - Ramp(phi, Abs(d)) - 2 * (j * phi(d))
  }

  lemma ExcessStep(phi: Stairs, q: nat, d: int, j: nat)
    requires Staircase(phi, q)
    ensures Excess(phi, d, 0) == 0
    ensures Excess(phi, d, j + 1) == Excess(phi, d, j) + (phi(d + j) - phi(d)) + (phi(d + j + 1) - phi(d))
  {
    RampStep(phi, q, d + j);
    assert (j + 1) * phi(d) == j * phi(d) + phi(d);
  }

  lemma {:induction false} ExcessBound(phi: Stairs, q: nat, d: int, j: nat)
    requires Staircase(phi, q) && j > 0
    ensures 100 * Excess(phi, d, j) <= q * (j * j) + 99 * (2 * j - 1)
  {
    ExcessStep(phi, q, d, j - 1);
    assert Climbs(phi, q, d, d + j);
    if j > 1 {
      ExcessBound(phi, q, d, j - 1);
      assert Climbs(phi, q, d, d + j - 1);
    }
    SquareStep(q, j);
  }

  lemma SquareStep(q: nat, j: nat)
    requires j > 0
    ensures q * ((j - 1) * (j - 1)) + q * (j - 1) + q * j == q * (j * j)
  {
    assert (j - 1) * (j - 1) + (j - 1) + j == j * j;
    assert q * ((j - 1) * (j - 1) + (j - 1) + j) == q * ((j - 1) * (j - 1)) + q * (j - 1) + q * j;
  }

  // ----- The potential falls -----

  /** m is at least what two moves j apart cost: half of j^2, rounded up. */
  ghost predicate Costs(j: nat, m: int) {
    2 * m >= j * j + j % 2
  }

  lemma MovesCost(a: int, b: int)
    requires b >= a
    ensures Costs(b - a, a * a + b * b)
  {
    var j, s := b - a, a + b;
    assert 2 * (a * a + b * b) == j * j + s * s;
    assert s % 2 == j % 2;
    assert s * s >= 0 && (s != 0 ==> s * s >= 1);
  }

  /** Long moves: the area alone is under the cost. */
  lemma LongMove(q: nat, j: nat, excess: int, m: int)
    requires q >= 16 && j >= 6 && 100 * excess <= q * (j * j) + 99 * (2 * j - 1) && Costs(j, m)
    ensures 15 * (excess + 1) < q * m
  {
    var s := j * j;
    TimesMono(q, s, 2 * m);
    TimesAtLeast(q, s, 16, s);
    assert s >= 6 * j;
  }

  /** From quality 23 on steps are close enough for the area alone to do. */
  lemma MiddleMove(q: nat, j: nat, excess: int, m: int)
    requires q >= 23 && j >= 4 && 100 * excess <= q * (j * j) + 99 * (2 * j - 1) && Costs(j, m)
    ensures 15 * excess < q * m
  {
    var s := j * j;
    TimesMono(q, s, 2 * m);
    TimesAtLeast(q, s, 23, s);
    assert s >= 4 * j;
  }

  lemma TimesMono(q: nat, a: int, b: int)
    requires a <= b
    ensures q * a <= q * b
  {
  }

  lemma TimesAtLeast(q: int, m: int, a: nat, b: nat)
    requires q >= a && m >= b
    ensures q * m >= a * b
  {
    assert q * m >= a * m >= a * b;
  }

  /** Over j nanoseconds the stairs climb at most n steps. */
  lemma FewSteps(phi: Stairs, q: nat, d: int, j: nat, n: nat)
    requires Staircase(phi, q) && q * j <= 100 * n
    ensures 0 <= phi(d + j) - phi(d) <= n
  {
    assert Climbs(phi, q, d, d + j);
  }

  lemma OneNanosecond(phi: Stairs, q: nat, d: int, m: int)
    requires Staircase(phi, q) && q >= 16 && m >= 1
    ensures 15 * (Height(phi, q, d + 1) - Height(phi, q, d) - 2 * phi(d)) < q * m
  {
    ExcessStep(phi, q, d, 0);
    TimesMono(q, 1, m);
    assert Climbs(phi, q, d, d + 1);
  }

  lemma ExcessOfTwo(phi: Stairs, q: nat, d: int)
    requires Staircase(phi, q)
    ensures Excess(phi, d, 2) == 2 * (phi(d + 1) - phi(d)) + (phi(d + 2) - phi(d))
  {
    ExcessStep(phi, q, d, 0);
    ExcessStep(phi, q, d, 1);
  }

  lemma ExcessOfThree(phi: Stairs, q: nat, d: int)
    requires Staircase(phi, q)
    ensures Excess(phi, d, 3) == 2 * (phi(d + 1) - phi(d)) + 2 * (phi(d + 2) - phi(d)) + (phi(d + 3) - phi(d))
  {
    ExcessOfTwo(phi, q, d);
    ExcessStep(phi, q, d, 2);
  }

  /** At most one step in two nanoseconds: next to it the area is balanced by the height. */
  lemma TwoNanoseconds(phi: Stairs, q: nat, d: int)
    requires Staircase(phi, q) && q <= 32
    ensures var rise := Height(phi, q, d + 2) - Height(phi, q, d) - 2 * (2 * phi(d));
            rise <= 3 && (q <= 22 ==> rise <= 2)
  {
    ExcessOfTwo(phi, q, d);
    FewSteps(phi, q, d, 1, 1);
    FewSteps(phi, q, d, 2, 1);
    FewSteps(phi, q, d, 3, 1);
    FewSteps(phi, q, d + 1, 1, 1);
    FewSteps(phi, q, d + 2, 1, 1);
  }

  lemma ThreeNanoseconds(phi: Stairs, q: nat, d: int)
    requires Staircase(phi, q) && q <= 22
    ensures Height(phi, q, d + 3) - Height(phi, q, d) - 2 * (3 * phi(d)) <= 5
  {
    ExcessOfThree(phi, q, d);
    FewSteps(phi, q, d, 1, 1);
    FewSteps(phi, q, d, 2, 1);
    FewSteps(phi, q, d, 3, 1);
    FewSteps(phi, q, d + 1, 1, 1);
    FewSteps(phi, q, d + 2, 1, 1);
  }

  lemma FourNanoseconds(phi: Stairs, q: nat, d: int)
    requires Staircase(phi, q) && q <= 22
    ensures Excess(phi, d, 4) <= 7
  {
    ExcessOfThree(phi, q, d);
    ExcessStep(phi, q, d, 3);
    FewSteps(phi, q, d, 1, 1);
    FewSteps(phi, q, d, 2, 1);
    FewSteps(phi, q, d, 3, 1);
    FewSteps(phi, q, d, 4, 1);
  }

  lemma FiveNanoseconds(phi: Stairs, q: nat, d: int)
    requires Staircase(phi, q) && q <= 22
    ensures Excess(phi, d, 5) <= 10
  {
    FourNanoseconds(phi, q, d);
    ExcessStep(phi, q, d, 4);
    FewSteps(phi, q, d, 4, 1);
    FewSteps(phi, q, d, 5, 2);
  }

  /** Up to five nanoseconds at qualities where steps are at least four apart. */
  lemma ShortMove(phi: Stairs, q: nat, d: int, j: nat, m: int)
    requires Staircase(phi, q) && 16 <= q <= 22 && 2 <= j <= 5 && Costs(j, m)
    ensures 15 * (Height(phi, q, d + j) - Height(phi, q, d) - 2 * (j * phi(d))) < q * m
  {
    if j == 2 {
      TwoNanoseconds(phi, q, d);
      TimesAtLeast(q, m, 16, 2);
    } else if j == 3 {
      ThreeNanoseconds(phi, q, d);
      TimesAtLeast(q, m, 16, 5);
    } else if j == 4 {
      FourNanoseconds(phi, q, d);
      TimesAtLeast(q, m, 16, 8);
    } else {
      FiveNanoseconds(phi, q, d);
      TimesAtLeast(q, m, 16, 13);
    }
  }

  /** Where steps are closer the area alone is under the cost. */
  lemma DenseMove(phi: Stairs, q: nat, d: int, j: nat, m: int)
    requires Staircase(phi, q) && q >= 23 && j >= 2 && Costs(j, m)
    ensures 15 * (Height(phi, q, d + j) - Height(phi, q, d) - 2 * (j * phi(d))) < q * m
  {
    ExcessBound(phi, q, d, j);
    if j >= 4 {
      MiddleMove(q, j, Excess(phi, d, j), m);
    } else if j == 3 {
      TimesMono(q, 5, m);
    } else if q >= 33 {
      TimesMono(q, 2, m);
    } else {
      TwoNanoseconds(phi, q, d);
      TimesMono(q, 2, m);
    }
  }

  /** What a move costs is more than the potential gains beyond the share. */
  lemma UpwardMove(phi: Stairs, q: nat, d: int, j: nat, m: int)
    requires Staircase(phi, q) && q >= 16 && j > 0 && Costs(j, m)
    ensures 15 * (Height(phi, q, d + j) - Height(phi, q, d) - 2 * (j * phi(d))) < q * m
  {
    if j == 1 {
      OneNanosecond(phi, q, d, m);
    } else if q >= 23 {
      DenseMove(phi, q, d, j, m);
    } else if j >= 6 {
      ExcessBound(phi, q, d, j);
      LongMove(q, j, Excess(phi, d, j), m);
    } else {
      ShortMove(phi, q, d, j, m);
    }
  }

  /** Moving an edge's ends by a and b raises its potential by less than its share and the cost of the moves. */
  ghost predicate Falls(h: int, h': int, q: nat, share: int, a: int, b: int) {
    && 15 * (h' - h) <= q * (a * a + b * b) + 30 * ((b - a) * share)
    && (q > 0 && (a != 0 || b != 0) ==> 15 * (h' - h) < q * (a * a + b * b) + 30 * ((b - a) * share))
  }

  lemma EdgeFalls(phi: Stairs, q: nat, d: int, a: int, b: int)
    requires Staircase(phi, q) && q >= 16
    ensures Falls(Height(phi, q, d), Height(phi, q, d + b - a), q, phi(d), a, b)
  {
    if b > a {
      EdgeRises(phi, q, d, a, b);
    } else if a > b {
      EdgeSinks(phi, q, d, a, b);
    } else {
      FallsTogether(Height(phi, q, d), q, phi(d), a);
    }
  }

  lemma EdgeRises(phi: Stairs, q: nat, d: int, a: int, b: int)
    requires Staircase(phi, q) && q >= 16 && b > a
    ensures Falls(Height(phi, q, d), Height(phi, q, d + b - a), q, phi(d), a, b)
  {
    var m := a * a + b * b;
    MovesCost(a, b);
    UpwardMove(phi, q, d, b - a, m);
    FallsIf(Height(phi, q, d), Height(phi, q, d + b - a), q, phi(d), a, b, m, (b - a) * phi(d));
  }

  lemma EdgeSinks(phi: Stairs, q: nat, d: int, a: int, b: int)
    requires Staircase(phi, q) && q >= 16 && a > b
    ensures Falls(Height(phi, q, d), Height(phi, q, d + b - a), q, phi(d), a, b)
  {
    var m := a * a + b * b;
    MovesCost(b, a);
    DownwardMove(phi, q, d, a - b, m);
    OtherWay(a - b, phi(d), b - a);
    FallsIf(Height(phi, q, d), Height(phi, q, d + b - a), q, phi(d), a, b, m, (b - a) * phi(d));
  }

  lemma OtherWay(j: int, p: int, k: int)
    requires k == -j
    ensures j * p == -(k * p)
  {
  }

  lemma FallsIf(h: int, h': int, q: nat, share: int, a: int, b: int, m: int, pull: int)
    requires m == a * a + b * b && pull == (b - a) * share && 15 * (h' - h - 2 * pull) < q * m
    ensures Falls(h, h', q, share, a, b)
  {
  }

  lemma FallsTogether(h: int, q: nat, share: int, a: int)
    requires q >= 16
    ensures Falls(h, h, q, share, a, a)
  {
    if a != 0 {
      assert a * a >= 1;
      TimesAtLeast(q, a * a + a * a, 16, 1);
    } else {
      assert q * (0 * 0 + 0 * 0) == 0;
    }
    assert (a - a) * share == 0;
  }

  lemma DownwardMove(phi: Stairs, q: nat, d: int, j: nat, m: int)
    requires Staircase(phi, q) && q >= 16 && j > 0 && Costs(j, m)
    ensures 15 * (Height(phi, q, d - j) - Height(phi, q, d) + 2 * (j * phi(d))) < q * m
  {
    UpwardMove(phi, q, -d, j, m);
    HeightEven(phi, q, d);
    HeightEven(phi, q, d - j);
    assert Odd(phi, d) && j * -phi(d) == -(j * phi(d));
  }

  // ----- The solver's shares -----

  ghost function Shares(q: nat): Stairs {
    (d: int) => Share(d, q)
  }

  lemma TruncationClimbs(p: int, r: nat)
    ensures 0 <= 100 * (TDiv(p + r, 100) - TDiv(p, 100)) <= r + 99
    ensures TDiv(-p, 100) == -TDiv(p, 100)
  {
  }

  lemma SharesClimb(q: nat, d: int, e: int)
    requires d <= e
    ensures Climbs(Shares(q), q, d, e)
  {
    var r := q * (e - d);
    assert r >= 0 && e * q == d * q + r;
    TruncationClimbs(d * q, r);
  }

  lemma SharesStaircase(q: nat)
    ensures Staircase(Shares(q), q)
  {
    forall d, e | d <= e ensures Climbs(Shares(q), q, d, e) {
      SharesClimb(q, d, e);
    }
    forall d ensures Odd(Shares(q), d) {
      assert (-d) * q == -(d * q);
      TruncationClimbs(d * q, 0);
    }
  }

  /** The potential of one edge of quality q at defect d. */
  ghost function EdgePotential(q: nat, d: int): int {
    if q == 0 then 0 else Height(Shares(q), q, d)
  }

  lemma EdgePotentialNonNegative(q: nat, d: int)
    ensures EdgePotential(q, d) >= 0
  {
    SharesStaircase(q);
    RampNonNegative(Shares(q), q, Abs(d));
  }

  /** A quality at which every run settles. */
  predicate Calm(q: nat) {
    q == 0 || q >= 16
  }

  lemma QualityFalls(q: nat, d: int, a: int, b: int)
    requires Calm(q)
    ensures Falls(EdgePotential(q, d), EdgePotential(q, d + b - a), q, Share(d, q), a, b)
  {
    if q == 0 {
      assert Share(d, 0) == 0;
    } else {
      SharesStaircase(q);
      EdgeFalls(Shares(q), q, d, a, b);
    }
  }

  // ----- The whole table -----

  ghost predicate AllCalm(es: seq<Entry>, x: Offsets) {
    forall k :: 0 <= k < |es| && Active(es[k], x) ==> Calm(Last(es[k]).quality)
  }

  ghost function Potential(es: seq<Entry>, t: nat, x: Offsets): int
    requires t <= |es|
  {
    if t == 0 then 0 else Potential(es, t - 1, x) + PotentialAt(es[t - 1], x)
  }

  ghost function PotentialAt(e: Entry, x: Offsets): int {
    if Active(e, x) then EdgePotential(Last(e).quality, Defect(e, x)) else 0
  }

  lemma {:induction false} PotentialNonNegative(es: seq<Entry>, t: nat, x: Offsets)
    requires t <= |es|
    ensures Potential(es, t, x) >= 0
  {
    if t > 0 {
      PotentialNonNegative(es, t - 1, x);
      if Active(es[t - 1], x) { EdgePotentialNonNegative(Last(es[t - 1]).quality, Defect(es[t - 1], x)); }
    }
  }

  /** What moving by c costs at node i's end of an edge, less what the edge's share pays for it. */
  ghost function Fee(e: Entry, x: Offsets, c: Offsets, i: NodeId): int
    requires c.Keys == x.Keys
  {
    if !Touches(e, x, i) then 0 else
      Last(e).quality * (c[i] * c[i]) - 30 * (c[i] * Share(ErrorAt(e, x, i), Last(e).quality))
  }

  ghost function EdgeFees(e: Entry, x: Offsets, c: Offsets): map<NodeId, int>
    requires c.Keys == x.Keys
  {
    if Active(e, x) then map[e.lo := Fee(e, x, c, e.lo), e.hi := Fee(e, x, c, e.hi)] else map[]
  }

  ghost function Fees(es: seq<Entry>, x: Offsets, c: Offsets): (g: Dues)
    requires c.Keys == x.Keys
    ensures |g| == |es| && forall k :: 0 <= k < |es| ==> g[k] == EdgeFees(es[k], x, c)
  {
    seq(|es|, k requires 0 <= k < |es| => EdgeFees(es[k], x, c))
  }

  lemma DueIsFee(e: Entry, x: Offsets, c: Offsets, i: NodeId)
    requires c.Keys == x.Keys
    ensures Due(EdgeFees(e, x, c), i) == Fee(e, x, c, i)
  {
  }

  lemma FeesOwnEnds(es: seq<Entry>, x: Offsets, c: Offsets)
    requires c.Keys == x.Keys
    ensures OwnEnds(Fees(es, x, c), es, x)
  {
  }

  lemma {:induction false} FeesFactor(es: seq<Entry>, t: nat, x: Offsets, c: Offsets, i: NodeId, ci: int)
    requires t <= |es| && c.Keys == x.Keys && i in x && ci == c[i]
    ensures ByNode(Fees(es, x, c), t, i) == Load(es, t, x, i) * (ci * ci) - 30 * (ci * Pull(es, t, x, i))
  {
    if t > 0 {
      FeesFactor(es, t - 1, x, c, i, ci);
      DueIsFee(es[t - 1], x, c, i);
      if Touches(es[t - 1], x, i) {
        FeeStep(Load(es, t - 1, x, i), Pull(es, t - 1, x, i), ci, ci * ci, Last(es[t - 1]).quality,
                Share(ErrorAt(es[t - 1], x, i), Last(es[t - 1]).quality));
      }
    }
  }

  lemma FeeStep(w: int, p: int, c: int, cc: int, q: int, share: int)
    ensures (w + q) * cc - 30 * (c * (p + share)) == (w * cc - 30 * (c * p)) + (q * cc - 30 * (c * share))
  {
  }

  /** The correction is paid for by the pull. */
  lemma NodePays(es: seq<Entry>, x: Offsets, i: NodeId)
    requires i in x
    ensures ByNode(Fees(es, x, Corrections(es, x)), |es|, i) <= 0
  {
    var c, p, w := Correction(es, x, i), Pull(es, |es|, x, i), Load(es, |es|, x, i);
    FeesFactor(es, |es|, x, Corrections(es, x), i, c);
    if w > 0 { TruncatedPays(w, p, c); }
  }

  lemma TruncatedPays(w: int, p: int, c: int)
    requires w > 0 && c == TDiv(30 * p, w)
    ensures w * (c * c) - 30 * (c * p) <= 0
  {
    var r := 30 * p - w * c;
    TruncationRemainder(30 * p, w, c, r);
    assert c * r >= 0;
    assert c * (30 * p) == c * (w * c) + c * r;
    assert c * (w * c) == w * (c * c);
  }

  lemma TruncationRemainder(n: int, w: int, c: int, r: int)
    requires w > 0 && c == TDiv(n, w) && r == n - w * c
    ensures (c > 0 ==> r >= 0) && (c < 0 ==> r <= 0)
  {
  }

  // ----- A step lowers the potential -----

  /** Active edges of positive quality with a moving end, among the first t. */
  ghost function Stirred(es: seq<Entry>, t: nat, x: Offsets, c: Offsets): nat
    requires t <= |es| && c.Keys == x.Keys
  {
    if t == 0 then 0 else Stirred(es, t - 1, x, c) + if Stirs(es[t - 1], x, c) then 1 else 0
  }

  ghost predicate Stirs(e: Entry, x: Offsets, c: Offsets)
    requires c.Keys == x.Keys
  {
    Active(e, x) && Last(e).quality > 0 && (c[e.lo] != 0 || c[e.hi] != 0)
  }

  lemma EdgePays(e: Entry, x: Offsets, c: Offsets, y: Offsets)
    requires Active(e, x) && e.lo < e.hi && Calm(Last(e).quality) && c.Keys == x.Keys == y.Keys
    requires y[e.lo] == x[e.lo] + c[e.lo] && y[e.hi] == x[e.hi] + c[e.hi]
    ensures 15 * (PotentialAt(e, y) - PotentialAt(e, x)) + (if Stirs(e, x, c) then 1 else 0)
         <= Fee(e, x, c, e.lo) + Fee(e, x, c, e.hi)
  {
    var q, d, a, b := Last(e).quality, Defect(e, x), c[e.lo], c[e.hi];
    assert Defect(e, y) == d + b - a;
    QualityFalls(q, d, a, b);
    ErrorIsDefect(e, x, e.lo);
    ErrorIsDefect(e, x, e.hi);
    ShareOdd(d, q);
    FeesAdd(q, a, b, Share(d, q));
  }

  lemma ShareOdd(d: int, q: nat)
    ensures Share(-d, q) == -Share(d, q)
  {
    assert (-d) * q == -(d * q);
    TruncationClimbs(d * q, 0);
  }

  lemma FeesAdd(q: int, a: int, b: int, s: int)
    ensures (q * (a * a) - 30 * (a * s)) + (q * (b * b) - 30 * (b * -s)) == q * (a * a + b * b) + 30 * ((b - a) * s)
  {
    assert b * -s == -(b * s) && (b - a) * s == b * s - a * s;
    assert q * (a * a + b * b) == q * (a * a) + q * (b * b);
  }

  lemma {:induction false} PotentialChange(es: seq<Entry>, t: nat, x: Offsets, c: Offsets, y: Offsets)
    requires t <= |es| && Loopless(es) && AllCalm(es, x) && c.Keys == x.Keys == y.Keys
    requires forall i :: i in x ==> y[i] == x[i] + c[i]
    ensures 15 * (Potential(es, t, y) - Potential(es, t, x)) + Stirred(es, t, x, c) <= ByEdge(Fees(es, x, c), es, t)
  {
    if t > 0 {
      PotentialChange(es, t - 1, x, c, y);
      var e := es[t - 1];
      DueIsFee(e, x, c, e.lo);
      DueIsFee(e, x, c, e.hi);
      if Active(e, x) { EdgePays(e, x, c, y); }
    }
  }

  /** A node that moves stirs an edge. */
  lemma {:induction false} MoverStirs(es: seq<Entry>, t: nat, x: Offsets, c: Offsets, i: NodeId)
    requires t <= |es| && c.Keys == x.Keys && i in x && c[i] != 0 && Load(es, t, x, i) > 0
    ensures Stirred(es, t, x, c) > 0
  {
    if Load(es, t - 1, x, i) > 0 { MoverStirs(es, t - 1, x, c, i); }
  }

  /** Every step that moves a node lowers the potential. */
  lemma StepFalls(es: seq<Entry>, x: Offsets)
    requires Loopless(es) && AllCalm(es, x) && Stepped(es, x) != x
    ensures Potential(es, |es|, Stepped(es, x)) < Potential(es, |es|, x)
  {
    var c := Corrections(es, x);
    PotentialChange(es, |es|, x, c, Stepped(es, x));
    FeesOwnEnds(es, x, c);
    forall i | i in x ensures ByNode(Fees(es, x, c), |es|, i) <= 0 {
      NodePays(es, x, i);
    }
    EdgesNonPositive(Fees(es, x, c), es, x);
    var i := Mover(es, x);
    MoverStirs(es, |es|, x, c, i);
  }

  // ----- Runs -----

  ghost predicate Moves(es: seq<Entry>, x: Offsets, k: nat) {
    Run(es, x, k + 1) != Run(es, x, k)
  }

  ghost predicate Restless(es: seq<Entry>, x: Offsets, k: nat) {
    forall j: nat :: j < k ==> Moves(es, x, j)
  }

  lemma CalmStays(es: seq<Entry>, x: Offsets, y: Offsets)
    requires AllCalm(es, x) && y.Keys == x.Keys
    ensures AllCalm(es, y)
  {
  }

  lemma GradedStays(es: seq<Entry>, x: Offsets, y: Offsets)
    requires Graded(es, x) && y.Keys == x.Keys
    ensures Graded(es, y)
  {
  }

  /** A run moves at most as often as its first state has potential, and, where the energy descends, energy. */
  lemma {:induction false} RestlessIsBounded(es: seq<Entry>, x: Offsets, k: nat)
    requires Loopless(es) && Restless(es, x, k)
    ensures AllCalm(es, x) ==> k + Potential(es, |es|, Run(es, x, k)) <= Potential(es, |es|, x)
    ensures Graded(es, x) ==> k + Energy(es, |es|, Run(es, x, k)) <= Energy(es, |es|, x)
  {
    if k > 0 {
      RestlessIsBounded(es, x, k - 1);
      var y := Run(es, x, k - 1);
      assert Run(es, x, k) == Stepped(es, y) && Moves(es, x, k - 1);
      MoveFalls(es, x, y);
    }
  }

  /** A step that moves something lowers the potential, and the energy where the qualities are graded. */
  lemma MoveFalls(es: seq<Entry>, x: Offsets, y: Offsets)
    requires Loopless(es) && y.Keys == x.Keys && Stepped(es, y) != y
    ensures AllCalm(es, x) ==> Potential(es, |es|, Stepped(es, y)) < Potential(es, |es|, y)
    ensures Graded(es, x) ==> Energy(es, |es|, Stepped(es, y)) < Energy(es, |es|, y)
  {
    if AllCalm(es, x) {
      CalmStays(es, x, y);
      StepFalls(es, y);
    }
    if Graded(es, x) {
      GradedStays(es, x, y);
      StepDescends(es, y);
    }
  }

  /** The first k at which the run does not move, if there is one up to n. */
  lemma {:induction false} FirstRest(es: seq<Entry>, x: Offsets, n: nat) returns (k: nat)
    ensures k <= n && Restless(es, x, k) && (k < n ==> !Moves(es, x, k))
  {
    k := 0;
    if n > 0 {
      k := FirstRest(es, x, n - 1);
      if k == n - 1 && Moves(es, x, k) { k := n; }
    }
  }

  /** The run never moves again from step k on, and moved in every step before. */
  ghost predicate SettlesAt(es: seq<Entry>, x: Offsets, k: nat) {
    Restless(es, x, k) && forall j :: j >= k ==> Run(es, x, j) == Run(es, x, k)
  }

  /**
   * At calm qualities every run comes to rest, in at most as many moving steps as its first state has potential; and in
   * at most as many as it has energy, at the qualities where the energy descends.
   */
  lemma RunSettles(es: seq<Entry>, x: Offsets) returns (k: nat)
    requires Loopless(es) && AllCalm(es, x)
    ensures SettlesAt(es, x, k) && k <= Potential(es, |es|, x)
    ensures Graded(es, x) ==> k <= Energy(es, |es|, x)
  {
    PotentialNonNegative(es, |es|, x);
    k := FirstRest(es, x, Potential(es, |es|, x) + 1);
    RestlessIsBounded(es, x, k);
    PotentialNonNegative(es, |es|, Run(es, x, k));
    EnergyNonNegative(es, |es|, Run(es, x, k));
    forall j | j >= k ensures Run(es, x, j) == Run(es, x, k) {
      RunRests(es, x, k, j);
    }
  }
}
