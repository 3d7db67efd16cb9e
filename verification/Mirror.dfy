/** The temporal mirror: two estimates of an epoch boundary drawn together by a damped, truncating bisection. */
module Mirror {
  import opened Basics

  datatype TemporalMirror = TemporalMirror(predictive: nat, retrodictive: nat, fixedPoint: nat, disagreement: nat,
                                           iterations: nat)

  const MAX_U64 := TWO64 - 1
  const AGREED := 1000

  /** The bits of an i64 read as a u64. */
  function AsU64(x: int): nat {
    x % TWO64
  }

  function Sum(s: seq<int>): int {
    if s == [] then 0 else Sum(s[..|s| - 1]) + s[|s| - 1]
  }

  /** Truncated mean. */
  function Mean(s: seq<int>): int
    requires s != []
  {
    TDiv(Sum(s), |s|)
  }

  /** Half a difference, as the product with 0.5 truncates it. */
  function Halved(x: int): int {
    TDiv(x, 2)
  }

  /** One round: each mirror half-way to the truncated midpoint, truncated. */
  function Bisected(pq: (int, int)): (int, int) {
    var mid := TDiv(pq.0 + pq.1, 2);
    (pq.0 + Halved(mid - pq.0), pq.1 + Halved(mid - pq.1))
  }

  function Iterated(pq: (int, int), k: nat): (int, int) {
    if k == 0 then pq else Bisected(Iterated(pq, k - 1))
  }

  function Gap(pq: (int, int)): nat {
    Abs(pq.0 - pq.1)
  }

  /** r lies between the two, in their order. */
  ghost predicate Between(outer: (int, int), inner: (int, int)) {
    || outer.0 <= inner.0 <= inner.1 <= outer.1
    || outer.0 >= inner.0 >= inner.1 >= outer.1
  }

  /** A round never crosses or leaves the interval, halves the gap and at worst adds one, and keeps its middle. */
  lemma BisectedCloses(pq: (int, int))
    ensures Between(pq, Bisected(pq)) && Gap(pq) <= 2 * Gap(Bisected(pq)) <= Gap(pq) + 2
    ensures Abs(Bisected(pq).0 + Bisected(pq).1 - (pq.0 + pq.1)) <= 1
  {
    var (p, q) := pq;
    var mid := TDiv(p + q, 2);
    assert p <= mid <= q || q <= mid <= p;
    HalvedNear(mid - p);
    HalvedNear(mid - q);
  }

  lemma HalvedNear(x: int)
    ensures x >= 0 ==> 0 <= x - 1 <= 2 * Halved(x) <= x || x == Halved(x) == 0
    ensures x <= 0 ==> x <= 2 * Halved(x) <= x + 1 <= 0 || x == Halved(x) == 0
  {
  }

  ghost predicate Centred(sum: int, pq: (int, int), k: nat) {
    Abs(pq.0 + pq.1 - sum) <= k
  }

  /** So the fixed point stays within half a nanosecond per round of the middle the mirrors started around. */
  lemma {:induction false} IteratedCentred(pq: (int, int), k: nat)
    ensures Centred(pq.0 + pq.1, Iterated(pq, k), k)
  {
    if k > 0 {
      IteratedCentred(pq, k - 1);
      CentredOnce(pq.0 + pq.1, Iterated(pq, k - 1), k - 1);
    }
  }

  lemma CentredOnce(sum: int, pq: (int, int), k: nat)
    requires Centred(sum, pq, k)
    ensures Centred(sum, Bisected(pq), k + 1)
  {
    BisectedCloses(pq);
  }

  function Pow2(k: nat): nat {
    if k == 0 then 1 else 2 * Pow2(k - 1)
  }

  ghost predicate Shrunk(g: int, h: int, n: nat) {
    h * n <= g
  }

  lemma HalveAgain(g0: int, g: int, h: int, n: nat, m: nat)
    requires 2 * h <= g && Shrunk(g0, g, n) && m == 2 * n
    ensures Shrunk(g0, h, m)
  {
    assert (2 * h) * n <= g * n;
  }

  /** However many rounds: still inside and still in order. */
  lemma {:induction false} IteratedStays(pq: (int, int), k: nat)
    ensures Between(pq, Iterated(pq, k))
  {
    if k > 0 {
      IteratedStays(pq, k - 1);
      BisectedCloses(Iterated(pq, k - 1));
    }
  }

  /** Each round at least halves what the gap has over two nanoseconds. */
  lemma {:induction false} IteratedHalves(pq: (int, int), k: nat)
    ensures Shrunk(Gap(pq) - 2, Gap(Iterated(pq, k)) - 2, Pow2(k))
  {
    if k > 0 {
      IteratedHalves(pq, k - 1);
      HalvesOnce(Gap(pq) - 2, Iterated(pq, k - 1), Pow2(k - 1));
    }
  }

  lemma HalvesOnce(g0: int, pq: (int, int), n: nat)
    requires Shrunk(g0, Gap(pq) - 2, n)
    ensures Shrunk(g0, Gap(Bisected(pq)) - 2, 2 * n)
  {
    BisectedCloses(pq);
    HalveAgain(g0, Gap(pq) - 2, Gap(Bisected(pq)) - 2, n, 2 * n);
  }

  /** Within the budget, the rounds end in agreement. */
  lemma BudgetSuffices(pq: (int, int), k: nat)
    requires Gap(pq) - 2 < 998 * Pow2(k)
    ensures Gap(Iterated(pq, k)) < 1000
  {
    IteratedHalves(pq, k);
    Unscaled(Gap(pq) - 2, Gap(Iterated(pq, k)) - 2, Pow2(k));
  }

  lemma ScaledOver(h: int, c: int, n: nat)
    ensures h >= c ==> h * n >= c * n
  {
  }

  lemma Unscaled(g: int, h: int, n: nat)
    requires Shrunk(g, h, n) && g < 998 * n
    ensures h < 998
  {
    ScaledOver(h, 998, n);
  }

  /** The rounds stop at the first agreement, or when the iterations run out. */
  ghost predicate StopsAt(pq: (int, int), max: nat, k: nat) {
    && k <= max && (k == 0 <==> max == 0)
    && (forall i :: 0 < i < k ==> Gap(Iterated(pq, i)) >= AGREED)
    && (k < max ==> Gap(Iterated(pq, k)) < AGREED)
  }

  ghost predicate Mirrors(m: TemporalMirror, pq: (int, int)) {
    && m.predictive == AsU64(pq.0) && m.retrodictive == AsU64(pq.1) && m.disagreement == Gap(pq)
    && m.fixedPoint == AsU64(TDiv(pq.0 + pq.1, 2))
  }

  function Unsolved(): TemporalMirror {
    TemporalMirror(0, 0, 0, MAX_U64, 0)
  }

  method Total(s: seq<int>) returns (t: int)
    ensures t == Sum(s)
  {
    t := 0;
    for i := 0 to |s|
      invariant t == Sum(s[..i])
    {
      assert s[..i + 1][..i] == s[..i];
      t := t + s[i];
    }
    assert s[..|s|] == s;
  }

  method FindFixedPoint(forward: seq<int>, backward: seq<int>, max: nat) returns (m: TemporalMirror)
    ensures forward == [] || backward == [] ==> m == TemporalMirror(0, 0, 0, 0xFFFF_FFFF_FFFF_FFFF, 0)
    ensures forward != [] && backward != [] ==>
      var start := (Mean(forward), Mean(backward)); var end := Iterated(start, m.iterations);
      && StopsAt(start, max, m.iterations) && Mirrors(m, end) && Between(start, end)
      && (max >= 1 && Gap(start) - 2 < 998 * Pow2(max) ==> m.disagreement < 1000)
  {
    if forward == [] || backward == [] { return Unsolved(); }
    var f := Total(forward);
    var b := Total(backward);
    ghost var start := (Mean(forward), Mean(backward));
    var p, q, k := Converge(TDiv(f, |forward|), TDiv(b, |backward|), max);
    m := TemporalMirror(AsU64(p), AsU64(q), AsU64(TDiv(p + q, 2)), Abs(p - q), k);
    IteratedStays(start, k);
    if max >= 1 && Gap(start) - 2 < 998 * Pow2(max) { BudgetSuffices(start, max); }
  }

  /** The rounds themselves, with the early stop. */
  method Converge(f: int, b: int, max: nat) returns (p: int, q: int, k: nat)
    ensures (p, q) == Iterated((f, b), k) && StopsAt((f, b), max, k)
  {
    p, q, k := f, b, 0;
    while k < max
      invariant k <= max && Reached((f, b), k, p, q) && Disagreeing((f, b), k)
    {
      p, q := Round((f, b), k, p, q);
      k := k + 1;
      if Abs(p - q) < AGREED { return; }
      DisagreeOn((f, b), k, p, q);
    }
  }

  ghost predicate Reached(start: (int, int), k: nat, p: int, q: int) {
    (p, q) == Iterated(start, k)
  }

  /** No agreement in the first k rounds. */
  ghost predicate Disagreeing(start: (int, int), k: nat) {
    forall i :: 0 < i <= k ==> Gap(Iterated(start, i)) >= AGREED
  }

  lemma DisagreeOn(start: (int, int), k: nat, p: int, q: int)
    requires k > 0 && Disagreeing(start, k - 1) && Reached(start, k, p, q) && Abs(p - q) >= AGREED
    ensures Disagreeing(start, k)
  {
  }

  /** Round k + 1. */
  method Round(ghost start: (int, int), ghost k: nat, p: int, q: int) returns (p': int, q': int)
    requires Reached(start, k, p, q)
    ensures Reached(start, k + 1, p', q')
  {
    var mid := TDiv(p + q, 2);
    p' := p + Halved(mid - p);
    q' := q + Halved(mid - q);
    assert (p', q') == Bisected((p, q));
  }

  // ----- Epoch boundaries -----

  function Forward(offsets: seq<int>, drifts: seq<int>, base: int, dt: int): seq<int> {
    var n := if |offsets| < |drifts| then |offsets| else |drifts|;
    seq(n, i requires 0 <= i < n => base + dt + offsets[i] + TDiv(drifts[i] * dt, 1000000000))
  }

  function Backward(offsets: seq<int>, base: int, dt: int): seq<int> {
    seq(|offsets|, i requires 0 <= i < |offsets| => base + dt + offsets[i])
  }

  /** What a clock reads, at times. */
  type Clock = int -> int

  /** A clock off by offset at the last boundary, and dt later by its drift, truncated, besides. */
  ghost predicate Drifts(clock: Clock, base: int, dt: int, offset: int, drift: int) {
    clock(base) == base + offset && clock(base + dt) == clock(base) + dt + TDiv(drift * dt, 1000000000)
  }

  /** The forward estimates are what the nodes' clocks read at the boundary; the backward ones, without drift. */
  lemma EstimatesRead(offsets: seq<int>, drifts: seq<int>, base: int, dt: int, clock: Clock, i: nat)
    requires i < |offsets| && i < |drifts|
    ensures Drifts(clock, base, dt, offsets[i], drifts[i]) ==> Forward(offsets, drifts, base, dt)[i] == clock(base + dt)
    ensures Drifts(clock, base, dt, offsets[i], 0) ==> Backward(offsets, base, dt)[i] == clock(base + dt)
  {
  }

  // ----- Means -----

  /** The mean of n numbers times n misses their sum by less than n, toward zero. */
  lemma MeanIs(s: seq<int>)
    requires s != []
    ensures |s| * Abs(Mean(s)) <= Abs(Sum(s)) < |s| * Abs(Mean(s)) + |s|
    ensures (Sum(s) >= 0 ==> Mean(s) >= 0) && (Sum(s) <= 0 ==> Mean(s) <= 0)
  {
    QuotientIs(Sum(s), |s|, Mean(s));
  }

  lemma QuotientIs(x: int, n: nat, q: int)
    requires n > 0 && q == TDiv(x, n)
    ensures n * Abs(q) <= Abs(x) < n * Abs(q) + n
    ensures (x >= 0 ==> q >= 0) && (x <= 0 ==> q <= 0)
  {
    SignedProduct(q, n);
  }

  lemma SignedProduct(q: int, n: nat)
    ensures n * Abs(q) == if q >= 0 then q * n else -(q * n)
  {
  }

  lemma {:induction false} SumInside(s: seq<int>, lo: int, hi: int)
    requires forall i :: 0 <= i < |s| ==> lo <= s[i] <= hi
    ensures |s| * lo <= Sum(s) <= |s| * hi
  {
    if s != [] {
      var n := |s| - 1;
      SumInside(s[..n], lo, hi);
      assert |s| * lo == n * lo + lo && |s| * hi == n * hi + hi;
    }
  }

  lemma MultipleOrder(n: nat, a: int, b: int)
    requires n > 0 && n * a < n * b + n
    ensures a <= b
  {
    MultipleGap(n, a - b);
    assert n * (a - b) == n * a - n * b;
  }

  /** A mean lies among the numbers it is of. */
  lemma MeanInside(s: seq<int>, lo: int, hi: int)
    requires s != [] && forall i :: 0 <= i < |s| ==> lo <= s[i] <= hi
    ensures lo <= Mean(s) <= hi
  {
    SumInside(s, lo, hi);
    QuotientInside(Sum(s), |s|, lo, hi);
  }

  lemma QuotientInside(x: int, n: nat, lo: int, hi: int)
    requires n > 0 && n * lo <= x <= n * hi
    ensures lo <= TDiv(x, n) <= hi
  {
    assert TDiv(x, n) * n == n * TDiv(x, n);
    MultipleOrder(n, lo, TDiv(x, n));
    MultipleOrder(n, TDiv(x, n), hi);
  }

  // ----- Boundaries whose mirrors always agree -----

  /** No product of drift and time overflows an i64. */
  predicate InRange(drifts: seq<int>, dt: int) {
    forall i :: 0 <= i < |drifts| ==> Abs(drifts[i] * dt) <= TWO63
  }

  const MAX_DRIFT := 9223372036

  lemma DriftSmall(x: int)
    requires Abs(x) <= TWO63
    ensures Abs(TDiv(x, 1000000000)) <= MAX_DRIFT
  {
  }

  /** The forward estimates add up to at most so much more or less than the backward ones. */
  lemma {:induction false} SumsNear(f: seq<int>, b: seq<int>, d: nat)
    requires |f| == |b| && forall i :: 0 <= i < |f| ==> Abs(f[i] - b[i]) <= d
    ensures Abs(Sum(f) - Sum(b)) <= |f| * d
  {
    if f != [] {
      var n := |f| - 1;
      SumsNear(f[..n], b[..n], d);
      assert |f| * d == n * d + d;
    }
  }

  /** Truncated quotients of numbers n d apart are at most d apart. */
  lemma QuotientsNear(x: int, y: int, n: nat, d: nat)
    requires n > 0 && Abs(x - y) <= n * d
    ensures Abs(TDiv(x, n) - TDiv(y, n)) <= d
  {
    QuotientOrder(x, y + n * d, n, d, y);
    QuotientOrder(y, x + n * d, n, d, x);
  }

  lemma QuotientOrder(x: int, z: int, n: nat, d: nat, y: int)
    requires n > 0 && x <= z == y + n * d
    ensures TDiv(x, n) <= TDiv(y, n) + d
  {
    var p, q := TDiv(x, n), TDiv(y, n);
    assert p * n == n * p && q * n == n * q && n * (q + d) == n * q + n * d;
    if x >= 0 || y <= 0 { MultipleOrder(n, p, q + d); }
  }

  /** With a drift for every offset, the mirrors start within the fifty rounds' budget. */
  lemma BoundaryInBudget(offsets: seq<int>, drifts: seq<int>, base: int, dt: int)
    requires |offsets| == |drifts| && offsets != [] && InRange(drifts, dt)
    ensures Gap((Mean(Forward(offsets, drifts, base, dt)), Mean(Backward(offsets, base, dt)))) <= MAX_DRIFT
  {
    var f, b := Forward(offsets, drifts, base, dt), Backward(offsets, base, dt);
    forall i | 0 <= i < |f| ensures Abs(f[i] - b[i]) <= MAX_DRIFT {
      DriftSmall(drifts[i] * dt);
    }
    SumsNear(f, b, MAX_DRIFT);
    QuotientsNear(Sum(f), Sum(b), |f|, MAX_DRIFT);
  }

  lemma FiftyRounds()
    ensures MAX_DRIFT - 2 < 998 * Pow2(50)
  {
    assert Pow2(6) == 64;
    assert Pow2(12) == 64 * Pow2(6);
    assert Pow2(18) == 64 * Pow2(12);
    assert Pow2(24) == 64 * Pow2(18);
    PowersGrow(24, 50);
  }

  lemma {:induction false} PowersGrow(j: nat, k: nat)
    requires j <= k
    ensures Pow2(j) <= Pow2(k)
  {
    if j < k { PowersGrow(j, k - 1); }
  }

  class EpochBoundarySolver {
    const duration: nat
    var mirrors: seq<TemporalMirror>

    constructor (duration: nat)
      ensures this.duration == duration && mirrors == []
    {
      this.duration, mirrors := duration, [];
    }

    /** Each boundary solved appends one mirror, and every one within the range of fifty rounds agrees. */
    method SolveBoundary(offsets: seq<int>, drifts: seq<int>, prev: nat) returns (m: TemporalMirror)
      modifies this
      ensures mirrors == old(mirrors) + [m]
      ensures var f, b := Forward(offsets, drifts, prev, duration), Backward(offsets, prev, duration);
              && (f == [] || b == [] ==> m == TemporalMirror(0, 0, 0, 0xFFFF_FFFF_FFFF_FFFF, 0))
              && (f != [] && b != [] ==>
                    && Between((Mean(f), Mean(b)), Iterated((Mean(f), Mean(b)), m.iterations))
                    && Mirrors(m, Iterated((Mean(f), Mean(b)), m.iterations)))
              && (f != [] && b != [] && Gap((Mean(f), Mean(b))) - 2 < 998 * Pow2(50) ==>
                  m.disagreement < 1000)
      ensures |offsets| == |drifts| && offsets != [] && InRange(drifts, duration) ==> m.disagreement < 1000
    {
      if |offsets| == |drifts| && offsets != [] && InRange(drifts, duration) {
        BoundaryInBudget(offsets, drifts, prev, duration);
        FiftyRounds();
      }
      m := FindFixedPoint(Forward(offsets, drifts, prev, duration), Backward(offsets, prev, duration), 50);
      mirrors := mirrors + [m];
    }
  }
}
