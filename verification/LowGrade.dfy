/**
 * Complete bipartite graphs on which the truncated step overshoots: the qualities of the descent and of the rest are
 * exact.
 */
module LowGrade {
  import opened Basics
  import opened Twist
  import opened Solver
  import opened Settling

  /** A grid of n left and n right nodes, every pair measured: defect big between partners, -small between others. */
  datatype Shape = Shape(n: nat, big: int, small: int, q: nat) {
    /** The defect of left node i and right node j, both sides zero. */
    function At(i: nat, j: nat): int {
      if i == j then big else -small
    }
  }

  function Link(g: Shape, i: nat, j: nat): (e: Entry)
    ensures e.lo == i && e.hi == g.n + j && e.twists != []
    ensures Last(e).quality == g.q && Last(e).offset == -g.At(i, j)
  {
    Entry(i, g.n + j, [TwistIndex(0, -g.At(i, j), 0, g.q, 0)])
  }

  /** The first i rows of the grid and j links of the next. */
  ghost function Grid(g: Shape, i: nat, j: nat): seq<Entry>
    decreases i, j
  {
    if j > 0 then Grid(g, i, j - 1) + [Link(g, i, j - 1)]
    else if i > 0 then Grid(g, i - 1, g.n)
    else []
  }

  /** Left nodes at a, right nodes at -a. */
  function Level(n: nat, a: int): (x: Offsets)
    ensures forall k :: k in x <==> 0 <= k < 2 * n
    ensures forall k :: k in x ==> x[k] == if k < n then a else -a
  {
    var nodes := Below(2 * n);
    map k | k in nodes :: if k < n then a else -a
  }

  function Below(m: nat): (s: set<int>)
    ensures forall k :: k in s <==> 0 <= k < m
  {
    if m == 0 then {} else Below(m - 1) + {m - 1}
  }

  // ----- The grid is a table -----

  ghost predicate Before(g: Shape, e: Entry, i: nat, j: nat) {
    e.lo < g.n <= e.hi < 2 * g.n && (e.lo < i || (e.lo == i && e.hi < g.n + j))
  }

  ghost predicate Tabled(g: Shape, es: seq<Entry>, i: nat, j: nat) {
    Table(es) && forall k :: 0 <= k < |es| ==>
      Before(g, es[k], i, j) && es[k].twists != [] && Last(es[k]).quality == g.q
  }

  lemma {:induction false} GridTabled(g: Shape, i: nat, j: nat)
    requires (i < g.n && j <= g.n) || (i == g.n && j == 0)
    ensures Tabled(g, Grid(g, i, j), i, j)
    decreases i, j
  {
    if j > 0 {
      GridTabled(g, i, j - 1);
    } else if i > 0 {
      GridTabled(g, i - 1, g.n);
    }
  }

  // ----- Sums over one more edge -----

  lemma {:induction false} PullPrefix(es: seq<Entry>, e: Entry, t: nat, x: Offsets, i: NodeId)
    requires t <= |es|
    ensures Pull(es + [e], t, x, i) == Pull(es, t, x, i) && Load(es + [e], t, x, i) == Load(es, t, x, i)
  {
    if t > 0 { PullPrefix(es, e, t - 1, x, i); }
  }

  lemma {:induction false} EnergyPrefix(es: seq<Entry>, e: Entry, t: nat, x: Offsets)
    requires t <= |es|
    ensures Energy(es + [e], t, x) == Energy(es, t, x)
  {
    if t > 0 { EnergyPrefix(es, e, t - 1, x); }
  }

  // ----- Node sums -----

  /** k terms, the one at index u among them b and the others s. */
  function Terms(k: nat, u: nat, b: int, s: int): int {
    if u < k then b + (k - 1) * s else k * s
  }

  lemma PullAppend(es: seq<Entry>, e: Entry, x: Offsets, i: NodeId)
    ensures Pull(es + [e], |es| + 1, x, i)
         == Pull(es, |es|, x, i) + if Touches(e, x, i) then Share(ErrorAt(e, x, i), Last(e).quality) else 0
    ensures Load(es + [e], |es| + 1, x, i) == Load(es, |es|, x, i) + if Touches(e, x, i) then Last(e).quality else 0
  {
    PullPrefix(es, e, |es|, x, i);
    assert (es + [e])[|es|] == e;
  }

  /** How many links of node u are among the first i rows and j more. */
  function Done(g: Shape, u: nat, i: nat, j: nat): nat {
    if u < g.n then (if u < i then g.n else if u == i then j else 0)
    else (if u - g.n < j then i + 1 else i)
  }

  function Place(g: Shape, u: nat): nat {
    if u < g.n then u else u - g.n
  }

  function Side(g: Shape, u: nat, v: int): int {
    if u < g.n then v else -v
  }

  lemma TermsStep(k: nat, u: nat, b: int, s: int)
    ensures Terms(k + 1, u, b, s) == Terms(k, u, b, s) + if u == k then b else s
  {
    assert (k + 1) * s == k * s + s;
    assert k > 0 ==> k * s == (k - 1) * s + s;
  }

  /** The pull of the grid so far on node u. */
  ghost predicate Pulls(g: Shape, es: seq<Entry>, x: Offsets, u: nat, i: nat, j: nat, b: int, s: int) {
    && Pull(es, |es|, x, u) == Side(g, u, Terms(Done(g, u, i, j), Place(g, u), b, s))
    && Load(es, |es|, x, u) == Done(g, u, i, j) * g.q
  }

  /** What a link gives its two ends, and no one else. */
  lemma LinkShare(g: Shape, a: int, i: nat, j: nat, u: nat, v: int)
    requires i < g.n && j < g.n && v == Share(g.At(i, j) - 2 * a, g.q)
    ensures var e, x := Link(g, i, j), Level(g.n, a);
            && (Touches(e, x, u) <==> u == i || u == g.n + j)
            && (Touches(e, x, u) ==> Share(ErrorAt(e, x, u), g.q) == Side(g, u, v))
  {
    var e, x := Link(g, i, j), Level(g.n, a);
    assert Defect(e, x) == g.At(i, j) - 2 * a;
    if u == i || u == g.n + j {
      ErrorIsDefect(e, x, u);
      ShareOdd(g.At(i, j) - 2 * a, g.q);
    }
  }

  /** One more link adds its share to its two ends. */
  lemma LinkPulls(g: Shape, es: seq<Entry>, a: int, u: nat, i: nat, j: nat, b: int, s: int)
    requires i < g.n && j < g.n && u < 2 * g.n && Pulls(g, es, Level(g.n, a), u, i, j, b, s)
    requires b == Share(g.big - 2 * a, g.q) && s == Share(-g.small - 2 * a, g.q)
    ensures Pulls(g, es + [Link(g, i, j)], Level(g.n, a), u, i, j + 1, b, s)
  {
    var v := if i == j then b else s;
    LinkShare(g, a, i, j, u, v);
    PullAppend(es, Link(g, i, j), Level(g.n, a), u);
    DoneStep(g, u, i, j, b, s, v);
  }

  lemma DoneStep(g: Shape, u: nat, i: nat, j: nat, b: int, s: int, v: int)
    requires i < g.n && j < g.n && u < 2 * g.n && v == if i == j then b else s
    ensures var k, k', p := Done(g, u, i, j), Done(g, u, i, j + 1), Place(g, u);
            if u == i || u == g.n + j then Terms(k', p, b, s) == Terms(k, p, b, s) + v && k' * g.q == k * g.q + g.q
            else k' == k
  {
    var k := Done(g, u, i, j);
    TermsStep(k, Place(g, u), b, s);
    assert (k + 1) * g.q == k * g.q + g.q;
  }

  lemma {:induction false} GridPulls(g: Shape, a: int, u: nat, i: nat, j: nat, b: int, s: int)
    requires ((i < g.n && j <= g.n) || (i == g.n && j == 0)) && u < 2 * g.n
    requires b == Share(g.big - 2 * a, g.q) && s == Share(-g.small - 2 * a, g.q)
    ensures Pulls(g, Grid(g, i, j), Level(g.n, a), u, i, j, b, s)
    decreases i, j
  {
    if j > 0 {
      GridPulls(g, a, u, i, j - 1, b, s);
      LinkPulls(g, Grid(g, i, j - 1), a, u, i, j - 1, b, s);
    } else if i > 0 {
      GridPulls(g, a, u, i - 1, g.n, b, s);
      RowDone(g, u, i - 1);
    } else {
      assert 0 * s == 0 && 0 * g.q == 0;
    }
  }

  lemma RowDone(g: Shape, u: nat, i: nat)
    requires i < g.n && u < 2 * g.n
    ensures Done(g, u, i, g.n) == Done(g, u, i + 1, 0)
  {
  }

  // ----- One step -----

  /** The common pull on the left nodes at level a. */
  function Tension(g: Shape, a: int): int
    requires g.n > 0
  {
    Share(g.big - 2 * a, g.q) + (g.n - 1) * Share(-g.small - 2 * a, g.q)
  }

  /** How far the left nodes move from level a; the right ones move as far the other way. */
  function Drift(g: Shape, a: int): int
    requires g.n > 0 && g.q > 0
  {
    TimesPositive(g.n, g.q);
    TDiv(30 * Tension(g, a), g.n * g.q)
  }

  lemma TimesPositive(a: nat, b: nat)
    requires a > 0 && b > 0
    ensures a * b > 0
  {
  }

  lemma NodeDrifts(g: Shape, a: int, u: nat)
    requires g.n > 0 && g.q > 0 && u < 2 * g.n
    ensures Correction(Grid(g, g.n, 0), Level(g.n, a), u) == Side(g, u, Drift(g, a))
  {
    GridPulls(g, a, u, g.n, 0, Share(g.big - 2 * a, g.q), Share(-g.small - 2 * a, g.q));
    TimesPositive(g.n, g.q);
    TDivOdd(30 * Tension(g, a), g.n * g.q);
  }

  lemma TDivOdd(p: int, w: nat)
    requires w > 0
    ensures TDiv(-p, w) == -TDiv(p, w)
  {
  }

  lemma GridStep(g: Shape, a: int)
    requires g.n > 0 && g.q > 0
    ensures Stepped(Grid(g, g.n, 0), Level(g.n, a)) == Level(g.n, a + Drift(g, a))
  {
    var es, x, y := Grid(g, g.n, 0), Level(g.n, a), Level(g.n, a + Drift(g, a));
    forall u | u in x ensures Stepped(es, x)[u] == y[u] {
      NodeDrifts(g, a, u);
    }
  }

  // ----- Energy -----

  /** q times: so many squares of the big defect, and so many of the small. */
  ghost function Weighed(g: Shape, bigs: int, smalls: int, a: int): int {
    g.q * (bigs * Square(g.big - 2 * a) + smalls * Square(-g.small - 2 * a))
  }

  function Square(d: int): int {
    d * d
  }

  /** Partners linked so far. */
  function Partners(i: nat, j: nat): nat {
    if i < j then i + 1 else i
  }

  ghost predicate Stores(g: Shape, es: seq<Entry>, a: int, i: nat, j: nat) {
    Energy(es, |es|, Level(g.n, a)) == Weighed(g, Partners(i, j), i * g.n + j - Partners(i, j), a)
  }

  lemma LinkStores(g: Shape, es: seq<Entry>, a: int, i: nat, j: nat)
    requires i < g.n && j < g.n && Stores(g, es, a, i, j)
    ensures Stores(g, es + [Link(g, i, j)], a, i, j + 1)
  {
    var e, x := Link(g, i, j), Level(g.n, a);
    EnergyPrefix(es, e, |es|, x);
    assert (es + [e])[|es|] == e && Defect(e, x) == g.At(i, j) - 2 * a;
    var k := Partners(i, j);
    WeighedStep(g.q, k, i * g.n + j - k, Square(g.big - 2 * a), Square(-g.small - 2 * a));
  }

  lemma WeighedStep(q: int, k: int, l: int, b: int, s: int)
    ensures q * ((k + 1) * b + l * s) == q * (k * b + l * s) + q * b
    ensures q * (k * b + (l + 1) * s) == q * (k * b + l * s) + q * s
  {
    assert (k + 1) * b == k * b + b && (l + 1) * s == l * s + s;
    assert q * ((k * b + l * s) + b) == q * (k * b + l * s) + q * b;
    assert q * ((k * b + l * s) + s) == q * (k * b + l * s) + q * s;
  }

  lemma {:induction false} GridStores(g: Shape, a: int, i: nat, j: nat)
    requires (i < g.n && j <= g.n) || (i == g.n && j == 0)
    ensures Stores(g, Grid(g, i, j), a, i, j)
    decreases i, j
  {
    if j > 0 {
      GridStores(g, a, i, j - 1);
      LinkStores(g, Grid(g, i, j - 1), a, i, j - 1);
    } else if i > 0 {
      GridStores(g, a, i - 1, g.n);
      assert (i - 1) * g.n + g.n == i * g.n;
    } else {
      assert 0 * g.n == 0 && g.q * (0 * Square(g.big - 2 * a) + 0 * Square(-g.small - 2 * a)) == 0;
    }
  }

  /** Moving past what the defects of a node sum to raises the energy. */
  lemma GridRises(g: Shape, c: int)
    requires g.n > 0 && g.q > 0 && c > 0 && g.big - (g.n - 1) * g.small < g.n * c
    ensures Energy(Grid(g, g.n, 0), |Grid(g, g.n, 0)|, Level(g.n, c))
          > Energy(Grid(g, g.n, 0), |Grid(g, g.n, 0)|, Level(g.n, 0))
  {
    GridStores(g, 0, g.n, 0);
    GridStores(g, c, g.n, 0);
    var l := g.n * g.n - g.n;
    assert l == g.n * (g.n - 1);
    SquaresRise(g.n, l, g.big, g.small, c);
    StrictTimes(g.q, g.n * Square(g.big) + l * Square(-g.small),
                g.n * Square(g.big - 2 * c) + l * Square(-g.small - 2 * c));
  }

  lemma SquaresRise(n: nat, l: int, big: int, small: int, c: int)
    requires n > 0 && l == n * (n - 1) && c > 0 && big - (n - 1) * small < n * c
    ensures n * Square(big - 2 * c) + l * Square(-small - 2 * c) > n * Square(big) + l * Square(-small)
  {
    var rest := (n - 1) * small;
    var gain := n * c - (big - rest);
    var u, v := 4 * (c * c) - 4 * (c * big), 4 * (c * c) + 4 * (c * small);
    SquareMoves(big, c);
    SquareMoves(-small, c);
    PerNode(n, big, small, c, rest, gain);
    GainIsPositive(n, l, u, v, c, gain);
    Differences(n, l, Square(big), Square(big - 2 * c), Square(-small), Square(-small - 2 * c));
  }

  lemma SquareMoves(d: int, c: int)
    ensures Square(d - 2 * c) - Square(d) == 4 * (c * c) - 4 * (c * d)
  {
  }

  lemma GainIsPositive(n: nat, l: int, u: int, v: int, c: nat, gain: nat)
    requires n > 0 && l == n * (n - 1) && c > 0 && gain > 0 && u + (n - 1) * v == 4 * (c * gain)
    ensures n * u + l * v > 0
  {
    Spread(n, n - 1, u, v);
    TimesPositive(c, gain);
    TimesPositive(n, 4 * (c * gain));
  }

  lemma PerNode(n: int, big: int, small: int, c: int, rest: int, gain: int)
    requires rest == (n - 1) * small && gain == n * c - (big - rest)
    ensures (4 * (c * c) - 4 * (c * big)) + (n - 1) * (4 * (c * c) + 4 * (c * small)) == 4 * (c * gain)
  {
    assert (n - 1) * (c * c) == n * (c * c) - c * c;
    assert (n - 1) * (c * small) == c * rest;
    assert c * gain == n * (c * c) - c * big + c * rest;
    assert (n - 1) * (4 * (c * c) + 4 * (c * small)) == 4 * ((n - 1) * (c * c)) + 4 * ((n - 1) * (c * small));
  }

  lemma Spread(n: int, m: int, u: int, v: int)
    ensures n * (u + m * v) == n * u + (n * m) * v
  {
    assert n * (m * v) == (n * m) * v;
  }

  lemma Differences(n: int, l: int, b: int, b': int, s: int, s': int)
    ensures (n * b' + l * s') - (n * b + l * s) == n * (b' - b) + l * (s' - s)
  {
  }

  lemma StrictTimes(q: nat, a: int, b: int)
    requires q > 0 && a < b
    ensures q * a < q * b
  {
  }

  // ----- The descent -----

  ghost predicate Uniform(es: seq<Entry>, x: Offsets, q: nat) {
    forall k :: 0 <= k < |es| && Active(es[k], x) ==> Last(es[k]).quality == q
  }

  ghost predicate Instance(es: seq<Entry>, x: Offsets, q: nat) {
    Table(es) && Loopless(es) && Uniform(es, x, q)
  }

  /** On every table whose edges all have quality q, no step raises the energy. */
  ghost predicate Descends(q: nat) {
    forall es: seq<Entry>, x: Offsets :: Instance(es, x, q) ==> Energy(es, |es|, Stepped(es, x)) <= Energy(es, |es|, x)
  }

  lemma GridInstance(g: Shape, a: int)
    ensures Instance(Grid(g, g.n, 0), Level(g.n, a), g.q)
  {
    if g.n > 0 { GridTabled(g, g.n, 0); } else { assert Grid(g, 0, 0) == []; }
  }

  /** Grids for every quality that is not high grade. */
  function Witness(q: nat): Shape {
    if q <= 26 then Shape(8, 700, 99, q)
    else if q <= 33 then Shape(14, 52, 3, q)
    else if q <= 35 then Shape(11, 980, 97, q)
    else if q == 36 then Shape(14, 156, 11, q)
    else if q == 37 then Shape(15, 392, 27, q)
    else if q == 38 then Shape(38, 814, 21, q)
    else if q == 39 then Shape(38, 1554, 41, q)
    else Shape(46, 1800, 39, q)
  }

  /** The nodes move, and past what their defects sum to. */
  ghost predicate Overshoots(g: Shape) {
    g.n > 0 && g.q > 0 && Drift(g, 0) > 0 && g.big - (g.n - 1) * g.small < g.n * Drift(g, 0)
  }

  lemma OvershootsIf(g: Shape, p: int)
    requires g.n > 0 && g.q > 0 && p == Tension(g, 0) && 30 * p >= g.n * g.q && g.big - (g.n - 1) * g.small < g.n
    ensures Overshoots(g)
  {
    TimesPositive(g.n, g.q);
    var c := Drift(g, 0);
    QuotientAtLeastOne(30 * p, g.n * g.q);
    TimesMono(g.n, 1, c);
  }

  lemma QuotientAtLeastOne(n: int, w: int)
    requires n >= w > 0
    ensures TDiv(n, w) >= 1
  {
  }

  lemma EightOvershoot(q: nat)
    requires 1 <= q <= 26
    ensures Overshoots(Witness(q))
  {
    assert Share(700, q) == 7 * q && Share(-99, q) == -(q - 1);
    OvershootsIf(Witness(q), 7);
  }

  lemma FourteenOvershoot(q: nat)
    requires 27 <= q <= 33
    ensures Overshoots(Witness(q))
  {
    assert Share(-3, q) == 0;
    var p := Share(52, q);
    assert 30 * p > 14 * q by { assert p == 52 * q / 100; }
    OvershootsIf(Witness(q), p);
  }

  lemma LargerOvershoot(q: nat)
    requires 34 <= q <= 41 && q != 40
    ensures Overshoots(Witness(q))
  {
    var g := Witness(q);
    var b, s := Share(g.big, q), Share(-g.small, q);
    if q == 34 {
      assert b == 333 && s == -32;
    } else if q == 35 {
      assert b == 343 && s == -33;
    } else if q == 36 {
      assert b == 56 && s == -3;
    } else if q == 37 {
      assert b == 145 && s == -9;
    } else if q == 38 {
      assert b == 309 && s == -7;
    } else if q == 39 {
      assert b == 606 && s == -15;
    } else {
      assert b == 738 && s == -15;
    }
    OvershootsIf(g, b + (g.n - 1) * s);
  }

  /** Below the grade, the witness's first step raises the energy. */
  lemma WitnessRises(q: nat)
    requires !HighGrade(q)
    ensures var es, x := Grid(Witness(q), Witness(q).n, 0), Level(Witness(q).n, 0);
            Instance(es, x, q) && Energy(es, |es|, Stepped(es, x)) > Energy(es, |es|, x)
  {
    if q <= 26 {
      EightOvershoot(q);
    } else if q <= 33 {
      FourteenOvershoot(q);
    } else {
      LargerOvershoot(q);
    }
    OvershootRises(Witness(q));
  }

  lemma OvershootRises(g: Shape)
    requires Overshoots(g)
    ensures var es, x := Grid(g, g.n, 0), Level(g.n, 0);
            Instance(es, x, g.q) && Energy(es, |es|, Stepped(es, x)) > Energy(es, |es|, x)
  {
    GridInstance(g, 0);
    GridStep(g, 0);
    GridRises(g, Drift(g, 0));
  }

  /** The truncated step descends on every table of quality q exactly when q is high grade. */
  lemma GradeIsExact(q: nat)
    ensures HighGrade(q) <==> Descends(q)
  {
    if HighGrade(q) {
      forall es: seq<Entry>, x: Offsets | Instance(es, x, q)
        ensures Energy(es, |es|, Stepped(es, x)) <= Energy(es, |es|, x)
      {
        StepDescends(es, x);
      }
    } else {
      WitnessRises(q);
    }
  }

  // ----- The rest -----

  /** On every table whose edges all have quality q, every run comes to rest. */
  ghost predicate Settles(q: nat) {
    forall es: seq<Entry>, x: Offsets :: Instance(es, x, q) ==> exists k: nat :: SettlesAt(es, x, k)
  }

  function Rocking(q: nat): Shape {
    Shape(2, 400, 399, q)
  }

  lemma Rocks(q: nat, c: int)
    requires 1 <= q <= 15 && c == TDiv(30, 2 * q)
    ensures c > 0 && Drift(Rocking(q), 0) == c && Drift(Rocking(q), c) == -c
  {
    assert Share(400, q) == 4 * q && Share(-399, q) == -(4 * q - 1);
    assert Tension(Rocking(q), 0) == 1;
    RockingBack(q, c);
    assert Tension(Rocking(q), c) == -1;
    TDivOdd(30, 2 * q);
  }

  lemma RockingBack(q: nat, c: int)
    requires 1 <= q <= 15 && c == TDiv(30, 2 * q)
    ensures c > 0 && Share(400 - 2 * c, q) == 4 * q - 1 && Share(-399 - 2 * c, q) == -(4 * q)
  {
    var w := 2 * (q * c);
    assert q <= w <= 30;
    assert (400 - 2 * c) * q == 400 * q - w && (399 + 2 * c) * q == 399 * q + w;
    assert (-399 - 2 * c) * q == -((399 + 2 * c) * q);
  }

  /** A run between two states that step into each other. */
  lemma {:induction false} RockingRun(es: seq<Entry>, x: Offsets, y: Offsets, k: nat)
    requires Stepped(es, x) == y && Stepped(es, y) == x && x != y
    ensures (Run(es, x, k) == x && Run(es, x, k + 1) == y) || (Run(es, x, k) == y && Run(es, x, k + 1) == x)
  {
    if k > 0 { RockingRun(es, x, y, k - 1); }
  }

  /** The grid of two and two rocks between levels 0 and c for ever: no step of its run leaves the state as it was. */
  lemma NeverRests(q: nat, k: nat)
    requires !Calm(q)
    ensures var es, x := Grid(Rocking(q), 2, 0), Level(2, 0); Instance(es, x, q) && Run(es, x, k + 1) != Run(es, x, k)
  {
    var g, c := Rocking(q), TDiv(30, 2 * q);
    var es, x, y := Grid(g, 2, 0), Level(2, 0), Level(2, c);
    GridInstance(g, 0);
    Rocks(q, c);
    LevelsRock(g, c);
    RockingRun(es, x, y, k);
  }

  lemma LevelsRock(g: Shape, c: int)
    requires g.n > 0 && g.q > 0 && c > 0 && Drift(g, 0) == c && Drift(g, c) == -c
    ensures var es, x, y := Grid(g, g.n, 0), Level(g.n, 0), Level(g.n, c);
            Stepped(es, x) == y && Stepped(es, y) == x && x != y
  {
    GridStep(g, 0);
    GridStep(g, c);
    assert Level(g.n, 0)[0] == 0 && Level(g.n, c)[0] == c;
  }

  /** Every run over every table of quality q comes to rest exactly when q is 0 or at least 16. */
  lemma CalmIsExact(q: nat)
    ensures Calm(q) <==> Settles(q)
  {
    if Calm(q) {
      forall es: seq<Entry>, x: Offsets | Instance(es, x, q) ensures exists k: nat :: SettlesAt(es, x, k) {
        var k := RunSettles(es, x);
      }
    } else {
      var es, x := Grid(Rocking(q), 2, 0), Level(2, 0);
      NeverRests(q, 0);
      forall k: nat ensures !SettlesAt(es, x, k) {
        NeverRests(q, k);
      }
    }
  }
}
