/** The two-state clock filter: offset and drift, over exact reals. */
module Kalman {
  import V = Vectors

  /** Offset and drift, their symmetric covariance, and the process noises. */
  datatype Filter = Filter(x0: real, x1: real, p00: real, p01: real, p11: real, qOffset: real, qDrift: real)

  const TINY := 0.000000000000000000000000000001

  /** The covariance is positive semidefinite. */
  ghost predicate Semidefinite(f: Filter) {
    Form(f.p00, f.p01, f.p11)
  }

  /** The quadratic form with matrix [[a, b], [b, c]] is never negative. */
  ghost predicate Form(a: real, b: real, c: real) {
    a >= 0.0 && c >= 0.0 && b * b <= a * c
  }

  ghost predicate Noisy(f: Filter) {
    f.qOffset >= 0.0 && f.qDrift >= 0.0
  }

  /** The offset's variance carried dt ahead, before process noise. */
  function Carried(f: Filter, dt: real): real {
    f.p00 + 2.0 * dt * f.p01 + dt * dt * f.p11
  }

  function Predicted(f: Filter, dt: real): Filter {
    f.(x0 := f.x0 + f.x1 * dt,
       p00 := Carried(f, dt) + f.qOffset * dt,
       p01 := f.p01 + dt * f.p11,
       p11 := f.p11 + f.qDrift * dt)
  }

  /** The prediction in numbers. */
  lemma PredictedIs(x0: real, x1: real, a: real, b: real, c: real, q0: real, q1: real, dt: real)
    ensures Predicted(Filter(x0, x1, a, b, c, q0, q1), dt)
         == Filter(x0 + x1 * dt, x1, a + 2.0 * dt * b + dt * dt * c + q0 * dt, b + dt * c, c + q1 * dt, q0, q1)
  {
    var f := Filter(x0, x1, a, b, c, q0, q1);
    var g := Predicted(f, dt);
    assert g.x0 == x0 + x1 * dt;
    assert g.p01 == b + dt * c;
    assert g.p11 == c + q1 * dt;
    assert Carried(f, dt) == a + 2.0 * dt * b + dt * dt * c;
    assert g.p00 == Carried(f, dt) + q0 * dt;
  }

  function Updated(f: Filter, z: real, r: real): Filter {
    var s := f.p00 + r;
    if -TINY < s < TINY then f else
      Corrected(f, f.p00 / s, f.p01 / s, z - f.x0)
  }

  /** The filter moved by an innovation with gains k0 and k1. */
  function Corrected(f: Filter, k0: real, k1: real, innovation: real): Filter {
    f.(x0 := f.x0 + k0 * innovation, x1 := f.x1 + k1 * innovation,
       p00 := (1.0 - k0) * f.p00, p01 := (1.0 - k0) * f.p01, p11 := f.p11 - k1 * f.p01)
  }

  function Stepped(f: Filter, dt: real, z: real, r: real): Filter {
    Updated(Predicted(f, dt), z, r)
  }

  class ClockKalman {
    var x0: real
    var x1: real
    var p00: real
    var p01: real
    var p11: real
    const qOffset: real
    const qDrift: real

    function State(): Filter
      reads this
    {
      Filter(x0, x1, p00, p01, p11, qOffset, qDrift)
    }

    constructor (f: Filter)
      ensures State() == f
    {
      x0, x1, p00, p01, p11 := f.x0, f.x1, f.p00, f.p01, f.p11;
      qOffset, qDrift := f.qOffset, f.qDrift;
    }

    method Predict(dt: real)
      modifies this
      ensures State() == Predicted(old(State()), dt)
    {
      x0 := x0 + x1 * dt;
      var a := p00 + 2.0 * dt * p01 + dt * dt * p11 + qOffset * dt;
      var b := p01 + dt * p11;
      var c := p11 + qDrift * dt;
      p00, p01, p11 := a, b, c;
    }

    method Update(z: real, r: real)
      modifies this
      ensures State() == Updated(old(State()), z, r)
    {
      var innovation := z - x0;
      var s := p00 + r;
      if !(-TINY < s < TINY) { Correct(p00 / s, p01 / s, innovation); }
    }

    method Correct(k0: real, k1: real, innovation: real)
      modifies this
      ensures State() == Corrected(old(State()), k0, k1, innovation)
    {
      x0 := x0 + k0 * innovation;
      x1 := x1 + k1 * innovation;
      var a, b, c := (1.0 - k0) * p00, (1.0 - k0) * p01, p11 - k1 * p01;
      p00, p01, p11 := a, b, c;
    }

    method Step(dt: real, z: real, r: real)
      modifies this
      ensures State() == Stepped(old(State()), dt, z, r)
    {
      Predict(dt);
      Update(z, r);
    }
  }

  // ----- Semidefiniteness -----

  /** A semidefinite covariance never carries a negative variance ahead: its clamp to zero never acts. */
  lemma CarriedNonNegative(f: Filter, dt: real)
    requires Semidefinite(f)
    ensures Carried(f, dt) >= 0.0
  {
    var a, b, c := f.p00, f.p01, f.p11;
    var v := Carried(f, dt);
    if c == 0.0 {
      ZeroSquare(b);
      assert v == a;
    } else {
      var u := b + dt * c;
      assert c * v == (a * c - b * b) + u * u;
      assert u * u >= 0.0;
      if v < 0.0 { NegativeProduct(c, v); }
    }
  }

  lemma ZeroSquare(b: real)
    requires b * b <= 0.0
    ensures b == 0.0
  {
    var e := V.SquareGap(b);
  }

  lemma NegativeProduct(c: real, v: real)
    requires c > 0.0 && v < 0.0
    ensures c * v < 0.0
  {
  }

  lemma ProductMonotone(a: real, b: real, a': real, b': real)
    requires 0.0 <= a <= a' && 0.0 <= b <= b'
    ensures a * b <= a' * b'
  {
    assert a * b <= a' * b;
    assert a' * b <= a' * b';
  }

  lemma PredictKeeps(f: Filter, dt: real)
    requires Semidefinite(f) && Noisy(f) && dt >= 0.0
    ensures Semidefinite(Predicted(f, dt)) && Noisy(Predicted(f, dt))
  {
    CarriedNonNegative(f, dt);
    V.MulMonotone(f.qOffset, 0.0, dt);
    V.MulMonotone(f.qDrift, 0.0, dt);
    PredictedKeeps(f.p00, f.p01, f.p11, dt, Carried(f, dt), f.p01 + dt * f.p11, f.qOffset * dt, f.qDrift * dt);
  }

  lemma PredictedKeeps(a: real, b: real, c: real, dt: real, v: real, b': real, m: real, n: real)
    requires b * b <= a * c && c >= 0.0 && v >= 0.0 && m >= 0.0 && n >= 0.0
    requires v == a + 2.0 * dt * b + dt * dt * c && b' == b + dt * c
    ensures Form(v + m, b', c + n)
  {
    CarriedDeterminant(a, b, c, dt, v, b');
    ProductMonotone(v, c, v + m, c + n);
  }

  lemma CarriedDeterminant(a: real, b: real, c: real, dt: real, v: real, b': real)
    requires v == a + 2.0 * dt * b + dt * dt * c && b' == b + dt * c
    ensures v * c - b' * b' == a * c - b * b
  {
    var u := dt * c;
    assert v * c == a * c + 2.0 * (b * u) + u * u;
    assert b' * b' == b * b + 2.0 * (b * u) + u * u;
  }

  // ----- The update, multiplied out -----

  /** p' is p scaled by r / s. */
  ghost predicate RowScaled(p: real, p': real, r: real, s: real) {
    p' * s == p * r
  }

  /** c' is c less b^2 / s. */
  ghost predicate CornerScaled(c: real, c': real, b: real, s: real) {
    (c - c') * s == b * b
  }

  /** x' is x moved by q / s of the innovation y. */
  ghost predicate StateScaled(x: real, x': real, q: real, y: real, s: real) {
    (x' - x) * s == q * y
  }

  ghost predicate CovarianceScaled(a: real, b: real, c: real, a': real, b': real, c': real, r: real, s: real) {
    RowScaled(a, a', r, s) && RowScaled(b, b', r, s) && CornerScaled(c, c', b, s)
  }

  /** g is f after a measurement z of variance r, every entry multiplied by s. */
  ghost predicate Scaled(f: Filter, g: Filter, z: real, r: real, s: real) {
    && CovarianceScaled(f.p00, f.p01, f.p11, g.p00, g.p01, g.p11, r, s)
    && StateScaled(f.x0, g.x0, f.p00, z - f.x0, s) && StateScaled(f.x1, g.x1, f.p01, z - f.x0, s)
    && g.qOffset == f.qOffset && g.qDrift == f.qDrift
  }

  /** The innovation variance is past the guard. */
  predicate Past(s: real) {
    s >= TINY || s <= -TINY
  }

  /**
   * With s = p00 + r past the guard the update scales the covariance's first row by r / s and takes p01^2 / s off p11.
   */
  lemma UpdateScales(f: Filter, z: real, r: real, s: real)
    requires s == f.p00 + r && Past(s)
    ensures Scaled(f, Updated(f, z, r), z, r, s)
  {
    var k0, k1 := f.p00 / s, f.p01 / s;
    assert k0 * s == f.p00 && k1 * s == f.p01;
    GainsScale(f, z, r, s, k0, k1);
  }

  lemma GainsScale(f: Filter, z: real, r: real, s: real, k0: real, k1: real)
    requires s == f.p00 + r && k0 * s == f.p00 && k1 * s == f.p01
    ensures Scaled(f, Corrected(f, k0, k1, z - f.x0), z, r, s)
  {
    ScaleCovariance(f.p00, f.p01, f.p11, r, s, k0, k1);
    ScaleState(f.x0, k0, z - f.x0, s, f.p00);
    ScaleState(f.x1, k1, z - f.x0, s, f.p01);
  }

  lemma ScaleCovariance(a: real, b: real, c: real, r: real, s: real, k0: real, k1: real)
    requires s == a + r && k0 * s == a && k1 * s == b
    ensures CovarianceScaled(a, b, c, (1.0 - k0) * a, (1.0 - k0) * b, c - k1 * b, r, s)
  {
    ScaleRow(k0, s, r, a, a);
    ScaleRow(k0, s, r, a, b);
    ScaleCorner(c, k1, s, b);
  }

  lemma ScaleRow(k: real, s: real, r: real, p: real, q: real)
    requires k * s == p && s == p + r
    ensures RowScaled(q, (1.0 - k) * q, r, s)
  {
    assert ((1.0 - k) * q) * s == q * s - (k * s) * q;
  }

  lemma ScaleCorner(c: real, k: real, s: real, b: real)
    requires k * s == b
    ensures CornerScaled(c, c - k * b, b, s)
  {
    Reassociate(k, b, s, b);
  }

  lemma ScaleState(x: real, k: real, y: real, s: real, q: real)
    requires k * s == q
    ensures StateScaled(x, x + k * y, q, y, s)
  {
    Reassociate(k, y, s, q);
  }

  lemma Reassociate(k: real, y: real, s: real, p: real)
    requires k * s == p
    ensures (k * y) * s == p * y
  {
  }

  lemma CancelOrder(x: real, y: real, s: real)
    requires s > 0.0 && x * s <= y * s
    ensures x <= y
  {
  }

  lemma CancelEqual(x: real, y: real, s: real)
    requires s != 0.0 && x * s == y * s
    ensures x == y
  {
  }

  /** An update keeps the covariance semidefinite and never increases either variance. */
  lemma UpdateKeeps(f: Filter, z: real, r: real)
    requires Semidefinite(f) && r >= 0.0
    ensures var g := Updated(f, z, r); Semidefinite(g) && g.p00 <= f.p00 && g.p11 <= f.p11
  {
    var g, s := Updated(f, z, r), f.p00 + r;
    if s >= TINY {
      UpdateScales(f, z, r, s);
      ScaledKeeps(f.p00, f.p01, f.p11, g.p00, g.p01, g.p11, r, s);
    }
  }

  lemma ScaledKeeps(a: real, b: real, c: real, a': real, b': real, c': real, r: real, s: real)
    requires Form(a, b, c) && r >= 0.0 && s == a + r && s > 0.0
    requires RowScaled(a, a', r, s) && RowScaled(b, b', r, s) && CornerScaled(c, c', b, s)
    ensures a' <= a && c' <= c && Form(a', b', c')
  {
    RowShrinks(a, a', r, s);
    CornerShrinks(a, b, c, c', r, s);
    ScaledDeterminant(a, b, c, a', b', c', r, s);
  }

  lemma RowShrinks(a: real, a': real, r: real, s: real)
    requires a >= 0.0 && r >= 0.0 && s == a + r && s > 0.0 && RowScaled(a, a', r, s)
    ensures 0.0 <= a' <= a
  {
    V.MulMonotone(a, 0.0, r);
    V.MulMonotone(a, r, s);
    CancelOrder(0.0, a', s);
    CancelOrder(a', a, s);
  }

  lemma CornerShrinks(a: real, b: real, c: real, c': real, r: real, s: real)
    requires Form(a, b, c) && r >= 0.0 && s == a + r && s > 0.0 && CornerScaled(c, c', b, s)
    ensures 0.0 <= c' <= c
  {
    var bb := b * b;
    var e := V.SquareGap(b);
    V.MulMonotone(c, 0.0, r);
    CornerProduct(a, bb, c, c', r, s);
    CancelOrder(c', c, s);
    CancelOrder(0.0, c', s);
  }

  lemma CornerProduct(a: real, bb: real, c: real, c': real, r: real, s: real)
    requires s == a + r && (c - c') * s == bb && 0.0 <= bb <= a * c && c * r >= 0.0
    ensures c' * s == c * s - bb && c' * s <= c * s && c' * s >= 0.0
  {
    assert c * s == a * c + c * r;
  }

  lemma ScaledDeterminant(a: real, b: real, c: real, a': real, b': real, c': real, r: real, s: real)
    requires b * b <= a * c && r >= 0.0 && s == a + r && s > 0.0
    requires RowScaled(a, a', r, s) && RowScaled(b, b', r, s) && CornerScaled(c, c', b, s)
    ensures b' * b' <= a' * c'
  {
    var u, v, w := a' * s, b' * s, c' * s;
    assert w == c * s - b * b;
    ScaledProducts(a, b, c, u, v, w, r, s);
    Regroup(a', c', s, u, w);
    Regroup(b', b', s, v, v);
    CancelTwice(b' * b', a' * c', s, v * v, u * w);
  }

  lemma Regroup(x: real, y: real, s: real, u: real, w: real)
    requires u == x * s && w == y * s
    ensures ((x * y) * s) * s == u * w
  {
  }

  lemma CancelTwice(x: real, y: real, s: real, p: real, q: real)
    requires s > 0.0 && (x * s) * s == p && (y * s) * s == q && p <= q
    ensures x <= y
  {
    CancelOrder(x * s, y * s, s);
    CancelOrder(x, y, s);
  }

  lemma ScaledProducts(a: real, b: real, c: real, u: real, v: real, w: real, r: real, s: real)
    requires b * b <= a * c && r >= 0.0 && s == a + r && s > 0.0 && u == a * r && v == b * r && w == c * s - b * b
    ensures v * v <= u * w
  {
    var bb := b * b;
    var d := a * c - bb;
    DeterminantStep(a, b, c, r, s, d, bb);
    V.MulMonotone(s, 0.0, d);
    V.MulMonotone(r, 0.0, s * d);
  }

  lemma DeterminantStep(a: real, b: real, c: real, r: real, s: real, d: real, bb: real)
    requires bb == b * b && d == a * c - bb && s == a + r
    ensures (a * r) * (c * s - bb) - (b * r) * (b * r) == r * (s * d)
  {
    assert (b * r) * (b * r) == r * (r * bb);
    assert (a * r) * (c * s - bb) == r * (a * (c * s) - a * bb);
    assert a * (c * s) - a * bb - r * bb == s * d by {
      assert a * bb + r * bb == s * bb;
      assert a * (c * s) == s * (a * c);
    }
    assert r * (a * (c * s) - a * bb) - r * (r * bb) == r * (a * (c * s) - a * bb - r * bb);
  }

  // ----- The Joseph form -----

  /** (I - K H) P (I - K H)^T + K r K^T, entry by entry. */
  ghost predicate Joseph(f: Filter, g: Filter, k0: real, k1: real, r: real) {
    && g.p00 == (1.0 - k0) * (f.p00 - k0 * f.p00) + k0 * k0 * r
    && g.p01 == (1.0 - k0) * (f.p01 - k1 * f.p00) + k0 * k1 * r
    && g.p11 == (f.p11 - k1 * f.p01) - k1 * (f.p01 - k1 * f.p00) + k1 * k1 * r
  }

  /** The short covariance update is the Joseph form with the filter's gain, whenever the guard is not hit. */
  lemma UpdateIsJoseph(f: Filter, z: real, r: real, s: real, k0: real, k1: real)
    requires s == f.p00 + r && Past(s) && k0 == f.p00 / s && k1 == f.p01 / s
    ensures Joseph(f, Updated(f, z, r), k0, k1, r)
  {
    assert k0 * s == f.p00 && k1 * s == f.p01;
    JosephRow(k0, s, f.p00, f.p00, k0, r);
    JosephRow(k0, s, f.p00, f.p01, k1, r);
    JosephCorner(k1, s, f.p00, f.p01, r);
  }

  lemma JosephRow(k0: real, s: real, p00: real, p: real, k: real, r: real)
    requires k0 * s == p00 && k * s == p && s == p00 + r
    ensures (1.0 - k0) * (p - k * p00) + k0 * k * r == (1.0 - k0) * p
  {
    assert k * p00 == k0 * p by { assert k * (k0 * s) == k0 * (k * s); }
    assert k * r == (1.0 - k0) * p by { assert k * r == k * s - k * p00; }
    var u := (1.0 - k0) * p;
    assert p - k * p00 == u;
    assert k0 * k * r == k0 * u by { assert k0 * k * r == k0 * (k * r); }
    assert (1.0 - k0) * u + k0 * u == u;
  }

  lemma JosephCorner(k1: real, s: real, p00: real, p01: real, r: real)
    requires k1 * s == p01 && s == p00 + r
    ensures k1 * k1 * r == k1 * (p01 - k1 * p00)
  {
    assert k1 * k1 * r == k1 * (k1 * s - k1 * p00);
  }

  // ----- Two measurements at one instant -----

  /** Both updates, multiplied out by d: symmetric in the two measurements. */
  ghost predicate Fused(f: Filter, h: Filter, z1: real, r1: real, z2: real, r2: real, d: real) {
    && RowScaled(f.p00, h.p00, r1 * r2, d) && RowScaled(f.p01, h.p01, r1 * r2, d)
    && CornerFused(f.p11, h.p11, f.p01, r1 + r2, d)
    && StateFused(f.x0, h.x0, f.p00, z1 - f.x0, r1, z2 - f.x0, r2, d)
    && StateFused(f.x1, h.x1, f.p01, z1 - f.x0, r1, z2 - f.x0, r2, d)
    && h.qOffset == f.qOffset && h.qDrift == f.qDrift
  }

  ghost predicate CornerFused(c: real, c': real, b: real, r: real, d: real) {
    (c - c') * d == (b * b) * r
  }

  ghost predicate StateFused(x: real, x': real, q: real, y1: real, r1: real, y2: real, r2: real, d: real) {
    (x' - x) * d == q * (r2 * y1 + r1 * y2)
  }

  /** s1 and s2 are the innovation variances met in turn, d their product. */
  ghost predicate Chain(a: real, a1: real, r1: real, r2: real, s1: real, s2: real, d: real) {
    RowScaled(a, a1, r1, s1) && s1 == a + r1 && s2 == a1 + r2 && s1 != 0.0 && d == a * (r1 + r2) + r1 * r2
  }

  lemma ChainProduct(a: real, a1: real, r1: real, r2: real, s1: real, s2: real, d: real)
    requires Chain(a, a1, r1, r2, s1, s2, d)
    ensures d == s1 * s2
  {
    assert s1 * s2 == a1 * s1 + r2 * s1;
  }

  lemma FuseRow(p: real, p1: real, p2: real, a: real, a1: real, r1: real, r2: real, s1: real, s2: real, d: real)
    requires Chain(a, a1, r1, r2, s1, s2, d) && RowScaled(p, p1, r1, s1) && RowScaled(p1, p2, r2, s2)
    ensures RowScaled(p, p2, r1 * r2, d)
  {
    ChainProduct(a, a1, r1, r2, s1, s2, d);
    calc {
      p2 * d;
      (p2 * s2) * s1;
      (p1 * s1) * r2;
      p * (r1 * r2);
    }
  }

  lemma FuseCorner(c: real, c1: real, c2: real, b: real, b1: real, a: real, a1: real, r1: real, r2: real, s1: real,
                   s2: real, d: real)
    requires Chain(a, a1, r1, r2, s1, s2, d)
    requires CornerScaled(c, c1, b, s1) && CornerScaled(c1, c2, b1, s2) && RowScaled(b, b1, r1, s1)
    ensures CornerFused(c, c2, b, r1 + r2, d)
  {
    ChainProduct(a, a1, r1, r2, s1, s2, d);
    var bb := b * b;
    assert (c - c2) * d == bb * s2 + (b1 * b1) * s1 by {
      assert (c - c2) * d == ((c - c1) * s1) * s2 + ((c1 - c2) * s2) * s1;
    }
    assert ((c - c2) * d) * s1 == bb * (d + r1 * r1) by {
      assert (bb * s2) * s1 == bb * d;
      assert ((b1 * b1) * s1) * s1 == (b1 * s1) * (b1 * s1);
      assert (b * r1) * (b * r1) == bb * (r1 * r1);
    }
    assert d + r1 * r1 == (r1 + r2) * s1;
    assert bb * ((r1 + r2) * s1) == (bb * (r1 + r2)) * s1;
    CancelEqual((c - c2) * d, bb * (r1 + r2), s1);
  }

  lemma FuseState(q: real, q1: real, x: real, x1: real, x2: real, a: real, a1: real, y1: real, y2: real, m: real,
                  r1: real, r2: real, s1: real, s2: real, d: real)
    requires Chain(a, a1, r1, r2, s1, s2, d) && RowScaled(q, q1, r1, s1)
    requires StateScaled(x, x1, q, y1, s1) && StateScaled(x1, x2, q1, y2 - m, s2) && StateScaled(0.0, m, a, y1, s1)
    ensures StateFused(x, x2, q, y1, r1, y2, r2, d)
  {
    ChainProduct(a, a1, r1, r2, s1, s2, d);
    TwoMoves(x, x1, x2, s1, s2, d, q * y1, q1 * (y2 - m));
    Reorder(q1, y2 - m, s1, q * r1);
    Reassociate3(q * y1, s2, s1, d);
    ScaleInnovation(q * r1, y2, m, s1, a * y1);
    FuseStateSum(q, a, y1, y2, r1, r2, s1, d);
    assert ((x2 - x) * d) * s1 == ((q * y1) * s2) * s1 + ((q * r1) * (y2 - m)) * s1;
    CancelEqual((x2 - x) * d, q * (r2 * y1 + r1 * y2), s1);
  }

  lemma TwoMoves(x: real, x1: real, x2: real, s1: real, s2: real, d: real, p1: real, p2: real)
    requires d == s1 * s2 && (x1 - x) * s1 == p1 && (x2 - x1) * s2 == p2
    ensures (x2 - x) * d == p1 * s2 + p2 * s1
  {
    assert (x1 - x) * d == ((x1 - x) * s1) * s2;
    assert (x2 - x1) * d == ((x2 - x1) * s2) * s1;
    assert (x2 - x) * d == (x1 - x) * d + (x2 - x1) * d;
  }

  lemma Reorder(q: real, y: real, s: real, p: real)
    requires q * s == p
    ensures (q * y) * s == p * y
  {
  }

  lemma Reassociate3(p: real, s2: real, s1: real, d: real)
    requires d == s1 * s2
    ensures (p * s2) * s1 == p * d
  {
  }

  lemma ScaleInnovation(u: real, y: real, m: real, s: real, w: real)
    requires m * s == w
    ensures (u * (y - m)) * s == u * (y * s - w)
  {
    assert (y - m) * s == y * s - m * s;
    assert (u * (y - m)) * s == u * ((y - m) * s);
  }

  lemma FuseStateSum(q: real, a: real, y1: real, y2: real, r1: real, r2: real, s1: real, d: real)
    requires s1 == a + r1 && d == a * (r1 + r2) + r1 * r2
    ensures (q * y1) * d + (q * r1) * (y2 * s1 - a * y1) == (q * (r2 * y1 + r1 * y2)) * s1
  {
    assert d - a * r1 == r2 * s1;
    assert (q * y1) * d - (q * r1) * (a * y1) == (q * y1) * (d - a * r1);
    assert (q * y1) * (r2 * s1) == (q * (r2 * y1)) * s1;
    assert (q * r1) * (y2 * s1) == (q * (r1 * y2)) * s1;
    assert (q * r1) * (y2 * s1 - a * y1) == (q * r1) * (y2 * s1) - (q * r1) * (a * y1);
    assert (q * (r2 * y1 + r1 * y2)) * s1 == (q * (r2 * y1)) * s1 + (q * (r1 * y2)) * s1;
  }

  lemma InnovationMoves(x: real, x': real, q: real, y: real, s: real)
    requires StateScaled(x, x', q, y, s)
    ensures StateScaled(0.0, x' - x, q, y, s)
  {
  }

  lemma FuseAll(f: Filter, g: Filter, h: Filter, z1: real, r1: real, z2: real, r2: real, s1: real, s2: real, d: real)
    requires Chain(f.p00, g.p00, r1, r2, s1, s2, d) && Scaled(f, g, z1, r1, s1) && Scaled(g, h, z2, r2, s2)
    ensures Fused(f, h, z1, r1, z2, r2, d)
  {
    FuseRow(f.p00, g.p00, h.p00, f.p00, g.p00, r1, r2, s1, s2, d);
    FuseRow(f.p01, g.p01, h.p01, f.p00, g.p00, r1, r2, s1, s2, d);
    FuseCorner(f.p11, g.p11, h.p11, f.p01, g.p01, f.p00, g.p00, r1, r2, s1, s2, d);
    var y1, y2, m := z1 - f.x0, z2 - f.x0, g.x0 - f.x0;
    InnovationMoves(f.x0, g.x0, f.p00, y1, s1);
    assert z2 - g.x0 == y2 - m;
    FuseState(f.p00, g.p00, f.x0, g.x0, h.x0, f.p00, g.p00, y1, y2, m, r1, r2, s1, s2, d);
    FuseState(f.p01, g.p01, f.x1, g.x1, h.x1, f.p00, g.p00, y1, y2, m, r1, r2, s1, s2, d);
  }

  lemma UpdateTwice(f: Filter, z1: real, r1: real, z2: real, r2: real, d: real)
    requires Past(f.p00 + r1) && Past(Updated(f, z1, r1).p00 + r2) && d == f.p00 * (r1 + r2) + r1 * r2
    ensures d != 0.0 && Fused(f, Updated(Updated(f, z1, r1), z2, r2), z1, r1, z2, r2, d)
  {
    var g := Updated(f, z1, r1);
    var s1, s2 := f.p00 + r1, g.p00 + r2;
    UpdateScales(f, z1, r1, s1);
    UpdateScales(g, z2, r2, s2);
    ChainProduct(f.p00, g.p00, r1, r2, s1, s2, d);
    V.ProductNonZero(s1, s2);
    FuseAll(f, g, Updated(g, z2, r2), z1, r1, z2, r2, s1, s2, d);
  }

  /** Two updates at one instant commute when neither order hits the guard. */
  lemma UpdatesCommute(f: Filter, z1: real, r1: real, z2: real, r2: real)
    requires Past(f.p00 + r1) && Past(Updated(f, z1, r1).p00 + r2)
    requires Past(f.p00 + r2) && Past(Updated(f, z2, r2).p00 + r1)
    ensures Updated(Updated(f, z1, r1), z2, r2) == Updated(Updated(f, z2, r2), z1, r1)
  {
    var d, d' := f.p00 * (r1 + r2) + r1 * r2, f.p00 * (r2 + r1) + r2 * r1;
    var h, k := Updated(Updated(f, z1, r1), z2, r2), Updated(Updated(f, z2, r2), z1, r1);
    UpdateTwice(f, z1, r1, z2, r2, d);
    UpdateTwice(f, z2, r2, z1, r1, d');
    FusedUnique(f, h, k, z1, r1, z2, r2, d);
  }

  lemma FusedUnique(f: Filter, h: Filter, k: Filter, z1: real, r1: real, z2: real, r2: real, d: real)
    requires d != 0.0 && Fused(f, h, z1, r1, z2, r2, d) && Fused(f, k, z2, r2, z1, r1, d)
    ensures h == k
  {
    RowUnique(f.p00, h.p00, k.p00, r1 * r2, r2 * r1, d);
    RowUnique(f.p01, h.p01, k.p01, r1 * r2, r2 * r1, d);
    CornerUnique(f.p11, h.p11, k.p11, f.p01, r1 + r2, d);
    StateUnique(f.x0, h.x0, k.x0, f.p00, z1 - f.x0, r1, z2 - f.x0, r2, d);
    StateUnique(f.x1, h.x1, k.x1, f.p01, z1 - f.x0, r1, z2 - f.x0, r2, d);
  }

  lemma RowUnique(p: real, u: real, v: real, r: real, r': real, d: real)
    requires d != 0.0 && r == r' && RowScaled(p, u, r, d) && RowScaled(p, v, r', d)
    ensures u == v
  {
    CancelEqual(u, v, d);
  }

  lemma CornerUnique(c: real, u: real, v: real, b: real, r: real, d: real)
    requires d != 0.0 && CornerFused(c, u, b, r, d) && CornerFused(c, v, b, r, d)
    ensures u == v
  {
    CancelEqual(c - u, c - v, d);
  }

  lemma StateUnique(x: real, u: real, v: real, q: real, y1: real, r1: real, y2: real, r2: real, d: real)
    requires d != 0.0 && StateFused(x, u, q, y1, r1, y2, r2, d) && StateFused(x, v, q, y2, r2, y1, r1, d)
    ensures u == v
  {
    CancelEqual(u - x, v - x, d);
  }

  // ----- Runs -----

  datatype Event = Advance(dt: real) | Measure(z: real, r: real)

  function Applied(f: Filter, e: Event): Filter {
    match e
    case Advance(dt) => Predicted(f, dt)
    case Measure(z, r) => Updated(f, z, r)
  }

  ghost function Run(f: Filter, es: seq<Event>): Filter {
    if es == [] then f else Applied(Run(f, es[..|es| - 1]), es[|es| - 1])
  }

  ghost predicate Proper(es: seq<Event>) {
    forall i :: 0 <= i < |es| ==> match es[i] case Advance(dt) => dt >= 0.0 case Measure(_, r) => r >= 0.0
  }

  /** Over every run the covariance stays semidefinite. */
  lemma {:induction false} RunKeeps(f: Filter, es: seq<Event>)
    requires Semidefinite(f) && Noisy(f) && Proper(es)
    ensures Semidefinite(Run(f, es)) && Noisy(Run(f, es))
  {
    if es != [] {
      var g := Run(f, es[..|es| - 1]);
      RunKeeps(f, es[..|es| - 1]);
      match es[|es| - 1]
      case Advance(dt) => PredictKeeps(g, dt);
      case Measure(z, r) => UpdateKeeps(g, z, r);
    }
  }
}
