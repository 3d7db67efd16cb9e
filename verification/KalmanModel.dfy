/** The clock the filter is a model of: an offset that grows with a drift, read with noise. */
module KalmanModel {
  import opened Kalman

  // ----- Matrices -----

  datatype Matrix = Matrix(a: real, b: real, c: real, d: real)

  function Times(m: Matrix, n: Matrix): Matrix {
    Matrix(m.a * n.a + m.b * n.c, m.a * n.b + m.b * n.d, m.c * n.a + m.d * n.c, m.c * n.b + m.d * n.d)
  }

  function Plus(m: Matrix, n: Matrix): Matrix {
    Matrix(m.a + n.a, m.b + n.b, m.c + n.c, m.d + n.d)
  }

  function Transpose(m: Matrix): Matrix {
    Matrix(m.a, m.c, m.b, m.d)
  }

  function Covariance(f: Filter): Matrix {
    Matrix(f.p00, f.p01, f.p01, f.p11)
  }

  /** dt later the offset has grown by the drift, and the drift has stayed. */
  function Motion(dt: real): Matrix {
    Matrix(1.0, dt, 0.0, 1.0)
  }

  function Noise(f: Filter, dt: real): Matrix {
    Matrix(dt * f.qOffset, 0.0, 0.0, dt * f.qDrift)
  }

  /** The prediction moves the state by F and the covariance to F P F^T + Q, entry by entry. */
  lemma PredictIsMotion(f: Filter, dt: real)
    ensures var g, m := Predicted(f, dt), Motion(dt);
            && g.x0 == m.a * f.x0 + m.b * f.x1 && g.x1 == m.c * f.x0 + m.d * f.x1
            && Covariance(g) == Plus(Times(Times(m, Covariance(f)), Transpose(m)), Noise(f, dt))
            && g.qOffset == f.qOffset && g.qDrift == f.qDrift
  {
    PredictedIs(f.x0, f.x1, f.p00, f.p01, f.p11, f.qOffset, f.qDrift, dt);
    MotionEntries(f.p00, f.p01, f.p11, f.qOffset, f.qDrift, dt);
    StateEntries(f.x0, f.x1, dt);
  }

  lemma StateEntries(x0: real, x1: real, dt: real)
    ensures 1.0 * x0 + dt * x1 == x0 + x1 * dt && 0.0 * x0 + 1.0 * x1 == x1
  {
  }

  lemma MotionEntries(a: real, b: real, c: real, q0: real, q1: real, dt: real)
    ensures Plus(Times(Times(Motion(dt), Matrix(a, b, b, c)), Transpose(Motion(dt))),
                 Matrix(dt * q0, 0.0, 0.0, dt * q1))
         == Matrix(a + 2.0 * dt * b + dt * dt * c + q0 * dt, b + dt * c, b + dt * c, c + q1 * dt)
  {
    var p := Times(Motion(dt), Matrix(a, b, b, c));
    assert p.a == a + dt * b && p.b == b + dt * c;
    assert p.c == b && p.d == c;
    var q := Times(p, Transpose(Motion(dt)));
    assert q.a == p.a + p.b * dt && q.b == p.b && q.c == p.c + p.d * dt && q.d == p.d;
    assert p.b * dt == dt * b + dt * dt * c;
    assert p.d * dt == dt * c;
    assert q0 * dt == dt * q0 && q1 * dt == dt * q1;
  }

  ghost predicate Noiseless(f: Filter) {
    f.qOffset == 0.0 && f.qDrift == 0.0
  }

  /** Without noise, predicting twice is predicting over the whole time once; and not at all, over none. */
  lemma PredictionsCompose(f: Filter, s: real, t: real)
    ensures Predicted(f, 0.0) == f
    ensures Noiseless(f) ==> Predicted(Predicted(f, s), t) == Predicted(f, s + t)
  {
    if Noiseless(f) {
      NoiselessIs(f, s);
      NoiselessIs(Predicted(f, s), t);
      NoiselessIs(f, s + t);
      DriftsAdd(f.x1, s, t);
      assert s * f.p11 + t * f.p11 == (s + t) * f.p11;
      VariancesCompose(f.p00, f.p01, f.p11, s, t);
    }
  }

  lemma NoiselessIs(f: Filter, dt: real)
    requires Noiseless(f)
    ensures Predicted(f, dt)
         == f.(x0 := f.x0 + f.x1 * dt, p00 := Carried(f, dt), p01 := f.p01 + dt * f.p11, p11 := f.p11)
  {
    PredictedIs(f.x0, f.x1, f.p00, f.p01, f.p11, 0.0, 0.0, dt);
    assert 0.0 * dt == 0.0;
  }

  lemma DriftsAdd(y: real, s: real, t: real)
    ensures y * s + y * t == y * (s + t)
  {
  }

  lemma VariancesCompose(a: real, b: real, c: real, s: real, t: real)
    ensures (a + 2.0 * s * b + s * s * c) + 2.0 * t * (b + s * c) + t * t * c
         == a + 2.0 * (s + t) * b + (s + t) * (s + t) * c
  {
  }

  /** The whole update: nothing while the innovation's variance is within 1e-30 of zero, and otherwise by its gains. */
  lemma UpdateIsExact(f: Filter, z: real, r: real)
    ensures var g, s := Updated(f, z, r), f.p00 + r;
            if -0.000000000000000000000000000001 < s < 0.000000000000000000000000000001 then g == f
            else Scaled(f, g, z, r, s)
  {
    if !(-TINY < f.p00 + r < TINY) { UpdateScales(f, z, r, f.p00 + r); }
  }

  // ----- A clock read without noise -----

  /** What a clock reads, time by time. */
  type Clock = real -> real

  /** From t to dt later the clock gains b for every unit of time. */
  ghost predicate Gains(clock: Clock, b: real, t: real, dt: real) {
    clock(t + dt) == clock(t) + b * dt
  }

  ghost predicate Steady(clock: Clock, b: real) {
    forall t, dt :: Gains(clock, b, t, dt)
  }

  /** The filter has the clock's offset at time t, and its drift. */
  ghost predicate OnClock(f: Filter, clock: Clock, b: real, t: real) {
    f.x0 == clock(t) && f.x1 == b
  }

  lemma PredictStaysOn(f: Filter, clock: Clock, b: real, t: real, dt: real)
    requires Steady(clock, b) && OnClock(f, clock, b, t)
    ensures OnClock(Predicted(f, dt), clock, b, t + dt)
  {
    assert Gains(clock, b, t, dt);
  }

  /** A reading that is what the filter holds moves nothing. */
  lemma UpdateStaysOn(f: Filter, clock: Clock, b: real, t: real, r: real)
    requires OnClock(f, clock, b, t)
    ensures OnClock(Updated(f, clock(t), r), clock, b, t)
  {
  }

  function Elapsed(e: Event): real {
    match e case Advance(dt) => dt case Measure(_, _) => 0.0
  }

  /** The time after the events, from t. */
  function TimeAfter(es: seq<Event>, t: real): real {
    if es == [] then t else TimeAfter(es[..|es| - 1], t) + Elapsed(es[|es| - 1])
  }

  /** Every measurement reads the clock at its time, with any variance. */
  ghost predicate ReadsClock(es: seq<Event>, clock: Clock, t: real) {
    forall i :: 0 <= i < |es| && es[i].Measure? ==> es[i].z == clock(TimeAfter(es[..i], t))
  }

  /** Over every run of predictions and true readings the filter stays on the clock. */
  lemma {:induction false} RunStaysOn(f: Filter, es: seq<Event>, clock: Clock, b: real, t: real)
    requires Steady(clock, b) && OnClock(f, clock, b, t) && ReadsClock(es, clock, t)
    ensures OnClock(Run(f, es), clock, b, TimeAfter(es, t))
  {
    if es != [] {
      var front := es[..|es| - 1];
      ReadsFront(es, clock, t);
      RunStaysOn(f, front, clock, b, t);
      EventStaysOn(Run(f, front), es[|es| - 1], clock, b, TimeAfter(front, t));
    }
  }

  lemma ReadsFront(es: seq<Event>, clock: Clock, t: real)
    requires es != [] && ReadsClock(es, clock, t)
    ensures ReadsClock(es[..|es| - 1], clock, t)
    ensures es[|es| - 1].Measure? ==> es[|es| - 1].z == clock(TimeAfter(es[..|es| - 1], t))
  {
    var front := es[..|es| - 1];
    forall i | 0 <= i < |front| && front[i].Measure?
      ensures front[i].z == clock(TimeAfter(front[..i], t))
    {
      assert front[..i] == es[..i] && front[i] == es[i];
    }
  }

  lemma EventStaysOn(f: Filter, e: Event, clock: Clock, b: real, t: real)
    requires Steady(clock, b) && OnClock(f, clock, b, t) && (e.Measure? ==> e.z == clock(t))
    ensures OnClock(Applied(f, e), clock, b, t + Elapsed(e))
  {
    match e
    case Advance(dt) => PredictStaysOn(f, clock, b, t, dt);
    case Measure(z, r) => UpdateStaysOn(f, clock, b, t, r);
  }

  // ----- Learning a clock -----

  /**
   * An exact first reading puts the filter on the clock's offset, and an exact second one, any time later, on its drift
   * too: whatever it held before, if its drift was not known for certain.
   */
  lemma TwoReadingsSuffice(f: Filter, clock: Clock, b: real, t: real, dt: real)
    requires Steady(clock, b) && Noiseless(f) && f.p00 >= TINY && dt > 0.0
    requires Predicted(Updated(f, clock(t), 0.0), dt).p00 >= TINY
    ensures OnClock(Updated(Predicted(Updated(f, clock(t), 0.0), dt), clock(t + dt), 0.0), clock, b, t + dt)
  {
    var h := Updated(f, clock(t), 0.0);
    ExactReading(f, clock(t));
    ExactReading(Predicted(h, dt), clock(t + dt));
    assert h.p00 == 0.0 && h.p01 == 0.0 && h.x0 == clock(t) && Gains(clock, b, t, dt);
    DriftFound(clock(t), b, dt, h.x1, h.p11);
  }

  /** An exact reading is taken over, and leaves no variance of the offset. */
  lemma ExactReading(f: Filter, z: real)
    requires f.p00 >= TINY
    ensures var g := Updated(f, z, 0.0); g.x0 == z && g.p00 == 0.0 && g.p01 == 0.0
  {
    assert f.p00 / f.p00 == 1.0;
  }

  lemma DriftFound(x: real, b: real, dt: real, y: real, c: real)
    requires dt > 0.0 && c != 0.0
    ensures dt * dt * c != 0.0
    ensures y + (dt * c) / (dt * dt * c) * (x + b * dt - (x + y * dt)) == b
  {
    var u := dt * c;
    assert dt * dt * c == dt * u;
    assert u / (dt * u) * dt == 1.0;
    assert x + b * dt - (x + y * dt) == dt * (b - y);
    assert u / (dt * u) * (dt * (b - y)) == (u / (dt * u) * dt) * (b - y);
  }
}
