/** What an accepted exchange makes the track report. */
module TrackReport {
  import opened Basics
  import opened Twist
  import opened Kalman
  import opened PeerTrack
  import opened TrackRuns
  import opened StepVerdict
  import opened Cholesky
  import V = Vectors

  /** The midpoint is half way between sending and hearing back, rounded down. */
  lemma MidIsHalfway(x: Exchange)
    requires x.Plausible()
    ensures x.t1 <= x.Mid() <= x.t4 && 0 <= (x.t4 - x.Mid()) - (x.Mid() - x.t1) <= 1
  {
  }

  // ----- The first exchange -----

  /** The track says what the exchange read, give or take the stamp noise and half the round trip. */
  ghost predicate FirstWord(cfg: Config, x: Exchange, r: Relation) {
    && x.Plausible() && r.at == x.Mid() && r.offset == x.Twist().offset as real && r.drift == 0.0
    && r.sigmaOffset == cfg.stampNoise + x.Rtt() as real / 2.0 && r.sigmaDrift == cfg.priorDrift
  }

  /** So it starts, and so it starts again after a restart. */
  lemma FirstReport(cfg: Config, sqrt: real -> real, s: Track, x: Exchange)
    requires IsSqrt(sqrt) && cfg.stampNoise >= 0.0 && cfg.priorDrift >= 0.0 && cfg.warmup > 0
    requires var (t, o) := Observed(cfg, sqrt, s, x); o.Accepted? && t.accepted == 1
    ensures FirstWord(cfg, x, Observed(cfg, sqrt, s, x).1.relation)
  {
    GatedCases(cfg, s, x);
    var gate := Gated(cfg, s, x);
    ConcludedFirst(cfg, sqrt, gate.0, x, gate.1.excess as real);
  }

  lemma ConcludedFirst(cfg: Config, sqrt: real -> real, w: Track, x: Exchange, excess: real)
    requires IsSqrt(sqrt) && cfg.stampNoise >= 0.0 && cfg.priorDrift >= 0.0 && cfg.warmup > 0 && x.Plausible()
    requires var (t, o) := Concluded(cfg, sqrt, w, x, excess); o.Accepted? && t.accepted == 1
    ensures FirstWord(cfg, x, Concluded(cfg, sqrt, w, x, excess).1.relation)
  {
    JudgedCases(cfg, sqrt, w, x, excess);
    var j := Judged(cfg, sqrt, w, x, excess).0;
    GrownFirst(cfg, sqrt, j, x, x.Twist(), excess);
  }

  lemma GrownFirst(cfg: Config, sqrt: real -> real, j: Track, x: Exchange, tw: TwistIndex, excess: real)
    requires IsSqrt(sqrt) && cfg.stampNoise >= 0.0 && cfg.priorDrift >= 0.0 && cfg.warmup > 0 && x.Plausible()
    requires j.accepted == 0 && tw == x.Twist()
    ensures FirstWord(cfg, x, Related(sqrt, Grown(j, x, tw, Absorbed(cfg, j, x, tw.offset, excess))))
  {
    var f := Absorbed(cfg, j, x, tw.offset, excess);
    FirstFilter(cfg, sqrt, x.Rtt(), f);
  }

  lemma FirstFilter(cfg: Config, sqrt: real -> real, rtt: nat, f: Filter)
    requires IsSqrt(sqrt) && cfg.stampNoise >= 0.0 && cfg.priorDrift >= 0.0
    requires cfg.warmup > 0 && f.p00 == Variance(cfg, 0, rtt, 0.0) && f.p11 == cfg.priorDrift * cfg.priorDrift
    ensures sqrt(Max(f.p00, 0.0)) * NANO == cfg.stampNoise + rtt as real / 2.0
    ensures sqrt(Max(f.p11, 0.0)) == cfg.priorDrift
  {
    RootOfSquare(sqrt, (cfg.stampNoise + rtt as real / 2.0) / NANO, f.p00);
    RootOfSquare(sqrt, cfg.priorDrift, f.p11);
  }

  lemma RootOfSquare(sqrt: real -> real, x: real, y: real)
    requires IsSqrt(sqrt) && x >= 0.0 && y == x * x
    ensures y >= 0.0 && sqrt(y) == x
  {
    V.OneRoot(sqrt(y), x);
  }

  // ----- The others -----

  /** The variance of the predicted offset: carried ahead, with the process noise of the time between. */
  ghost predicate Ahead(f: Filter, dt: real, v: real) {
    v == f.p00 + 2.0 * dt * f.p01 + dt * dt * f.p11 + dt * f.qOffset
  }

  /** The variance of the reading: the stamps, and half of what queues may have added to the round trip, in s. */
  ghost predicate OffBy(cfg: Config, accepted: nat, rtt: nat, excess: int, u: real) {
    var off := (cfg.stampNoise + (if accepted < cfg.warmup then rtt else excess) as real / 2.0) / NANO;
    u == off * off
  }

  /** The reported offset weighs prediction and reading by each other's variance. */
  predicate Weighs(r: Relation, expected: real, v: real, measured: real, u: real) {
    && (v + u) * r.offset == u * expected + v * measured
    && (v + u) * (r.sigmaOffset * r.sigmaOffset) == NANO * NANO * (v * u)
  }

  /**
   * Every later exchange that is accepted without a restart is averaged with the prediction, each weighed by the
   * other's variance, and the reported spread is that of the average.
   */
  lemma LaterReport(cfg: Config, sqrt: real -> real, s: Track, x: Exchange, excess: int, expected: real, spread: real,
                    v: real, u: real)
    requires IsSqrt(sqrt) && Semidefinite(s.filter) && Noisy(s.filter) && s.accepted > 0
    requires Admissible(cfg, s, x, excess) && x.Plausible() && Expects(cfg, s, x, excess, expected, spread)
    requires Observed(cfg, sqrt, s, x).1.Accepted? && !Observed(cfg, sqrt, s, x).1.restarted
    requires Ahead(s.filter, (x.Mid() - s.last) as real / NANO, v) && OffBy(cfg, s.accepted, x.Rtt(), excess, u)
    requires v + u >= TINY
    ensures var r := Observed(cfg, sqrt, s, x).1.relation;
            r.at == x.Mid() && Weighs(r, expected, v, x.Twist().offset as real, u)
  {
    AcceptedSays(cfg, sqrt, s, x, excess, u);
    ReportWeighs(cfg, sqrt, s, x, excess, expected, spread, v, u, Observed(cfg, sqrt, s, x).1.relation);
  }

  lemma AcceptedSays(cfg: Config, sqrt: real -> real, s: Track, x: Exchange, excess: int, u: real)
    requires s.accepted > 0 && Admissible(cfg, s, x, excess) && OffBy(cfg, s.accepted, x.Rtt(), excess, u)
    requires Observed(cfg, sqrt, s, x).1.Accepted? && !Observed(cfg, sqrt, s, x).1.restarted
    ensures x.Plausible() && u >= 0.0 && x.Mid() >= s.last
    ensures SaysAfter(sqrt, s, x, u, Observed(cfg, sqrt, s, x).1.relation)
  {
    PassedIsConcluded(cfg, sqrt, s, x, excess);
    OffIsVariance(cfg, s.accepted, x.Rtt(), excess, u);
    ConcludedWeighs(cfg, sqrt, s, Windowed(cfg, s, x.Rtt()), x, excess as real, u);
  }

  lemma OffIsVariance(cfg: Config, accepted: nat, rtt: nat, excess: int, u: real)
    requires OffBy(cfg, accepted, rtt, excess, u)
    ensures u == Variance(cfg, accepted, rtt, excess as real) && u >= 0.0
  {
    VarianceNonNegative(cfg, accepted, rtt, excess as real);
  }

  lemma ReportWeighs(cfg: Config, sqrt: real -> real, s: Track, x: Exchange, excess: int, expected: real, spread: real,
                     v: real, u: real, r: Relation)
    requires IsSqrt(sqrt) && Semidefinite(s.filter) && Noisy(s.filter) && x.Plausible() && x.Mid() >= s.last
    requires Expects(cfg, s, x, excess, expected, spread) && Ahead(s.filter, (x.Mid() - s.last) as real / NANO, v)
    requires u >= 0.0 && v + u >= TINY && SaysAfter(sqrt, s, x, u, r)
    ensures Weighs(r, expected, v, x.Twist().offset as real, u)
  {
    var dt, measured := Seconds(x.Mid() - s.last), x.Twist().offset;
    AheadNonNegative(s.filter, dt, v);
    FilterWeighs(sqrt, s.base, s.filter, dt, measured, u, v, r);
    JumpForeseen(cfg, s.base, s.filter, dt, excess, expected, spread, measured);
  }

  /** The relation of the track's filter once it has absorbed the exchange with variance u. */
  ghost predicate SaysAfter(sqrt: real -> real, s: Track, x: Exchange, u: real, r: Relation)
    requires x.Plausible()
  {
    var z := Seconds(x.Twist().offset - s.base);
    r.at == x.Mid() && Says(sqrt, s.base, Stepped(s.filter, Seconds(x.Mid() - s.last), z, u), r)
  }

  /** The relation of base and filter. */
  predicate Says(sqrt: real -> real, base: int, f: Filter, r: Relation) {
    r.offset == base as real + f.x0 * NANO && r.sigmaOffset == sqrt(Max(f.p00, 0.0)) * NANO
  }

  lemma ConcludedWeighs(cfg: Config, sqrt: real -> real, s: Track, w: Track, x: Exchange, excess: real, u: real)
    requires SameClock(s, w) && x.Plausible() && w.accepted > 0 && u == Variance(cfg, w.accepted, x.Rtt(), excess)
    requires Concluded(cfg, sqrt, w, x, excess).1.Accepted? && !Concluded(cfg, sqrt, w, x, excess).1.restarted
    ensures SaysAfter(sqrt, s, x, u, Concluded(cfg, sqrt, w, x, excess).1.relation)
  {
    JudgedCases(cfg, sqrt, w, x, excess);
  }

  lemma AheadNonNegative(f: Filter, dt: real, v: real)
    requires Semidefinite(f) && Noisy(f) && Ahead(f, dt, v) && dt >= 0.0
    ensures v >= 0.0
  {
    CarriedNonNegative(f, dt);
    assert dt * f.qOffset >= 0.0;
  }

  lemma FilterWeighs(sqrt: real -> real, base: int, f: Filter, dt: real, measured: int, u: real, v: real, r: Relation)
    requires IsSqrt(sqrt) && Ahead(f, dt, v) && v >= 0.0 && u >= 0.0 && v + u >= TINY
    requires Says(sqrt, base, Stepped(f, dt, Seconds(measured - base), u), r)
    ensures Weighs(r, measured as real - Jump(base, f, measured, dt), v, measured as real, u)
  {
    var x, z := f.x0 + f.x1 * dt, Seconds(measured - base);
    var g := Stepped(f, dt, z, u);
    SteppedIs(f, dt, z, u, v, g);
    SaysWeighs(sqrt, base, measured, x, z, u, v, g, r);
    JumpIs(base, f, measured, dt, x);
  }

  lemma JumpIs(base: int, f: Filter, measured: int, dt: real, x: real)
    requires x == f.x0 + f.x1 * dt
    ensures measured as real - Jump(base, f, measured, dt) == base as real + x * NANO
  {
  }


  lemma SteppedIs(f: Filter, dt: real, z: real, u: real, v: real, g: Filter)
    requires Ahead(f, dt, v) && v >= 0.0 && u >= 0.0 && v + u >= TINY && g == Stepped(f, dt, z, u)
    ensures (v + u) * g.x0 == u * (f.x0 + f.x1 * dt) + v * z && (v + u) * g.p00 == v * u
  {
    AheadIs(f, dt, v);
    SteppedWeighs(Predicted(f, dt), f.x0 + f.x1 * dt, z, u, v);
  }

  lemma AheadIs(f: Filter, dt: real, v: real)
    requires Ahead(f, dt, v)
    ensures Predicted(f, dt).x0 == f.x0 + f.x1 * dt && Predicted(f, dt).p00 == v
  {
    PredictedIs(f.x0, f.x1, f.p00, f.p01, f.p11, f.qOffset, f.qDrift, dt);
  }

  lemma SaysWeighs(sqrt: real -> real, base: int, measured: int, x: real, z: real, u: real, v: real, g: Filter,
                   r: Relation)
    requires IsSqrt(sqrt) && v >= 0.0 && u >= 0.0 && v + u >= TINY && z == Seconds(measured - base)
    requires (v + u) * g.x0 == u * x + v * z && (v + u) * g.p00 == v * u && Says(sqrt, base, g, r)
    ensures Weighs(r, base as real + x * NANO, v, measured as real, u)
  {
    OffsetWeighs(base as real, x, z, u, v, g.x0);
    RootWeighs(sqrt, u, v, g.p00, r.sigmaOffset);
    assert base as real + z * NANO == measured as real;
  }

  lemma SteppedWeighs(h: Filter, x: real, z: real, u: real, v: real)
    requires h.x0 == x && h.p00 == v && v >= 0.0 && u >= 0.0 && v + u >= TINY
    ensures (v + u) * Updated(h, z, u).x0 == u * x + v * z && (v + u) * Updated(h, z, u).p00 == v * u
  {
    MeanWeighs(x, z, u, v);
  }

  lemma MeanWeighs(x: real, z: real, u: real, v: real)
    requires v + u >= TINY
    ensures (v + u) * (x + v / (v + u) * (z - x)) == u * x + v * z
    ensures (v + u) * ((1.0 - v / (v + u)) * v) == v * u
  {
    var s := v + u;
    var k := v / s;
    assert s * k == v;
    assert s * (k * (z - x)) == (s * k) * (z - x);
    assert s * ((1.0 - k) * v) == (s - s * k) * v;
  }

  lemma OffsetWeighs(base: real, x: real, z: real, u: real, v: real, y: real)
    requires (v + u) * y == u * x + v * z
    ensures (v + u) * (base + y * NANO) == u * (base + x * NANO) + v * (base + z * NANO)
  {
    assert (v + u) * (y * NANO) == ((v + u) * y) * NANO;
    assert u * (x * NANO) == (u * x) * NANO && v * (z * NANO) == (v * z) * NANO;
  }

  lemma FactorNonNegative(s: real, p: real)
    requires s > 0.0 && s * p >= 0.0
    ensures p >= 0.0
  {
  }

  lemma RootWeighs(sqrt: real -> real, u: real, v: real, p: real, sigma: real)
    requires IsSqrt(sqrt) && v >= 0.0 && u >= 0.0 && v + u >= TINY && (v + u) * p == v * u
    requires sigma == sqrt(Max(p, 0.0)) * NANO
    ensures (v + u) * (sigma * sigma) == NANO * NANO * (v * u)
  {
    assert v * u >= 0.0;
    FactorNonNegative(v + u, p);
    var root := sqrt(p);
    assert root * root == p;
    assert sigma * sigma == (root * root) * (NANO * NANO);
    assert (v + u) * (p * (NANO * NANO)) == ((v + u) * p) * (NANO * NANO);
  }
}
