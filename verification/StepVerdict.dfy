/** Which exchanges a peer track takes for a step of the peer's clock, and what it takes of the others. */
module StepVerdict {
  import opened Basics
  import opened Twist
  import opened Kalman
  import opened PeerTrack
  import opened TrackRuns
  import opened Cholesky
  import V = Vectors

  // ----- The gates -----

  /** The excess of an exchange's round trip over the least of the window it joins. */
  ghost predicate ExcessIs(cfg: Config, s: Track, x: Exchange, excess: int) {
    exists floor :: Least(Newest(s.rtts + [x.Rtt()], cfg.Window()), floor) && excess == x.Rtt() - floor
  }

  /** Sane stamps, in order, and once warmed up within the allowance of the floor. */
  ghost predicate Admissible(cfg: Config, s: Track, x: Exchange, excess: int) {
    InOrder(s.accepted, s.last, x) && ExcessIs(cfg, s, x, excess) && InAllowance(cfg, s.accepted, x.Rtt(), excess)
  }

  ghost predicate InOrder(accepted: nat, last: nat, x: Exchange) {
    && (x.t4 - x.t1) - (x.t3 - x.t2) > 0 && x.t1 <= x.t4
    && (accepted > 0 ==> x.t1 + (x.t4 - x.t1) / 2 > last)
  }

  ghost predicate InAllowance(cfg: Config, accepted: nat, rtt: nat, excess: int) {
    accepted < cfg.warmup || excess as real <= cfg.popcornNs
    || excess as real <= cfg.popcornRatio * (rtt - excess) as real
  }

  lemma OneLeast(s: seq<nat>, m: nat, n: nat)
    requires Least(s, m) && Least(s, n)
    ensures m == n
  {
  }

  /** The gates let an exchange through exactly when it is admissible, and then only the window has changed. */
  lemma GatesAreExact(cfg: Config, s: Track, x: Exchange, excess: int)
    ensures Gated(cfg, s, x).1 == Passes(excess) <==> Admissible(cfg, s, x, excess)
    ensures Gated(cfg, s, x).1.Passes? ==> Gated(cfg, s, x).0 == s.(rtts := Newest(s.rtts + [x.Rtt()], cfg.Window()))
  {
    GatesWantOrder(cfg, s, x);
    if InOrder(s.accepted, s.last, x) { WindowIsExact(cfg, Windowed(cfg, s, x.Rtt()), x.Rtt(), excess); }
  }

  lemma GatesWantOrder(cfg: Config, s: Track, x: Exchange)
    ensures if InOrder(s.accepted, s.last, x)
            then Gated(cfg, s, x) == GatedWindow(cfg, Windowed(cfg, s, x.Rtt()), x.Rtt())
            else Gated(cfg, s, x).1.Blocked?
  {
    OrderIsExact(s.accepted, s.last, x);
  }

  lemma OrderIsExact(accepted: nat, last: nat, x: Exchange)
    ensures InOrder(accepted, last, x) <==> x.Plausible() && !(accepted > 0 && x.Mid() <= last)
  {
  }

  lemma WindowIsExact(cfg: Config, w: Track, rtt: nat, excess: int)
    requires w.rtts != []
    ensures var (t, gate) := GatedWindow(cfg, w, rtt);
            && (gate.Passes? ==> t == w)
            && (gate == Passes(excess) <==> (exists floor :: Least(w.rtts, floor) && excess == rtt - floor)
                                             && InAllowance(cfg, w.accepted, rtt, excess))
  {
    var floor := Floor(w.rtts);
    if other :| Least(w.rtts, other) && excess == rtt - other { OneLeast(w.rtts, other, floor); }
    if excess == rtt - floor { AllowanceIsExact(cfg, w.accepted, rtt, floor, excess); }
  }

  lemma AllowanceIsExact(cfg: Config, accepted: nat, rtt: nat, floor: nat, excess: int)
    requires excess == rtt - floor
    ensures cfg.Queued(accepted, floor, excess) <==> !InAllowance(cfg, accepted, rtt, excess)
  {
    assert (rtt - excess) as real == floor as real;
  }

  /** What is turned away is told which gate did it, the first that applies. */
  lemma RefusalsAreExact(cfg: Config, s: Track, x: Exchange, excess: int)
    ensures var gate, rtt := Gated(cfg, s, x).1, (x.t4 - x.t1) - (x.t3 - x.t2);
            && (gate == Blocked(NonPositiveRtt) <==> rtt <= 0 || x.t4 < x.t1)
            && (gate == Blocked(OutOfOrder) <==>
                rtt > 0 && x.t1 <= x.t4 && s.accepted > 0 && x.t1 + (x.t4 - x.t1) / 2 <= s.last)
            && (gate == Blocked(Popcorn(excess)) <==>
                InOrder(s.accepted, s.last, x) && ExcessIs(cfg, s, x, excess)
                && !InAllowance(cfg, s.accepted, x.Rtt(), excess))
  {
    OrderIsExact(s.accepted, s.last, x);
    if InOrder(s.accepted, s.last, x) {
      GatesWantOrder(cfg, s, x);
      SpikeIsExact(cfg, Windowed(cfg, s, x.Rtt()), x.Rtt(), excess);
    } else {
      DisorderTold(cfg, s, x);
    }
  }

  lemma DisorderTold(cfg: Config, s: Track, x: Exchange)
    requires !InOrder(s.accepted, s.last, x)
    ensures Gated(cfg, s, x).1 == Blocked(if x.Plausible() then OutOfOrder else NonPositiveRtt)
  {
    OrderIsExact(s.accepted, s.last, x);
  }

  lemma SpikeIsExact(cfg: Config, w: Track, rtt: nat, excess: int)
    requires w.rtts != []
    ensures var gate := GatedWindow(cfg, w, rtt).1;
            && (gate.Passes? || gate.reason.Popcorn?)
            && (gate == Blocked(Popcorn(excess)) <==> (exists floor :: Least(w.rtts, floor) && excess == rtt - floor)
                                                      && !InAllowance(cfg, w.accepted, rtt, excess))
  {
    var floor := Floor(w.rtts);
    if other :| Least(w.rtts, other) && excess == rtt - other { OneLeast(w.rtts, other, floor); }
    if excess == rtt - floor { AllowanceIsExact(cfg, w.accepted, rtt, floor, excess); }
  }

  // ----- The verdict -----

  /** What the track expects an exchange to read, ns, and with what spread, given its excess over the floor. */
  ghost predicate Expects(cfg: Config, s: Track, x: Exchange, excess: int, offset: real, spread: real)
    requires x.Plausible()
  {
    Foresees(cfg, s.base, s.filter, (x.Mid() - s.last) as real / 1000000000.0, excess, offset, spread)
  }

  ghost predicate Foresees(cfg: Config, base: int, f: Filter, dt: real, excess: int, offset: real, spread: real) {
    && offset == base as real + 1000000000.0 * (f.x0 + f.x1 * dt)
    && exists root :: IsRoot(root, f, dt) && spread == 1000000000.0 * root + cfg.stampNoise + excess as real / 2.0
  }

  /** The filter's own standard deviation of the offset, dt ahead. */
  ghost predicate IsRoot(root: real, f: Filter, dt: real) {
    root >= 0.0 && root * root == f.p00 + 2.0 * dt * f.p01 + dt * dt * f.p11
  }

  /** The measured offset is beyond both limits, on either side of what was expected. */
  predicate Beyond(cfg: Config, measured: real, offset: real, spread: real) {
    || (measured > offset + cfg.stepNs && measured > offset + 50.0 * spread)
    || (measured < offset - cfg.stepNs && measured < offset - 50.0 * spread)
  }

  /** The spread the detector uses is the one foreseen. */
  lemma SpreadForeseen(cfg: Config, sqrt: real -> real, base: int, f: Filter, dt: real, excess: int, offset: real,
                       spread: real)
    requires IsSqrt(sqrt) && Semidefinite(f) && Foresees(cfg, base, f, dt, excess, offset, spread)
    ensures Spread(cfg, sqrt, f, dt, excess as real) == spread
  {
    CarriedNonNegative(f, dt);
    var root :| IsRoot(root, f, dt) && spread == 1000000000.0 * root + cfg.stampNoise + excess as real / 2.0;
    V.OneRoot(root, sqrt(Carried(f, dt)));
  }

  lemma JumpForeseen(cfg: Config, base: int, f: Filter, dt: real, excess: int, offset: real, spread: real,
                     measured: int)
    requires Foresees(cfg, base, f, dt, excess, offset, spread)
    ensures Jump(base, f, measured, dt) == measured as real - offset
  {
  }

  /** Stepping is being beyond the limits. */
  lemma SteppingIsBeyond(cfg: Config, sqrt: real -> real, base: int, f: Filter, dt: real, excess: int, offset: real,
                         spread: real, measured: int)
    requires IsSqrt(sqrt) && Semidefinite(f) && Foresees(cfg, base, f, dt, excess, offset, spread)
    ensures Stepping(cfg, sqrt, f, measured as real - offset, dt, excess as real)
            == Beyond(cfg, measured as real, offset, spread)
  {
    SpreadForeseen(cfg, sqrt, base, f, dt, excess, offset, spread);
  }

  /** Everything the verdict depends on but the window. */
  ghost predicate SameClock(s: Track, t: Track) {
    && t.base == s.base && t.filter == s.filter && t.last == s.last && t.accepted == s.accepted
    && t.anchor == s.anchor && t.twist == s.twist
  }

  /** What becomes of an admissible exchange, by whether it is beyond the limits. */
  ghost predicate Judgement(suspect: nat, o: Observation, beyond: bool, jump: real) {
    if !beyond then o.Accepted? && !o.restarted
    else if suspect == 0 then o == Rejected(Step(jump))
    else Restarts(o)
  }

  lemma ConcludedCases(cfg: Config, sqrt: real -> real, w: Track, x: Exchange, excess: real, jump: real, stepping: bool)
    requires x.Plausible() && w.accepted >= cfg.warmup
    requires jump == Jump(w.base, w.filter, x.Twist().offset, Seconds(x.Mid() - w.last))
    requires stepping == Stepping(cfg, sqrt, w.filter, jump, Seconds(x.Mid() - w.last), excess)
    ensures Judgement(w.suspect, Concluded(cfg, sqrt, w, x, excess).1, stepping, jump)
  {
  }

  lemma PassedIsConcluded(cfg: Config, sqrt: real -> real, s: Track, x: Exchange, excess: int)
    requires Admissible(cfg, s, x, excess)
    ensures x.Plausible()
    ensures Observed(cfg, sqrt, s, x) == Concluded(cfg, sqrt, Windowed(cfg, s, x.Rtt()), x, excess as real)
  {
    GatesAreExact(cfg, s, x, excess);
  }

  lemma ObservedCases(cfg: Config, sqrt: real -> real, s: Track, x: Exchange, excess: int, jump: real, stepping: bool)
    requires Admissible(cfg, s, x, excess) && s.accepted >= cfg.warmup && x.Plausible()
    requires jump == Jump(s.base, s.filter, x.Twist().offset, Seconds(x.Mid() - s.last))
    requires stepping == Stepping(cfg, sqrt, s.filter, jump, Seconds(x.Mid() - s.last), excess as real)
    ensures Judgement(s.suspect, Observed(cfg, sqrt, s, x).1, stepping, jump)
  {
    PassedIsConcluded(cfg, sqrt, s, x, excess);
    WindowedCases(cfg, sqrt, s, Windowed(cfg, s, x.Rtt()), x, excess as real, jump, stepping);
  }

  lemma WindowedCases(cfg: Config, sqrt: real -> real, s: Track, w: Track, x: Exchange, excess: real, jump: real,
                      stepping: bool)
    requires SameClock(s, w) && w.suspect == s.suspect && s.accepted >= cfg.warmup && x.Plausible()
    requires jump == Jump(s.base, s.filter, x.Twist().offset, Seconds(x.Mid() - s.last))
    requires stepping == Stepping(cfg, sqrt, s.filter, jump, Seconds(x.Mid() - s.last), excess)
    ensures Judgement(s.suspect, Concluded(cfg, sqrt, w, x, excess).1, stepping, jump)
  {
    ConcludedCases(cfg, sqrt, w, x, excess, jump, stepping);
  }

  /**
   * On a warmed-up track an admissible exchange is taken for a step if and only if it reads beyond the limits: held
   * back if it is the first in a row, and otherwise the track restarts.
   */
  lemma VerdictIsExact(cfg: Config, sqrt: real -> real, s: Track, x: Exchange, excess: int, offset: real, spread: real)
    requires IsSqrt(sqrt) && Semidefinite(s.filter) && s.accepted >= cfg.warmup && Admissible(cfg, s, x, excess)
    requires x.Plausible() && Expects(cfg, s, x, excess, offset, spread)
    ensures var measured := x.Twist().offset as real;
            Judgement(s.suspect, Observed(cfg, sqrt, s, x).1, Beyond(cfg, measured, offset, spread), measured - offset)
  {
    DetectorIsExact(cfg, sqrt, s, x, excess, offset, spread);
    var dt := Seconds(x.Mid() - s.last);
    var jump := Jump(s.base, s.filter, x.Twist().offset, dt);
    ObservedCases(cfg, sqrt, s, x, excess, jump, Stepping(cfg, sqrt, s.filter, jump, dt, excess as real));
  }

  lemma DetectorIsExact(cfg: Config, sqrt: real -> real, s: Track, x: Exchange, excess: int, offset: real, spread: real)
    requires IsSqrt(sqrt) && Semidefinite(s.filter) && x.Plausible() && Expects(cfg, s, x, excess, offset, spread)
    ensures var dt, measured := Seconds(x.Mid() - s.last), x.Twist().offset;
            && Jump(s.base, s.filter, measured, dt) == measured as real - offset
            && Stepping(cfg, sqrt, s.filter, Jump(s.base, s.filter, measured, dt), dt, excess as real)
               == Beyond(cfg, measured as real, offset, spread)
  {
    var dt := Seconds(x.Mid() - s.last);
    JumpForeseen(cfg, s.base, s.filter, dt, excess, offset, spread, x.Twist().offset);
    SteppingIsBeyond(cfg, sqrt, s.base, s.filter, dt, excess, offset, spread, x.Twist().offset);
  }

  /** Before it has warmed up, a track takes every admissible exchange. */
  lemma WarmingTakesAll(cfg: Config, sqrt: real -> real, s: Track, x: Exchange, excess: int)
    requires s.accepted < cfg.warmup && Admissible(cfg, s, x, excess)
    ensures var o := Observed(cfg, sqrt, s, x).1; o.Accepted? && !o.restarted
  {
    GatesAreExact(cfg, s, x, excess);
  }

  /**
   * Without a warm-up even the first exchange is judged, by an empty track that expects 0 with a second's spread and a
   * drift's of 0.001: a peer further off than that is taken for stepping.
   */
  lemma ColdStart(cfg: Config, sqrt: real -> real, x: Exchange, root: real, spread: real)
    requires IsSqrt(sqrt) && cfg.warmup == 0 && cfg.popcornNs >= 0.0 && x.Plausible() && root >= 0.0
    requires var dt := x.Mid() as real / 1000000000.0; root * root == 1.0 + dt * dt * 0.000001
    requires spread == 1000000000.0 * root + cfg.stampNoise
    ensures var o, c := Observed(cfg, sqrt, FreshTrack(), x).1, x.Twist().offset as real;
            if Beyond(cfg, c, 0.0, spread) then o == Rejected(Step(c)) else o.Accepted? && !o.restarted
  {
    var dt := x.Mid() as real / 1000000000.0;
    assert Form(1.0, 0.0, 0.000001);
    assert IsRoot(root, FreshFilter(), dt);
    assert 0.0 * dt == 0.0;
    ColdAdmissible(cfg, x);
    VerdictIsExact(cfg, sqrt, FreshTrack(), x, 0, 0.0, spread);
  }

  lemma ColdAdmissible(cfg: Config, x: Exchange)
    requires cfg.popcornNs >= 0.0 && x.Plausible()
    ensures Admissible(cfg, FreshTrack(), x, 0)
  {
    OrderIsExact(0, 0, x);
    LoneFloor([], x.Rtt(), cfg.Window());
    NoExcess(cfg, x.Rtt());
  }

  lemma LoneFloor(s: seq<nat>, rtt: nat, n: nat)
    requires s == [] && n >= 1
    ensures Least(Newest(s + [rtt], n), rtt)
  {
    var w := [rtt];
    assert s + [rtt] == w;
    NewestOfFew(w, n);
    LoneLeast(w, rtt);
  }

  lemma LoneLeast(w: seq<nat>, rtt: nat)
    requires w == [rtt]
    ensures Least(w, rtt)
  {
    assert w[0] == rtt;
    forall r | r in w ensures rtt <= r {
    }
  }

  lemma NoExcess(cfg: Config, rtt: nat)
    requires cfg.popcornNs >= 0.0
    ensures InAllowance(cfg, 0, rtt, 0)
  {
  }

  // ----- A shift of the peer's clock -----

  /** A reading that is d off, to within err, where d is past the limits by more. */
  ghost predicate Shifted(cfg: Config, x: Exchange, offset: real, spread: real, d: real, err: real) {
    && AbsReal(x.Twist().offset as real - (offset + d)) <= err
    && AbsReal(d) > err + cfg.stepNs && AbsReal(d) > err + 50.0 * spread
  }

  lemma ShiftedIsBeyond(cfg: Config, x: Exchange, offset: real, spread: real, d: real, err: real)
    requires Shifted(cfg, x, offset, spread, d, err)
    ensures Beyond(cfg, x.Twist().offset as real, offset, spread)
  {
  }

  lemma RefusalKeeps(cfg: Config, sqrt: real -> real, s: Track, x: Exchange)
    requires Observed(cfg, sqrt, s, x).1.Rejected?
    ensures SameClock(s, Observed(cfg, sqrt, s, x).0)
  {
    GatedCases(cfg, s, x);
    var gate := Gated(cfg, s, x);
    if gate.1.Passes? { HeldBackKeeps(cfg, sqrt, gate.0, x, gate.1.excess as real); }
  }

  lemma HeldBackKeeps(cfg: Config, sqrt: real -> real, w: Track, x: Exchange, excess: real)
    requires x.Plausible() && Concluded(cfg, sqrt, w, x, excess).1.Rejected?
    ensures SameClock(w, Concluded(cfg, sqrt, w, x, excess).0)
  {
    JudgedCases(cfg, sqrt, w, x, excess);
  }

  lemma RunRefusal(cfg: Config, sqrt: real -> real, xs: seq<Exchange>, st: seq<Track>, told: seq<Observation>, k: nat)
    requires TrackRuns.Run(cfg, sqrt, xs, st, told) && k < |xs| && Gatekept(told[k])
    ensures SameClock(st[k], st[k + 1]) && st[k + 1].suspect == st[k].suspect
  {
    var s, x := st[k], xs[k];
    assert (st[k + 1], told[k]) == Observed(cfg, sqrt, s, x);
    RefusalKeeps(cfg, sqrt, s, x);
    StepMoves(cfg, sqrt, s, x);
  }

  lemma {:induction false} RefusalsKeep(cfg: Config, sqrt: real -> real, xs: seq<Exchange>, st: seq<Track>,
                                        told: seq<Observation>, i: nat, j: nat)
    requires TrackRuns.Run(cfg, sqrt, xs, st, told) && i <= j <= |xs| && forall k :: i <= k < j ==> Gatekept(told[k])
    ensures SameClock(st[i], st[j]) && st[j].suspect == st[i].suspect
    decreases j
  {
    if i < j {
      RefusalsKeep(cfg, sqrt, xs, st, told, i, j - 1);
      RunRefusal(cfg, sqrt, xs, st, told, j - 1);
    }
  }

  /** Held back as a step from the expected offset. */
  function HeldAt(x: Exchange, expected: real): Observation {
    Rejected(Step(x.Twist().offset as real - expected))
  }

  /**
   * After the peer's clock is set forward or back past the limits, the next admissible exchange is held back, the one
   * after it restarts the track, whatever the gates turned away between them, and the new track starts at its reading.
   */
  lemma ShiftRestarts(cfg: Config, sqrt: real -> real, xs: seq<Exchange>, st: seq<Track>, told: seq<Observation>,
                      i: nat, j: nat, e1: int, p1: real, s1: real, e2: int, p2: real, s2: real, d: real, err: real)
    requires TrackRuns.Run(cfg, sqrt, xs, st, told) && IsSqrt(sqrt) && Sensible(cfg) && i < j < |xs|
    requires st[i].accepted >= cfg.warmup && st[i].suspect == 0 && forall k :: i < k < j ==> Gatekept(told[k])
    requires Admissible(cfg, st[i], xs[i], e1) && Admissible(cfg, st[j], xs[j], e2)
    requires xs[i].Plausible() && xs[j].Plausible()
    requires Expects(cfg, st[i], xs[i], e1, p1, s1) && Expects(cfg, st[i], xs[j], e2, p2, s2)
    requires Shifted(cfg, xs[i], p1, s1, d, err) && Shifted(cfg, xs[j], p2, s2, d, err)
    ensures told[i] == HeldAt(xs[i], p1)
    ensures Restarts(told[j]) && StartsOver(st[j + 1], xs[j])
  {
    RunHolds(cfg, sqrt, xs, st, told, i, e1, p1, s1, d, err);
    RefusalsKeep(cfg, sqrt, xs, st, told, i + 1, j);
    RunStartsOver(cfg, sqrt, xs, st, told, st[i], j, e2, p2, s2, d, err);
  }

  lemma RunHolds(cfg: Config, sqrt: real -> real, xs: seq<Exchange>, st: seq<Track>, told: seq<Observation>,
                 i: nat, e: int, p: real, spread: real, d: real, err: real)
    requires TrackRuns.Run(cfg, sqrt, xs, st, told) && IsSqrt(sqrt) && Sensible(cfg) && i < |xs|
    requires st[i].accepted >= cfg.warmup && st[i].suspect == 0 && Admissible(cfg, st[i], xs[i], e)
    requires xs[i].Plausible() && Expects(cfg, st[i], xs[i], e, p, spread) && Shifted(cfg, xs[i], p, spread, d, err)
    ensures told[i] == HeldAt(xs[i], p)
    ensures SameClock(st[i], st[i + 1]) && st[i + 1].suspect == 1
  {
    RunKeepsCovariance(cfg, sqrt, xs, st, told, i);
    FirstIsHeld(cfg, sqrt, st[i], xs[i], st[i + 1], told[i], e, p, spread, d, err);
  }

  lemma RunStartsOver(cfg: Config, sqrt: real -> real, xs: seq<Exchange>, st: seq<Track>, told: seq<Observation>,
                      s: Track, j: nat, e: int, p: real, spread: real, d: real, err: real)
    requires TrackRuns.Run(cfg, sqrt, xs, st, told) && IsSqrt(sqrt) && Sensible(cfg) && j < |xs|
    requires SameClock(s, st[j]) && st[j].accepted >= cfg.warmup && st[j].suspect >= 1
    requires Admissible(cfg, st[j], xs[j], e)
    requires xs[j].Plausible() && Expects(cfg, s, xs[j], e, p, spread) && Shifted(cfg, xs[j], p, spread, d, err)
    ensures Restarts(told[j]) && StartsOver(st[j + 1], xs[j])
  {
    RunKeepsCovariance(cfg, sqrt, xs, st, told, j);
    SecondRestarts(cfg, sqrt, s, st[j], xs[j], st[j + 1], told[j], e, p, spread, d, err);
  }

  lemma SameExpectation(cfg: Config, s: Track, t: Track, x: Exchange, e: int, p: real, spread: real)
    requires SameClock(s, t) && x.Plausible() && Expects(cfg, s, x, e, p, spread)
    ensures Expects(cfg, t, x, e, p, spread)
  {
  }

  lemma SecondRestarts(cfg: Config, sqrt: real -> real, s: Track, t: Track, x: Exchange, u: Track, o: Observation,
                       e: int, p: real, spread: real, d: real, err: real)
    requires IsSqrt(sqrt) && Semidefinite(t.filter) && SameClock(s, t) && t.accepted >= cfg.warmup && t.suspect >= 1
    requires Admissible(cfg, t, x, e) && x.Plausible() && Expects(cfg, s, x, e, p, spread)
    requires Shifted(cfg, x, p, spread, d, err) && (u, o) == Observed(cfg, sqrt, t, x)
    ensures Restarts(o) && StartsOver(u, x)
  {
    ShiftedIsBeyond(cfg, x, p, spread, d, err);
    SameExpectation(cfg, s, t, x, e, p, spread);
    VerdictIsExact(cfg, sqrt, t, x, e, p, spread);
    RestartStartsOver(cfg, sqrt, t, x);
  }

  lemma FirstIsHeld(cfg: Config, sqrt: real -> real, s: Track, x: Exchange, u: Track, o: Observation, e: int, p: real,
                    spread: real, d: real, err: real)
    requires IsSqrt(sqrt) && Semidefinite(s.filter) && s.accepted >= cfg.warmup && s.suspect == 0
    requires Admissible(cfg, s, x, e) && x.Plausible() && Expects(cfg, s, x, e, p, spread)
    requires Shifted(cfg, x, p, spread, d, err) && (u, o) == Observed(cfg, sqrt, s, x)
    ensures o == HeldAt(x, p) && SameClock(s, u) && u.suspect == 1
  {
    ShiftedIsBeyond(cfg, x, p, spread, d, err);
    VerdictIsExact(cfg, sqrt, s, x, e, p, spread);
    RefusalKeeps(cfg, sqrt, s, x);
    StepMoves(cfg, sqrt, s, x);
  }

  /** The track at the reading that restarted it, with one exchange absorbed and no drift yet. */
  predicate StartsOver(t: Track, x: Exchange) {
    && x.Plausible() && t.base == x.Twist().offset && t.filter.x0 == 0.0 && t.filter.x1 == 0.0 && t.accepted == 1
    && t.last == x.Mid()
  }

  /** A restarted track is at the reading that restarted it. */
  lemma RestartStartsOver(cfg: Config, sqrt: real -> real, s: Track, x: Exchange)
    requires Restarts(Observed(cfg, sqrt, s, x).1)
    ensures StartsOver(Observed(cfg, sqrt, s, x).0, x)
  {
    GatedCases(cfg, s, x);
    var gate := Gated(cfg, s, x);
    ConcludedStartsOver(cfg, sqrt, gate.0, x, gate.1.excess as real);
  }

  lemma ConcludedStartsOver(cfg: Config, sqrt: real -> real, w: Track, x: Exchange, excess: real)
    requires x.Plausible() && Restarts(Concluded(cfg, sqrt, w, x, excess).1)
    ensures StartsOver(Concluded(cfg, sqrt, w, x, excess).0, x)
  {
    JudgedCases(cfg, sqrt, w, x, excess);
  }
}
