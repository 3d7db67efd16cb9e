/** What every run of a peer track keeps. */
module TrackRuns {
  import opened Basics
  import opened Twist
  import opened Kalman
  import opened PeerTrack
  import V = Vectors

  /** One run from a fresh track: st[k] is the track before exchange k, told[k] what that exchange was told. */
  ghost predicate Run(cfg: Config, sqrt: real -> real, xs: seq<Exchange>, st: seq<Track>, told: seq<Observation>) {
    && |st| == |xs| + 1 && |told| == |xs| && st[0] == FreshTrack()
    && forall k {:trigger st[k], xs[k]} :: 0 <= k < |xs| ==> (st[k + 1], told[k]) == Observed(cfg, sqrt, st[k], xs[k])
  }

  // ----- One step, case by case -----

  predicate Gatekept(o: Observation) {
    o.Rejected? && !o.reason.Step?
  }

  predicate Spiked(o: Observation) {
    o.Rejected? && o.reason.Popcorn?
  }

  /** Turned away before its round trip joined the window. */
  predicate Unheard(o: Observation) {
    o.Rejected? && (o.reason.NonPositiveRtt? || o.reason.OutOfOrder?)
  }

  predicate Restarts(o: Observation) {
    o.Accepted? && o.restarted
  }

  predicate HeldBack(o: Observation) {
    o.Rejected? && o.reason.Step?
  }

  /** What an exchange does to everything but the filter. */
  ghost predicate Moves(cfg: Config, s: Track, x: Exchange, s': Track, o: Observation) {
    && MovesCounts(cfg, s, s', o)
    && MovesWindow(cfg, s.rtts, x, s'.rtts, o)
    && (o.Accepted? ==> s'.last == x.Mid() && (s.accepted > 0 ==> x.Mid() > s.last))
    && (o.Rejected? ==> s'.last == s.last)
  }

  ghost predicate MovesWindow(cfg: Config, w: seq<nat>, x: Exchange, w': seq<nat>, o: Observation) {
    && (!Unheard(o) ==> x.Plausible())
    && w' == (if Unheard(o) then w else if Restarts(o) then [x.Rtt()] else Newest(w + [x.Rtt()], cfg.Window()))
  }

  ghost predicate MovesCounts(cfg: Config, s: Track, s': Track, o: Observation) {
    && s'.accepted == (if o.Rejected? then s.accepted else if o.restarted then 1 else s.accepted + 1)
    && s'.rejected == (if o.Rejected? then s.rejected + 1 else s.rejected)
    && s'.steps == (if Restarts(o) then s.steps + 1 else s.steps)
    && s'.suspect == (if Gatekept(o) || s.accepted < cfg.warmup then s.suspect
                      else if HeldBack(o) then s.suspect + 1 else 0)
    && (HeldBack(o) ==> s.suspect == 0 && s.accepted >= cfg.warmup)
    && (Restarts(o) ==> s.suspect >= 1 && s.accepted >= cfg.warmup)
  }

  lemma StepMoves(cfg: Config, sqrt: real -> real, s: Track, x: Exchange)
    ensures var (s', o) := Observed(cfg, sqrt, s, x); Moves(cfg, s, x, s', o)
  {
    var gate := Gated(cfg, s, x);
    GatedCases(cfg, s, x);
    if gate.1.Passes? {
      ConcludedMoves(cfg, sqrt, s, gate.0, x, gate.1.excess as real);
    } else {
      BlockedMoves(cfg, s, x, gate.0, gate.1);
    }
  }

  /** What the gates do to the track. */
  ghost predicate GateCase(cfg: Config, s: Track, x: Exchange, g: Track, gate: Gate) {
    match gate
    case Passes(_) => x.Plausible() && g == Windowed(cfg, s, x.Rtt()) && (s.accepted > 0 ==> x.Mid() > s.last)
    case Blocked(Popcorn(_)) => x.Plausible() && g == Refused(Windowed(cfg, s, x.Rtt()))
    case Blocked(reason) => !reason.Step? && g == Refused(s)
  }

  lemma GatedCases(cfg: Config, s: Track, x: Exchange)
    ensures var (g, gate) := Gated(cfg, s, x); GateCase(cfg, s, x, g, gate)
  {
  }

  lemma BlockedMoves(cfg: Config, s: Track, x: Exchange, g: Track, gate: Gate)
    requires GateCase(cfg, s, x, g, gate) && gate.Blocked?
    ensures Moves(cfg, s, x, g, Rejected(gate.reason))
  {
  }

  lemma ConcludedMoves(cfg: Config, sqrt: real -> real, s: Track, w: Track, x: Exchange, excess: real)
    requires x.Plausible() && w == Windowed(cfg, s, x.Rtt()) && (s.accepted > 0 ==> x.Mid() > s.last)
    ensures var (s', o) := Concluded(cfg, sqrt, w, x, excess); Moves(cfg, s, x, s', o)
  {
    JudgedCases(cfg, sqrt, w, x, excess);
    var judged := Judged(cfg, sqrt, w, x, excess);
    var f := Absorbed(cfg, judged.0, x, x.Twist().offset, excess);
    GrownGrows(judged.0, x, x.Twist(), f);
    var grown := Grown(judged.0, x, x.Twist(), f);
    var o := Accepted(x.Twist(), Related(sqrt, grown), judged.1.Clear? && judged.1.restarted);
    SettleMoves(cfg, s, w, x, judged, grown, o);
  }

  /** Growing the track leaves its window and its detector alone. */
  ghost predicate Grows(j: Track, x: Exchange, g: Track) {
    && x.Plausible() && g.last == x.Mid() && g.accepted == j.accepted + 1
    && g.rtts == j.rtts && g.rejected == j.rejected && g.steps == j.steps && g.suspect == j.suspect
  }

  lemma GrownGrows(j: Track, x: Exchange, tw: TwistIndex, f: Filter)
    requires x.Plausible()
    ensures Grows(j, x, Grown(j, x, tw, f))
  {
  }

  lemma SettleMoves(cfg: Config, s: Track, w: Track, x: Exchange, judged: (Track, Verdict), grown: Track,
                    o: Observation)
    requires x.Plausible() && w == Windowed(cfg, s, x.Rtt()) && (s.accepted > 0 ==> x.Mid() > s.last)
    requires JudgeCase(cfg, w, x, judged.0, judged.1) && Grows(judged.0, x, grown)
    requires o.Accepted? && o.restarted == (judged.1.Clear? && judged.1.restarted)
    ensures var (s', told) := Settle(judged, grown, o); Moves(cfg, s, x, s', told)
  {
    var (s', told) := Settle(judged, grown, o);
    SettleCounts(cfg, s, w, x, judged, grown, o, s', told);
    SettleWindow(cfg, s, w, x, judged, grown, o, s', told);
  }

  lemma SettleCounts(cfg: Config, s: Track, w: Track, x: Exchange, judged: (Track, Verdict), grown: Track,
                     o: Observation,
                     s': Track, told: Observation)
    requires w == s.(rtts := w.rtts) && JudgeCase(cfg, w, x, judged.0, judged.1) && Grows(judged.0, x, grown)
    requires o.Accepted? && o.restarted == (judged.1.Clear? && judged.1.restarted)
    requires (s', told) == Settle(judged, grown, o)
    ensures MovesCounts(cfg, s, s', told)
  {
  }

  lemma SettleWindow(cfg: Config, s: Track, w: Track, x: Exchange, judged: (Track, Verdict), grown: Track,
                     o: Observation,
                     s': Track, told: Observation)
    requires x.Plausible() && w.rtts == Newest(s.rtts + [x.Rtt()], cfg.Window())
    requires JudgeCase(cfg, w, x, judged.0, judged.1) && Grows(judged.0, x, grown)
    requires o.Accepted? && o.restarted == (judged.1.Clear? && judged.1.restarted)
    requires (s', told) == Settle(judged, grown, o)
    ensures MovesWindow(cfg, s.rtts, x, s'.rtts, told)
  {
  }

  /** What the step detector does to the track. */
  ghost predicate JudgeCase(cfg: Config, w: Track, x: Exchange, j: Track, v: Verdict) {
    if w.accepted < cfg.warmup then j == w && v == Clear(false)
    else match v
      case Clear(false) => j == w.(suspect := 0)
      case Suspected(_) => w.suspect == 0 && j == w.(suspect := 1)
      case Clear(true) =>
        w.suspect >= 1 && x.Plausible() && j == w.(suspect := 0, steps := w.steps + 1, accepted := 0, rtts := [x.Rtt()])
  }

  lemma JudgedCases(cfg: Config, sqrt: real -> real, w: Track, x: Exchange, excess: real)
    requires x.Plausible()
    ensures var (j, v) := Judged(cfg, sqrt, w, x, excess); JudgeCase(cfg, w, x, j, v)
  {
  }

  /** A run with the filter's part forgotten. */
  ghost predicate Trace(cfg: Config, xs: seq<Exchange>, st: seq<Track>, told: seq<Observation>) {
    && |st| == |xs| + 1 && |told| == |xs| && st[0] == FreshTrack()
    && forall k {:trigger told[k]} :: 0 <= k < |xs| ==> Moves(cfg, st[k], xs[k], st[k + 1], told[k])
  }

  lemma RunTrace(cfg: Config, sqrt: real -> real, xs: seq<Exchange>, st: seq<Track>, told: seq<Observation>)
    requires Run(cfg, sqrt, xs, st, told)
    ensures Trace(cfg, xs, st, told)
  {
    forall k | 0 <= k < |xs| ensures Moves(cfg, st[k], xs[k], st[k + 1], told[k]) {
      StepMoves(cfg, sqrt, st[k], xs[k]);
    }
  }

  /** The suspect counter between calls, and the window's size. */
  ghost predicate Orderly(cfg: Config, s: Track) {
    s.suspect <= 1 && (s.accepted < cfg.warmup ==> s.suspect == 0) && |s.rtts| <= cfg.Window()
  }

  lemma {:induction false} TraceIsOrderly(cfg: Config, xs: seq<Exchange>, st: seq<Track>, told: seq<Observation>,
                                          k: nat)
    requires Trace(cfg, xs, st, told) && k <= |xs|
    ensures Orderly(cfg, st[k])
  {
    if k > 0 {
      TraceIsOrderly(cfg, xs, st, told, k - 1);
      assert Moves(cfg, st[k - 1], xs[k - 1], st[k], told[k - 1]);
    }
  }

  // ----- Accepted midpoints -----

  /** Once something is absorbed, the last midpoint only grows. */
  lemma {:induction false} LastGrows(cfg: Config, xs: seq<Exchange>, st: seq<Track>, told: seq<Observation>, i: nat,
                                     k: nat)
    requires Trace(cfg, xs, st, told) && i <= k <= |xs| && st[i].accepted > 0
    ensures st[k].accepted > 0 && st[i].last <= st[k].last
  {
    if i < k {
      LastGrows(cfg, xs, st, told, i, k - 1);
      LastStep(cfg, st[k - 1], xs[k - 1], st[k], told[k - 1]);
    }
  }

  lemma LastStep(cfg: Config, s: Track, x: Exchange, s': Track, o: Observation)
    requires Moves(cfg, s, x, s', o)
    ensures o.Accepted? ==> x.Plausible() && s'.accepted > 0 && s'.last == x.Mid()
    ensures s.accepted > 0 ==> s'.accepted > 0 && (if o.Accepted? then s'.last > s.last else s'.last == s.last)
  {
  }

  /** Accepted midpoints strictly increase, across restarts too. */
  lemma MidpointsIncrease(cfg: Config, sqrt: real -> real, xs: seq<Exchange>, st: seq<Track>, told: seq<Observation>,
                          i: nat, j: nat)
    requires Run(cfg, sqrt, xs, st, told) && i < j < |xs| && told[i].Accepted? && told[j].Accepted?
    ensures xs[i].Plausible() && xs[j].Plausible() && xs[i].Mid() < xs[j].Mid()
  {
    RunTrace(cfg, sqrt, xs, st, told);
    TraceMidpoints(cfg, xs, st, told, i, j);
  }

  lemma TraceMidpoints(cfg: Config, xs: seq<Exchange>, st: seq<Track>, told: seq<Observation>, i: nat, j: nat)
    requires Trace(cfg, xs, st, told) && i < j < |xs| && told[i].Accepted? && told[j].Accepted?
    ensures xs[i].Plausible() && xs[j].Plausible() && xs[i].Mid() < xs[j].Mid()
  {
    LastStep(cfg, st[i], xs[i], st[i + 1], told[i]);
    LastGrows(cfg, xs, st, told, i + 1, j);
    LastStep(cfg, st[j], xs[j], st[j + 1], told[j]);
  }

  // ----- The window -----

  /** The in-order round trips among the first k exchanges since the last restart, oldest first. */
  ghost function Heard(xs: seq<Exchange>, told: seq<Observation>, k: nat): seq<nat>
    requires k <= |xs| == |told|
  {
    if k == 0 then [] else HeardNext(Heard(xs, told, k - 1), xs[k - 1], told[k - 1])
  }

  lemma NewestAgain(s: seq<nat>, r: nat, n: nat)
    requires n > 0
    ensures Newest(Newest(s, n) + [r], n) == Newest(s + [r], n)
  {
  }

  lemma {:induction false} TraceWindow(cfg: Config, xs: seq<Exchange>, st: seq<Track>, told: seq<Observation>, k: nat)
    requires Trace(cfg, xs, st, told) && k <= |xs|
    ensures st[k].rtts == Newest(Heard(xs, told, k), cfg.Window())
  {
    if k > 0 {
      TraceWindow(cfg, xs, st, told, k - 1);
      assert Moves(cfg, st[k - 1], xs[k - 1], st[k], told[k - 1]);
      WindowStep(cfg, st[k - 1].rtts, xs[k - 1], st[k].rtts, told[k - 1], Heard(xs, told, k - 1));
    }
  }

  /** The round trips heard once an exchange has been told o. */
  ghost function HeardNext(before: seq<nat>, x: Exchange, o: Observation): seq<nat> {
    if Unheard(o) || !x.Plausible() then before
    else if Restarts(o) then [x.Rtt()]
    else before + [x.Rtt()]
  }

  lemma WindowStep(cfg: Config, w: seq<nat>, x: Exchange, w': seq<nat>, o: Observation, before: seq<nat>)
    requires MovesWindow(cfg, w, x, w', o) && w == Newest(before, cfg.Window())
    ensures w' == Newest(HeardNext(before, x, o), cfg.Window())
  {
    if !Unheard(o) { NewestAgain(before, x.Rtt(), cfg.Window()); }
    if Restarts(o) { NewestOfFew([x.Rtt()], cfg.Window()); }
  }

  /**
   * At every point of a run the suspect counter is 0 or 1 and the window is the newest in-order round trips since the
   * last restart.
   */
  lemma RunIsOrderly(cfg: Config, sqrt: real -> real, xs: seq<Exchange>, st: seq<Track>, told: seq<Observation>, k: nat)
    requires Run(cfg, sqrt, xs, st, told) && k <= |xs|
    ensures Orderly(cfg, st[k]) && st[k].rtts == Newest(Heard(xs, told, k), cfg.Window())
  {
    RunTrace(cfg, sqrt, xs, st, told);
    TraceIsOrderly(cfg, xs, st, told, k);
    TraceWindow(cfg, xs, st, told, k);
  }

  /** The floor an exchange is measured against never exceeds its own round trip. */
  lemma FloorBelowRtt(cfg: Config, s: Track, x: Exchange)
    requires x.Plausible()
    ensures Floor(Windowed(cfg, s, x.Rtt()).rtts) <= x.Rtt()
  {
    var w := Windowed(cfg, s, x.Rtt()).rtts;
    assert w[|w| - 1] == x.Rtt() && x.Rtt() in w;
  }

  // ----- Restarts -----

  /** The last of the first k exchanges that got past the gates was held back as a possible step. */
  ghost predicate LastHeldBack(told: seq<Observation>, k: nat)
    requires k <= |told|
  {
    k > 0 && if Gatekept(told[k - 1]) then LastHeldBack(told, k - 1) else HeldBack(told[k - 1])
  }

  lemma {:induction false} SuspectMeansStep(cfg: Config, xs: seq<Exchange>, st: seq<Track>, told: seq<Observation>,
                                            k: nat)
    requires Trace(cfg, xs, st, told) && k <= |xs|
    ensures st[k].suspect == 1 <==> LastHeldBack(told, k)
  {
    if k > 0 {
      SuspectMeansStep(cfg, xs, st, told, k - 1);
      TraceIsOrderly(cfg, xs, st, told, k - 1);
      SuspectStep(cfg, st[k - 1], xs[k - 1], st[k], told[k - 1]);
    }
  }

  lemma SuspectStep(cfg: Config, s: Track, x: Exchange, s': Track, o: Observation)
    requires Orderly(cfg, s) && Moves(cfg, s, x, s', o)
    ensures s'.suspect == 1 <==> if Gatekept(o) then s.suspect == 1 else HeldBack(o)
  {
  }

  /**
   * A restart comes right after a step rejection among the exchanges past the gates, and no step rejection follows
   * another.
   */
  lemma RestartFollowsStep(cfg: Config, sqrt: real -> real, xs: seq<Exchange>, st: seq<Track>, told: seq<Observation>,
                           k: nat)
    requires Run(cfg, sqrt, xs, st, told) && k < |xs|
    ensures Restarts(told[k]) ==> LastHeldBack(told, k)
    ensures HeldBack(told[k]) ==> !LastHeldBack(told, k)
  {
    RunTrace(cfg, sqrt, xs, st, told);
    SuspectMeansStep(cfg, xs, st, told, k);
    TraceIsOrderly(cfg, xs, st, told, k);
    assert Moves(cfg, st[k], xs[k], st[k + 1], told[k]);
  }

  // ----- The filter -----

  /** The filter's covariance is semidefinite over every run. */
  lemma {:induction false} RunKeepsCovariance(cfg: Config, sqrt: real -> real, xs: seq<Exchange>, st: seq<Track>,
                                              told: seq<Observation>, k: nat)
    requires Sensible(cfg) && Run(cfg, sqrt, xs, st, told) && k <= |xs|
    ensures Semidefinite(st[k].filter) && Noisy(st[k].filter)
  {
    if k == 0 {
      assert Form(1.0, 0.0, 0.000001);
    } else {
      RunKeepsCovariance(cfg, sqrt, xs, st, told, k - 1);
      assert (st[k], told[k - 1]) == Observed(cfg, sqrt, st[k - 1], xs[k - 1]);
      FilterStep(cfg, sqrt, st[k - 1], xs[k - 1]);
    }
  }

  lemma FilterStep(cfg: Config, sqrt: real -> real, s: Track, x: Exchange)
    requires Sensible(cfg) && Semidefinite(s.filter) && Noisy(s.filter)
    ensures var f := Observed(cfg, sqrt, s, x).0.filter; Semidefinite(f) && Noisy(f)
  {
    GatedKeeps(cfg, s, x);
    var gate := Gated(cfg, s, x);
    if gate.1.Passes? { ConcludedKeeps(cfg, sqrt, gate.0, x, gate.1.excess as real); }
  }

  /** The gates leave the filter alone, and let through only in-order exchanges with a non-negative excess. */
  lemma GatedKeeps(cfg: Config, s: Track, x: Exchange)
    ensures var (w, g) := Gated(cfg, s, x);
            && w.filter == s.filter && w.accepted == s.accepted && w.last == s.last
            && (g.Passes? ==> x.Plausible() && g.excess >= 0 && (w.accepted > 0 ==> x.Mid() >= w.last))
  {
    if x.Plausible() { FloorBelowRtt(cfg, s, x); }
  }

  lemma ConcludedKeeps(cfg: Config, sqrt: real -> real, w: Track, x: Exchange, excess: real)
    requires Sensible(cfg) && Semidefinite(w.filter) && Noisy(w.filter) && x.Plausible() && excess >= 0.0
    requires w.accepted > 0 ==> x.Mid() >= w.last
    ensures var f := Concluded(cfg, sqrt, w, x, excess).0.filter; Semidefinite(f) && Noisy(f)
  {
    JudgedCases(cfg, sqrt, w, x, excess);
    var judged := Judged(cfg, sqrt, w, x, excess);
    JudgedKeeps(cfg, w, x, judged.0, judged.1);
    AbsorbKeeps(cfg, judged.0, x, x.Twist().offset, excess);
  }

  lemma JudgedKeeps(cfg: Config, w: Track, x: Exchange, j: Track, v: Verdict)
    requires JudgeCase(cfg, w, x, j, v)
    ensures j.filter == w.filter && j.last == w.last && (j.accepted > 0 ==> w.accepted > 0)
  {
  }

  lemma AbsorbKeeps(cfg: Config, s: Track, x: Exchange, o: int, excess: real)
    requires Sensible(cfg) && Semidefinite(s.filter) && Noisy(s.filter) && x.Plausible() && excess >= 0.0
    requires s.accepted > 0 ==> x.Mid() >= s.last
    ensures var f := Absorbed(cfg, s, x, o, excess); Semidefinite(f) && Noisy(f)
  {
    var r := Variance(cfg, s.accepted, x.Rtt(), excess);
    VarianceNonNegative(cfg, s.accepted, x.Rtt(), excess);
    if s.accepted == 0 {
      FirstKeeps(r, cfg.priorDrift);
    } else {
      var dt := Seconds(x.Mid() - s.last);
      PredictKeeps(s.filter, dt);
      UpdateKeeps(Predicted(s.filter, dt), Seconds(o - s.base), r);
    }
  }

  lemma FirstKeeps(r: real, d: real)
    requires r >= 0.0
    ensures Form(r, 0.0, d * d)
  {
    assert d * d >= 0.0;
    assert r * (d * d) >= 0.0;
  }

  /** The variance is a square. */
  lemma VarianceNonNegative(cfg: Config, accepted: nat, rtt: nat, excess: real)
    ensures Variance(cfg, accepted, rtt, excess) >= 0.0
  {
    var sigma := (cfg.stampNoise + if accepted < cfg.warmup then rtt as real / 2.0 else excess / 2.0) / NANO;
    var e := V.SquareGap(sigma);
  }

  /** The two clamps: the prediction's variance and the reported spreads are taken of non-negative numbers. */
  lemma ClampsNeverAct(cfg: Config, sqrt: real -> real, xs: seq<Exchange>, st: seq<Track>, told: seq<Observation>,
                       k: nat, dt: real)
    requires Sensible(cfg) && Run(cfg, sqrt, xs, st, told) && k <= |xs|
    ensures var f := st[k].filter;
            Max(Carried(f, dt), 0.0) == Carried(f, dt) && Max(f.p00, 0.0) == f.p00 && Max(f.p11, 0.0) == f.p11
  {
    RunKeepsCovariance(cfg, sqrt, xs, st, told, k);
    CarriedNonNegative(st[k].filter, dt);
  }

  // ----- Popcorn -----

  lemma NewestOfFew(s: seq<nat>, n: nat)
    requires |s| <= n
    ensures Newest(s + [], n) == s == Newest(s, n)
  {
  }

  /** Every exchange of the stretch that reaches the window is a spike. */
  ghost predicate Spiky(told: seq<Observation>, a: nat, b: nat)
    requires a <= b <= |told|
  {
    forall i :: a <= i < b ==> Unheard(told[i]) || Spiked(told[i])
  }

  /** The round trips of exchanges a .. b - 1 that reach the window. */
  ghost function HeardFrom(xs: seq<Exchange>, told: seq<Observation>, a: nat, b: nat): seq<nat>
    requires a <= b <= |xs| == |told|
    decreases b
  {
    if a == b then [] else
      HeardFrom(xs, told, a, b - 1) + if Hears(xs, told, b - 1) then [xs[b - 1].Rtt()] else []
  }

  predicate Hears(xs: seq<Exchange>, told: seq<Observation>, i: nat)
    requires i < |xs| == |told|
  {
    !Unheard(told[i]) && xs[i].Plausible()
  }

  lemma {:induction false} HeardSplits(xs: seq<Exchange>, told: seq<Observation>, a: nat, b: nat)
    requires a <= b <= |xs| == |told| && Spiky(told, a, b)
    ensures Heard(xs, told, b) == Heard(xs, told, a) + HeardFrom(xs, told, a, b)
    decreases b
  {
    if a < b {
      HeardSplits(xs, told, a, b - 1);
    } else {
      assert Heard(xs, told, a) + [] == Heard(xs, told, a);
    }
  }

  lemma {:induction false} HeardFromHolds(xs: seq<Exchange>, told: seq<Observation>, a: nat, b: nat, r: nat)
    returns (i: nat)
    requires a <= b <= |xs| == |told| && r in HeardFrom(xs, told, a, b)
    ensures a <= i < b && Hears(xs, told, i) && xs[i].Rtt() == r
    decreases b
  {
    if Hears(xs, told, b - 1) && xs[b - 1].Rtt() == r {
      i := b - 1;
    } else {
      i := HeardFromHolds(xs, told, a, b - 1, r);
    }
  }

  /** The last exchange of the stretch to reach the window. */
  lemma {:induction false} LastHeard(xs: seq<Exchange>, told: seq<Observation>, a: nat, b: nat) returns (i: nat)
    requires a <= b <= |xs| == |told| && HeardFrom(xs, told, a, b) != []
    ensures a <= i < b && Hears(xs, told, i) && HeardFrom(xs, told, a, i + 1) == HeardFrom(xs, told, a, b)
    decreases b
  {
    if Hears(xs, told, b - 1) { i := b - 1; } else { i := LastHeard(xs, told, a, b - 1); }
  }

  ghost predicate WithinAllowance(cfg: Config, rtt: int, floor: int) {
    floor >= 0 && (rtt - floor) as real <= cfg.Allowance(floor)
  }

  /** Each round trip of the stretch that reaches the window is within the allowance of every other as the floor. */
  ghost predicate Settled(cfg: Config, xs: seq<Exchange>, told: seq<Observation>, a: nat, b: nat)
    requires a <= b <= |xs| == |told|
  {
    forall i, j :: a <= i < b && a <= j < b && Hears(xs, told, i) && Hears(xs, told, j) ==>
      WithinAllowance(cfg, xs[i].Rtt(), xs[j].Rtt())
  }

  /** A popcorn rejection means the round trip is past the allowance over the least of the window. */
  lemma SpikeIsFar(cfg: Config, sqrt: real -> real, s: Track, x: Exchange)
    requires Spiked(Observed(cfg, sqrt, s, x).1)
    ensures x.Plausible() && Observed(cfg, sqrt, s, x).0.rtts != []
    ensures !WithinAllowance(cfg, x.Rtt(), Floor(Observed(cfg, sqrt, s, x).0.rtts))
  {
  }

  lemma RunSpikeIsFar(cfg: Config, sqrt: real -> real, xs: seq<Exchange>, st: seq<Track>, told: seq<Observation>,
                      k: nat, w: seq<nat>)
    requires Run(cfg, sqrt, xs, st, told) && k < |xs| && Spiked(told[k]) && w == st[k + 1].rtts
    ensures w != [] && !WithinAllowance(cfg, xs[k].Rtt(), Floor(w))
  {
    SpikeIsFar(cfg, sqrt, st[k], xs[k]);
  }

  /**
   * After a lasting path change the track rejects at most window - 1 exchanges as spikes before one passes, whatever
   * implausible or out-of-order ones come in between.
   */
  lemma PopcornEnds(cfg: Config, sqrt: real -> real, xs: seq<Exchange>, st: seq<Track>, told: seq<Observation>, a: nat,
                    b: nat)
    requires Run(cfg, sqrt, xs, st, told) && a <= b <= |xs| && Spiky(told, a, b) && Settled(cfg, xs, told, a, b)
    ensures |HeardFrom(xs, told, a, b)| <= cfg.Window() - 1
  {
    if |HeardFrom(xs, told, a, b)| >= cfg.Window() {
      var k := LastHeard(xs, told, a, b);
      WindowIsStretch(cfg, sqrt, xs, st, told, a, k + 1);
      var w := st[k + 1].rtts;
      RunSpikeIsFar(cfg, sqrt, xs, st, told, k, w);
      SettledIsNear(cfg, xs, told, a, b, k, w);
    }
  }

  /** Once that many have reached it, the window holds round trips of the stretch only. */
  lemma WindowIsStretch(cfg: Config, sqrt: real -> real, xs: seq<Exchange>, st: seq<Track>, told: seq<Observation>,
                        a: nat, k: nat)
    requires Run(cfg, sqrt, xs, st, told) && a <= k <= |xs| && Spiky(told, a, k)
    requires |HeardFrom(xs, told, a, k)| >= cfg.Window()
    ensures forall r :: r in st[k].rtts ==> r in HeardFrom(xs, told, a, k)
  {
    RunIsOrderly(cfg, sqrt, xs, st, told, k);
    HeardSplits(xs, told, a, k);
    NewestOfSuffix(Heard(xs, told, a), HeardFrom(xs, told, a, k), cfg.Window());
  }

  lemma NewestOfSuffix(before: seq<nat>, mine: seq<nat>, n: nat)
    requires |mine| >= n
    ensures forall r :: r in Newest(before + mine, n) ==> r in mine
  {
    var all := before + mine;
    forall r | r in Newest(all, n)
      ensures r in mine
    {
      var i :| 0 <= i < n && Newest(all, n)[i] == r;
      var j := |mine| - n + i;
      assert Newest(all, n)[i] == all[|before| + j] == mine[j];
    }
  }

  lemma SettledIsNear(cfg: Config, xs: seq<Exchange>, told: seq<Observation>, a: nat, b: nat, k: nat, w: seq<nat>)
    requires a <= k < b <= |xs| == |told| && Settled(cfg, xs, told, a, b) && Hears(xs, told, k)
    requires w != [] && forall r :: r in w ==> r in HeardFrom(xs, told, a, k + 1)
    ensures WithinAllowance(cfg, xs[k].Rtt(), Floor(w))
  {
    var i := HeardFromHolds(xs, told, a, k + 1, Floor(w));
  }
}
