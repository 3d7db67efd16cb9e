/** A peer whose clock is off by as much the other way is tracked the same, with every sign turned. */
module TrackSymmetry {
  import opened Basics
  import opened Twist
  import opened Kalman
  import opened PeerTrack
  import opened TrackRuns

  // ----- Turning signs -----

  function Turned(f: Filter): Filter {
    f.(x0 := -f.x0, x1 := -f.x1)
  }

  function TurnedTwist(tw: TwistIndex): TwistIndex {
    tw.(offset := -tw.offset, asymmetry := -tw.asymmetry)
  }

  /** The track of the opposite peer. */
  function TurnedTrack(s: Track): Track {
    s.(base := -s.base, filter := Turned(s.filter),
       twist := match s.twist case None => None case Some(tw) => Some(TurnedTwist(tw)))
  }

  function TurnedRelation(r: Relation): Relation {
    r.(offset := -r.offset, drift := -r.drift)
  }

  function TurnedObservation(o: Observation): Observation {
    match o
    case Accepted(tw, r, restarted) => Accepted(TurnedTwist(tw), TurnedRelation(r), restarted)
    case Rejected(Step(jump)) => Rejected(Step(-jump))
    case Rejected(_) => o
  }

  /** The two legs of the exchange change places. */
  ghost predicate Opposite(x: Exchange, y: Exchange) {
    && y.t1 == x.t1 && y.t4 == x.t4 && y.t2 - y.t1 == x.t4 - x.t3 && y.t4 - y.t3 == x.t2 - x.t1
    && x.Twist().offset != -TWO63 && x.Twist().asymmetry != -TWO63
  }

  // ----- The exchange -----

  lemma OppositeReads(x: Exchange, y: Exchange)
    requires Opposite(x, y)
    ensures y.Span() == x.Span() && y.Rtt() == x.Rtt() && y.Plausible() == x.Plausible()
    ensures y.Twist() == TurnedTwist(x.Twist())
  {
    LegsTurn(x.t2 - x.t1, x.t4 - x.t3);
    TwistIs(x, x.t2 - x.t1, x.t4 - x.t3);
    TwistIs(y, x.t4 - x.t3, x.t2 - x.t1);
  }

  /** The twist in terms of the two legs. */
  lemma TwistIs(x: Exchange, f: int, g: int)
    requires f == x.t2 - x.t1 && g == x.t4 - x.t3
    ensures x.Span() == f + g && x.Twist() == TwistIndex((f + g) % TWO64, AsI64(TDiv(f - g, 2)), AsI64(f - g), 100, 0)
  {
  }

  lemma LegsTurn(f: int, g: int)
    requires AsI64(TDiv(f - g, 2)) != -TWO63 && AsI64(f - g) != -TWO63
    ensures AsI64(TDiv(g - f, 2)) == -AsI64(TDiv(f - g, 2)) && AsI64(g - f) == -AsI64(f - g)
  {
    HalvesTurn(f - g);
    CastTurns(TDiv(f - g, 2));
    CastTurns(f - g);
  }

  lemma HalvesTurn(v: int)
    ensures TDiv(-v, 2) == -TDiv(v, 2)
  {
  }

  /** The cast keeps the sign of all but the least number. */
  lemma CastTurns(v: int)
    requires AsI64(v) != -TWO63
    ensures AsI64(-v) == -AsI64(v)
  {
    var q, r := v / TWO64, v % TWO64;
    if r == 0 { QuotientUnique(-v, TWO64, -q, 0); } else { QuotientUnique(-v, TWO64, -q - 1, TWO64 - r); }
  }

  // ----- The filter -----

  lemma SteppedTurns(f: Filter, dt: real, z: real, r: real)
    ensures Stepped(Turned(f), dt, -z, r) == Turned(Stepped(f, dt, z, r))
  {
    PredictedTurns(f, dt);
    UpdatedTurns(Predicted(f, dt), z, r);
  }

  lemma PredictedTurns(f: Filter, dt: real)
    ensures Predicted(Turned(f), dt) == Turned(Predicted(f, dt))
  {
    PredictedIs(f.x0, f.x1, f.p00, f.p01, f.p11, f.qOffset, f.qDrift, dt);
    PredictedIs(-f.x0, -f.x1, f.p00, f.p01, f.p11, f.qOffset, f.qDrift, dt);
    DriftTurns(f.x0, f.x1, dt, f.x0 + f.x1 * dt, -f.x0 + (-f.x1) * dt);
  }

  lemma UpdatedTurns(g: Filter, z: real, r: real)
    ensures Updated(Turned(g), -z, r) == Turned(Updated(g, z, r))
  {
    var s := g.p00 + r;
    if !(-TINY < s < TINY) { CorrectedTurns(g, g.p00 / s, g.p01 / s, z - g.x0); }
  }

  lemma CorrectedTurns(g: Filter, k0: real, k1: real, e: real)
    ensures Corrected(Turned(g), k0, k1, -e) == Turned(Corrected(g, k0, k1, e))
  {
    SumTurns(g.x0, e, k0);
    SumTurns(g.x1, e, k1);
  }

  lemma DriftTurns(a: real, b: real, k: real, x: real, y: real)
    requires x == a + b * k && y == -a + (-b) * k
    ensures y == -x
  {
    ProductTurns(b, k);
  }

  lemma SumTurns(a: real, b: real, k: real)
    ensures -a + (-b) * k == -(a + b * k) == -a + k * (-b) == -(a + k * b)
  {
  }

  lemma ProductTurns(a: real, b: real)
    ensures (-a) * b == -(a * b)
  {
  }

  // ----- The track -----

  lemma GatedTurns(cfg: Config, s: Track, x: Exchange, y: Exchange)
    requires Opposite(x, y)
    ensures Gated(cfg, TurnedTrack(s), y) == (TurnedTrack(Gated(cfg, s, x).0), Gated(cfg, s, x).1)
  {
    OppositeReads(x, y);
    GatesTurn(cfg, s, x, y);
  }

  lemma GatesTurn(cfg: Config, s: Track, x: Exchange, y: Exchange)
    requires y.Plausible() == x.Plausible() && y.Rtt() == x.Rtt() && y.t1 == x.t1 && y.t4 == x.t4
    ensures Gated(cfg, TurnedTrack(s), y) == (TurnedTrack(Gated(cfg, s, x).0), Gated(cfg, s, x).1)
  {
    if x.Plausible() && !(s.accepted > 0 && x.Mid() <= s.last) {
      WindowedTurns(cfg, s, x.Rtt());
      SiftedTurns(cfg, Windowed(cfg, s, x.Rtt()), x.Rtt());
    }
  }

  lemma WindowedTurns(cfg: Config, s: Track, rtt: nat)
    ensures Windowed(cfg, TurnedTrack(s), rtt) == TurnedTrack(Windowed(cfg, s, rtt))
  {
  }

  lemma SiftedTurns(cfg: Config, w: Track, rtt: nat)
    requires w.rtts != []
    ensures var (t, gate) := GatedWindow(cfg, w, rtt); GatedWindow(cfg, TurnedTrack(w), rtt) == (TurnedTrack(t), gate)
  {
  }

  lemma JumpTurns(base: int, f: Filter, offset: int, dt: real)
    ensures Jump(-base, Turned(f), -offset, dt) == -Jump(base, f, offset, dt)
  {
    ProductTurns(f.x1, dt);
    ProductTurns(f.x0 + f.x1 * dt, NANO);
  }

  lemma SteppingTurns(cfg: Config, sqrt: real -> real, f: Filter, jump: real, dt: real, excess: real)
    ensures Stepping(cfg, sqrt, Turned(f), -jump, dt, excess) == Stepping(cfg, sqrt, f, jump, dt, excess)
  {
    assert Carried(Turned(f), dt) == Carried(f, dt);
  }

  function TurnedVerdict(v: Verdict): Verdict {
    if v.Suspected? then Suspected(-v.jump) else v
  }

  lemma JudgedTurns(cfg: Config, sqrt: real -> real, w: Track, x: Exchange, y: Exchange, excess: real)
    requires x.Plausible() && y.Plausible() && y.Mid() == x.Mid() && y.Rtt() == x.Rtt()
    requires y.Twist().offset == -x.Twist().offset
    ensures var (j, v) := Judged(cfg, sqrt, w, x, excess);
            Judged(cfg, sqrt, TurnedTrack(w), y, excess) == (TurnedTrack(j), TurnedVerdict(v))
  {
    var dt := Seconds(x.Mid() - w.last);
    var jump := Jump(w.base, w.filter, x.Twist().offset, dt);
    JumpTurns(w.base, w.filter, x.Twist().offset, dt);
    SteppingTurns(cfg, sqrt, w.filter, jump, dt, excess);
  }

  lemma AbsorbedTurns(cfg: Config, s: Track, x: Exchange, y: Exchange, o: int, excess: real)
    requires x.Plausible() && y.Plausible() && y.Mid() == x.Mid() && y.Rtt() == x.Rtt()
    ensures Absorbed(cfg, TurnedTrack(s), y, -o, excess) == Turned(Absorbed(cfg, s, x, o, excess))
  {
    if s.accepted > 0 {
      SecondsTurn(o - s.base);
      var r := Variance(cfg, s.accepted, x.Rtt(), excess);
      SteppedTurns(s.filter, Seconds(x.Mid() - s.last), Seconds(o - s.base), r);
    }
  }

  lemma SecondsTurn(ns: int)
    ensures Seconds(-ns) == -Seconds(ns)
  {
  }

  lemma GrownTurns(s: Track, x: Exchange, y: Exchange, tw: TwistIndex, f: Filter)
    requires x.Plausible() && y.Plausible() && y.Mid() == x.Mid()
    ensures Grown(TurnedTrack(s), y, TurnedTwist(tw), Turned(f)) == TurnedTrack(Grown(s, x, tw, f))
  {
  }

  lemma RelatedTurns(sqrt: real -> real, s: Track)
    ensures Related(sqrt, TurnedTrack(s)) == TurnedRelation(Related(sqrt, s))
  {
    ProductTurns(s.filter.x0, NANO);
  }

  lemma ConcludedTurns(cfg: Config, sqrt: real -> real, w: Track, x: Exchange, y: Exchange, excess: real)
    requires x.Plausible() && y.Plausible() && y.Mid() == x.Mid() && y.Rtt() == x.Rtt()
    requires y.Twist() == TurnedTwist(x.Twist())
    ensures var (t, o) := Concluded(cfg, sqrt, w, x, excess);
            Concluded(cfg, sqrt, TurnedTrack(w), y, excess) == (TurnedTrack(t), TurnedObservation(o))
  {
    JudgedTurns(cfg, sqrt, w, x, y, excess);
    var judged, tw := Judged(cfg, sqrt, w, x, excess), x.Twist();
    var f := Absorbed(cfg, judged.0, x, tw.offset, excess);
    var grown := Grown(judged.0, x, tw, f);
    AbsorbedTurns(cfg, judged.0, x, y, tw.offset, excess);
    GrownTurns(judged.0, x, y, tw, f);
    RelatedTurns(sqrt, grown);
    SettleTurns(judged, grown, Accepted(tw, Related(sqrt, grown), judged.1.Clear? && judged.1.restarted));
  }

  lemma SettleTurns(judged: (Track, Verdict), grown: Track, o: Observation)
    requires o.Accepted?
    ensures var (t, told) := Settle(judged, grown, o);
            Settle((TurnedTrack(judged.0), TurnedVerdict(judged.1)), TurnedTrack(grown), TurnedObservation(o))
            == (TurnedTrack(t), TurnedObservation(told))
  {
  }

  /** One exchange with the opposite peer: the same verdict, with the jump and everything reported turned. */
  lemma ObservedTurns(cfg: Config, sqrt: real -> real, s: Track, x: Exchange, y: Exchange)
    requires Opposite(x, y)
    ensures var (t, o) := Observed(cfg, sqrt, s, x);
            Observed(cfg, sqrt, TurnedTrack(s), y) == (TurnedTrack(t), TurnedObservation(o))
  {
    OppositeReads(x, y);
    GatedTurns(cfg, s, x, y);
    GatedCases(cfg, s, x);
    var gate := Gated(cfg, s, x);
    if gate.1.Passes? { ConcludedTurns(cfg, sqrt, gate.0, x, y, gate.1.excess as real); }
  }

  /** The exchanges of two runs, each the opposite of the other. */
  ghost predicate AllOpposite(xs: seq<Exchange>, ys: seq<Exchange>) {
    |xs| == |ys| && forall i :: 0 <= i < |xs| ==> Opposite(xs[i], ys[i])
  }

  /** Over a whole run the opposite peer is told the same, turned. */
  lemma RunTurns(cfg: Config, sqrt: real -> real, xs: seq<Exchange>, st: seq<Track>, told: seq<Observation>,
                 ys: seq<Exchange>, st': seq<Track>, told': seq<Observation>, k: nat)
    requires TrackRuns.Run(cfg, sqrt, xs, st, told) && TrackRuns.Run(cfg, sqrt, ys, st', told')
    requires AllOpposite(xs, ys) && k < |xs|
    ensures told'[k] == TurnedObservation(told[k]) && st'[k + 1] == TurnedTrack(st[k + 1])
  {
    StatesTurn(cfg, sqrt, xs, st, told, ys, st', told', k);
    RunStepTurns(cfg, sqrt, xs, st, told, ys, st', told', k);
  }

  lemma {:induction false} StatesTurn(cfg: Config, sqrt: real -> real, xs: seq<Exchange>, st: seq<Track>,
                                      told: seq<Observation>, ys: seq<Exchange>, st': seq<Track>,
                                      told': seq<Observation>, k: nat)
    requires TrackRuns.Run(cfg, sqrt, xs, st, told) && TrackRuns.Run(cfg, sqrt, ys, st', told')
    requires AllOpposite(xs, ys) && k <= |xs|
    ensures st'[k] == TurnedTrack(st[k])
  {
    if k > 0 {
      StatesTurn(cfg, sqrt, xs, st, told, ys, st', told', k - 1);
      RunStepTurns(cfg, sqrt, xs, st, told, ys, st', told', k - 1);
    }
  }

  lemma RunStepTurns(cfg: Config, sqrt: real -> real, xs: seq<Exchange>, st: seq<Track>, told: seq<Observation>,
                     ys: seq<Exchange>, st': seq<Track>, told': seq<Observation>, k: nat)
    requires TrackRuns.Run(cfg, sqrt, xs, st, told) && TrackRuns.Run(cfg, sqrt, ys, st', told') && |xs| == |ys|
    requires k < |xs| && Opposite(xs[k], ys[k]) && st'[k] == TurnedTrack(st[k])
    ensures st'[k + 1] == TurnedTrack(st[k + 1]) && told'[k] == TurnedObservation(told[k])
  {
    StepTurns(cfg, sqrt, st[k], xs[k], ys[k], st[k + 1], told[k], st'[k + 1], told'[k]);
  }

  lemma StepTurns(cfg: Config, sqrt: real -> real, s: Track, x: Exchange, y: Exchange, t: Track, o: Observation,
                  t': Track, o': Observation)
    requires Opposite(x, y) && (t, o) == Observed(cfg, sqrt, s, x)
    requires (t', o') == Observed(cfg, sqrt, TurnedTrack(s), y)
    ensures t' == TurnedTrack(t) && o' == TurnedObservation(o)
  {
    ObservedTurns(cfg, sqrt, s, x, y);
  }

  // ----- A steady peer -----

  /** Nothing suspected, no drift, and once started at the offset c. */
  predicate At(s: Track, c: int) {
    s.suspect == 0 && s.filter.x0 == 0.0 && s.filter.x1 == 0.0 && (s.accepted > 0 ==> s.base == c)
  }

  /** Turned away by a gate, or accepted at the offset c with no drift and no restart. */
  predicate ToldOf(o: Observation, c: int) {
    if o.Rejected? then Gatekept(o)
    else !o.restarted && o.twist.offset == c && o.relation.offset == c as real && o.relation.drift == 0.0
  }

  /** A reading that is what the track holds moves neither offset nor drift. */
  lemma SteppedStays(f: Filter, dt: real, r: real)
    requires f.x0 == 0.0 && f.x1 == 0.0
    ensures var g := Stepped(f, dt, 0.0, r); g.x0 == 0.0 && g.x1 == 0.0
  {
  }

  lemma NeverStepping(cfg: Config, sqrt: real -> real, s: Track, dt: real, excess: real, c: int)
    requires At(s, c) && s.base == c && cfg.stepNs >= 0.0
    ensures !Stepping(cfg, sqrt, s.filter, Jump(s.base, s.filter, c, dt), dt, excess)
  {
    assert Jump(s.base, s.filter, c, dt) == 0.0;
  }

  lemma ConcludedAt(cfg: Config, sqrt: real -> real, s: Track, x: Exchange, excess: real, c: int)
    requires At(s, c) && cfg.stepNs >= 0.0 && cfg.warmup > 0 && x.Plausible() && x.Twist().offset == c
    ensures var (t, o) := Concluded(cfg, sqrt, s, x, excess); At(t, c) && ToldOf(o, c)
  {
    var dt := Seconds(x.Mid() - s.last);
    if s.accepted > 0 {
      NeverStepping(cfg, sqrt, s, dt, excess, c);
      SteppedStays(s.filter, dt, Variance(cfg, s.accepted, x.Rtt(), excess));
    }
  }

  lemma ObservedAt(cfg: Config, sqrt: real -> real, s: Track, x: Exchange, c: int)
    requires At(s, c) && cfg.stepNs >= 0.0 && cfg.warmup > 0 && (x.Plausible() ==> x.Twist().offset == c)
    ensures var (t, o) := Observed(cfg, sqrt, s, x); At(t, c) && ToldOf(o, c)
  {
    GatedCases(cfg, s, x);
    var gate := Gated(cfg, s, x);
    if gate.1.Passes? { ConcludedAt(cfg, sqrt, gate.0, x, gate.1.excess as real, c); }
  }

  /**
   * A peer whose every plausible exchange reads the same offset is never taken for stepping and never restarted,
   * however its round trips vary, and each accepted exchange reports that offset with no drift.
   */
  lemma {:induction false} SteadyPeerStays(cfg: Config, sqrt: real -> real, xs: seq<Exchange>, st: seq<Track>,
                                           told: seq<Observation>, c: int, k: nat)
    requires TrackRuns.Run(cfg, sqrt, xs, st, told) && cfg.stepNs >= 0.0 && cfg.warmup > 0 && k <= |xs|
    requires forall i :: 0 <= i < |xs| && xs[i].Plausible() ==> xs[i].Twist().offset == c
    ensures At(st[k], c) && forall i :: 0 <= i < k ==> ToldOf(told[i], c)
  {
    if k > 0 {
      SteadyPeerStays(cfg, sqrt, xs, st, told, c, k - 1);
      assert (st[k], told[k - 1]) == Observed(cfg, sqrt, st[k - 1], xs[k - 1]);
      ObservedAt(cfg, sqrt, st[k - 1], xs[k - 1], c);
    }
  }
}
