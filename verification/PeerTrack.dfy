/** One peer's track: the round-trip gate, the step detector and the restart, driving a clock filter. */
module PeerTrack {
  import opened Basics
  import opened Twist
  import opened Kalman

  datatype Config = Config(stampNoise: real, qOffset: real, qDrift: real, priorDrift: real, floorWindow: nat,
                           popcornNs: real, popcornRatio: real, warmup: nat, stepNs: real)
  {
    function Window(): nat {
      if floorWindow > 1 then floorWindow else 1
    }

    /** The excess over a floor that is still let through. */
    function Allowance(floor: nat): real {
      Max(popcornNs, popcornRatio * floor as real)
    }

    /** A round trip this far over the floor, once warmed up, is a queue on one leg. */
    predicate Queued(accepted: nat, floor: nat, excess: int) {
      accepted >= warmup && excess as real > Allowance(floor)
    }
  }

  ghost predicate Sensible(cfg: Config) {
    cfg.qOffset >= 0.0 && cfg.qDrift >= 0.0
  }

  datatype Exchange = Exchange(t1: nat, t2: nat, t3: nat, t4: nat) {
    function Span(): int {
      (t4 - t1) - (t3 - t2)
    }

    /** The round trip, cast to 64 bits. */
    function Rtt(): nat {
      Span() % TWO64
    }

    function Mid(): nat
      requires t1 <= t4
    {
      t1 + (t4 - t1) / 2
    }

    function Twist(): TwistIndex {
      FromExchange(t1, t2, t3, t4)
    }

    predicate Plausible() {
      Span() > 0 && t1 <= t4
    }
  }

  datatype Reject = NonPositiveRtt | Popcorn(excess: int) | OutOfOrder | Step(jump: real)

  /** What a track says of its peer at an instant of our clock. */
  datatype Relation = Relation(at: nat, offset: real, drift: real, sigmaOffset: real, sigmaDrift: real)

  datatype Observation = Accepted(twist: TwistIndex, relation: Relation, restarted: bool) | Rejected(reason: Reject)

  datatype Track = Track(anchor: nat, base: int, last: nat, filter: Filter, rtts: seq<nat>, accepted: nat,
                         rejected: nat,
                         twist: Option<TwistIndex>, steps: nat, suspect: nat)

  const NANO := 1000000000.0

  function FreshFilter(): Filter {
    Filter(0.0, 0.0, 1.0, 0.0, 0.000001, 0.00000001, 0.000000000001)
  }

  function FreshTrack(): Track {
    Track(0, 0, 0, FreshFilter(), [], 0, 0, None, 0, 0)
  }

  /** The newest n round trips. */
  function Newest(s: seq<nat>, n: nat): seq<nat> {
    Trimmed(s, n)
  }

  ghost predicate Least(s: seq<nat>, m: nat) {
    m in s && forall r :: r in s ==> m <= r
  }

  lemma {:induction false} LeastExists(s: seq<nat>) returns (m: nat)
    requires s != []
    ensures Least(s, m)
  {
    var last := s[|s| - 1];
    assert s == s[..|s| - 1] + [last];
    if |s| == 1 { return last; }
    m := LeastExists(s[..|s| - 1]);
    if last < m { m := last; }
  }

  lemma SomeLeast(s: seq<nat>)
    requires s != []
    ensures exists m :: Least(s, m)
  {
    var m := LeastExists(s);
  }

  /** The windowed minimum round trip. */
  ghost function Floor(s: seq<nat>): (m: nat)
    requires s != []
    ensures Least(s, m)
  {
    SomeLeast(s);
    var m :| Least(s, m);
    m
  }

  // ----- The specification of one exchange -----

  /** The track once the round trip has joined the window. */
  function Windowed(cfg: Config, s: Track, rtt: nat): (w: Track)
    ensures w.rtts != []
  {
    s.(rtts := Newest(s.rtts + [rtt], cfg.Window()))
  }

  function Seconds(ns: int): real {
    ns as real / NANO
  }

  /** Measured minus predicted offset, ns. */
  function Jump(base: int, f: Filter, offset: int, dt: real): real {
    offset as real - (base as real + (f.x0 + f.x1 * dt) * NANO)
  }

  /** The spread of the prediction and of the exchange together, ns. */
  function Spread(cfg: Config, sqrt: real -> real, f: Filter, dt: real, excess: real): real {
    sqrt(Max(Carried(f, dt), 0.0)) * NANO + cfg.stampNoise + excess / 2.0
  }

  predicate Stepping(cfg: Config, sqrt: real -> real, f: Filter, jump: real, dt: real, excess: real) {
    AbsReal(jump) > Max(cfg.stepNs, 50.0 * Spread(cfg, sqrt, f, dt, excess))
  }

  /** The variance an exchange is absorbed with. */
  function Variance(cfg: Config, accepted: nat, rtt: nat, excess: real): real {
    var sigma := (cfg.stampNoise + if accepted < cfg.warmup then rtt as real / 2.0 else excess / 2.0) / NANO;
    sigma * sigma
  }

  datatype Verdict = Clear(restarted: bool) | Suspected(jump: real)

  /** The step detector: the first jump in a row is held back, the second restarts the track. */
  function Judged(cfg: Config, sqrt: real -> real, s: Track, x: Exchange, excess: real): (Track, Verdict)
    requires x.Plausible()
  {
    if s.accepted < cfg.warmup then (s, Clear(false)) else
      var dt := Seconds(x.Mid() - s.last);
      var jump := Jump(s.base, s.filter, x.Twist().offset, dt);
      if !Stepping(cfg, sqrt, s.filter, jump, dt, excess) then (s.(suspect := 0), Clear(false))
      else if s.suspect + 1 < 2 then (s.(suspect := s.suspect + 1), Suspected(jump))
      else (s.(suspect := 0, steps := s.steps + 1, accepted := 0, rtts := [x.Rtt()]), Clear(true))
  }

  /** The filter after an exchange of offset o: a fresh one for the first, a predict and update for the rest. */
  function Absorbed(cfg: Config, s: Track, x: Exchange, o: int, excess: real): Filter
    requires x.Plausible()
  {
    var r := Variance(cfg, s.accepted, x.Rtt(), excess);
    if s.accepted == 0 then Filter(0.0, 0.0, r, 0.0, cfg.priorDrift * cfg.priorDrift, cfg.qOffset, cfg.qDrift)
    else Kalman.Stepped(s.filter, Seconds(x.Mid() - s.last), Seconds(o - s.base), r)
  }

  /** The track once an exchange read as tw is absorbed into filter f. */
  function Grown(s: Track, x: Exchange, tw: TwistIndex, f: Filter): Track
    requires x.Plausible()
  {
    var first := s.accepted == 0;
    s.(anchor := if first then x.Mid() else s.anchor, base := if first then tw.offset else s.base,
       filter := f, last := x.Mid(), accepted := s.accepted + 1, twist := Some(tw))
  }

  /** The relation as of the last absorbed exchange: offset and spread in ns. */
  function Related(sqrt: real -> real, s: Track): Relation {
    Relation(s.last, s.base as real + s.filter.x0 * NANO, s.filter.x1,
             sqrt(Max(s.filter.p00, 0.0)) * NANO, sqrt(Max(s.filter.p11, 0.0)))
  }

  function Refused(s: Track): Track {
    s.(rejected := s.rejected + 1)
  }

  datatype Gate = Passes(excess: int) | Blocked(reason: Reject)

  /** The gates before the offset is looked at: sane stamps, in order, near the windowed floor. */
  ghost function Gated(cfg: Config, s: Track, x: Exchange): (g: (Track, Gate))
    ensures g.1.Passes? ==> x.Plausible()
  {
    if !x.Plausible() then (Refused(s), Blocked(NonPositiveRtt))
    else if s.accepted > 0 && x.Mid() <= s.last then (Refused(s), Blocked(OutOfOrder))
    else GatedWindow(cfg, Windowed(cfg, s, x.Rtt()), x.Rtt())
  }

  /** The gate against queues, once the round trip is in the window. */
  ghost function GatedWindow(cfg: Config, w: Track, rtt: nat): (Track, Gate)
    requires w.rtts != []
  {
    Sifted(cfg, w, rtt - Floor(w.rtts), Floor(w.rtts))
  }

  /** The gate against queues. */
  function Sifted(cfg: Config, w: Track, excess: int, floor: nat): (Track, Gate) {
    if cfg.Queued(w.accepted, floor, excess) then (Refused(w), Blocked(Popcorn(excess))) else (w, Passes(excess))
  }

  ghost function Observed(cfg: Config, sqrt: real -> real, s: Track, x: Exchange): (Track, Observation) {
    var gate := Gated(cfg, s, x);
    if gate.1.Blocked? then (gate.0, Rejected(gate.1.reason))
    else Concluded(cfg, sqrt, gate.0, x, gate.1.excess as real)
  }

  /** What becomes of an exchange that passed the gates. */
  function Concluded(cfg: Config, sqrt: real -> real, w: Track, x: Exchange, excess: real): (Track, Observation)
    requires x.Plausible()
  {
    var judged := Judged(cfg, sqrt, w, x, excess);
    var tw := x.Twist();
    var grown := Grown(judged.0, x, tw, Absorbed(cfg, judged.0, x, tw.offset, excess));
    Settle(judged, grown, Accepted(tw, Related(sqrt, grown), judged.1.Clear? && judged.1.restarted))
  }

  /** An exchange once judged: held back, or grown into the track. */
  function Settle(judged: (Track, Verdict), grown: Track, accepted: Observation): (Track, Observation) {
    if judged.1.Suspected? then (Refused(judged.0), Rejected(Step(judged.1.jump))) else (grown, accepted)
  }

  // ----- The object -----

  class Peer {
    const cfg: Config
    const sqrt: real -> real
    var anchor: nat
    var base: int
    var last: nat
    var kalman: ClockKalman
    var rtts: seq<nat>
    var accepted: nat
    var rejected: nat
    var twist: Option<TwistIndex>
    var steps: nat
    var suspect: nat

    ghost function State(): Track
      reads this, kalman
    {
      Track(anchor, base, last, kalman.State(), rtts, accepted, rejected, twist, steps, suspect)
    }

    constructor (cfg: Config, sqrt: real -> real)
      ensures this.cfg == cfg && this.sqrt == sqrt && State() == FreshTrack() && fresh(kalman)
    {
      this.cfg, this.sqrt := cfg, sqrt;
      anchor, base, last, rtts, accepted, rejected, twist, steps, suspect := 0, 0, 0, [], 0, 0, None, 0, 0;
      kalman := new ClockKalman(FreshFilter());
    }

    /** The windowed minimum round trip. */
    method RttFloor() returns (floor: Option<nat>)
      ensures floor == if rtts == [] then None else Some(Floor(rtts))
    {
      if rtts == [] { return None; }
      var least := rtts[0];
      for i := 1 to |rtts|
        invariant least in rtts && forall k :: 0 <= k < i ==> least <= rtts[k]
      {
        if rtts[i] < least { least := rtts[i]; }
      }
      assert Least(rtts, least);
      floor := Some(least);
    }

    /** What the track says of its peer, once it has absorbed something. */
    method Report() returns (r: Option<Relation>)
      ensures r == if accepted == 0 then None else Some(Related(sqrt, State()))
    {
      if accepted == 0 { return None; }
      r := Some(Relation(last, base as real + kalman.x0 * NANO, kalman.x1,
                         sqrt(Max(kalman.p00, 0.0)) * NANO, sqrt(Max(kalman.p11, 0.0))));
    }

    /** Push a round trip and drop the oldest ones past the window. */
    method PushRtt(rtt: nat)
      modifies this`rtts
      ensures State() == Windowed(cfg, old(State()), rtt)
    {
      rtts := rtts + [rtt];
      ghost var all := rtts;
      while |rtts| > cfg.Window()
        invariant |rtts| <= |all| && rtts == all[|all| - |rtts|..] && (|rtts| >= cfg.Window() || rtts == all)
      {
        rtts := rtts[1..];
      }
    }

    /** The gates. */
    method Admit(x: Exchange) returns (g: Gate)
      modifies this`rejected, this`rtts
      ensures (State(), g) == Gated(cfg, old(State()), x)
    {
      if x.Span() <= 0 || x.t4 < x.t1 {
        rejected := rejected + 1;
        return Blocked(NonPositiveRtt);
      }
      if accepted > 0 && x.Mid() <= last {
        rejected := rejected + 1;
        return Blocked(OutOfOrder);
      }
      g := AdmitRtt(x.Rtt());
    }

    /** Let a round trip into the window, and hold it against the floor. */
    method AdmitRtt(rtt: nat) returns (g: Gate)
      modifies this`rejected, this`rtts
      ensures (State(), g) == GatedWindow(cfg, Windowed(cfg, old(State()), rtt), rtt)
    {
      PushRtt(rtt);
      var least := RttFloor();
      var floor := least.Or(rtt);
      g := Sift(rtt - floor, floor);
    }

    method Sift(excess: int, floor: nat) returns (g: Gate)
      modifies this`rejected
      ensures (State(), g) == Sifted(cfg, old(State()), excess, floor)
    {
      if cfg.Queued(accepted, floor, excess) {
        rejected := rejected + 1;
        return Blocked(Popcorn(excess));
      }
      g := Passes(excess);
    }

    /** Absorb one exchange this node initiated. */
    method Observe(x: Exchange) returns (o: Observation)
      modifies this, kalman
      ensures (State(), o) == Observed(cfg, sqrt, old(State()), x)
      ensures kalman == old(kalman) || fresh(kalman)
    {
      var gate := Admit(x);
      if gate.Blocked? { return Rejected(gate.reason); }
      o := Conclude(x, gate.excess as real);
    }

    /** Judge and absorb an exchange that passed the gates. */
    method Conclude(x: Exchange, excess: real) returns (o: Observation)
      requires x.Plausible()
      modifies this, kalman
      ensures (State(), o) == Concluded(cfg, sqrt, old(State()), x, excess)
      ensures kalman == old(kalman) || fresh(kalman)
    {
      var verdict := Judge(x, excess);
      if verdict.Suspected? {
        rejected := rejected + 1;
        return Rejected(Step(verdict.jump));
      }
      Absorb(x, excess);
      var relation := Report();
      o := Accepted(x.Twist(), relation.value, verdict.restarted);
    }

    /** The step detector, once the floor has settled. */
    method Judge(x: Exchange, excess: real) returns (v: Verdict)
      requires x.Plausible()
      modifies this`suspect, this`steps, this`accepted, this`rtts
      ensures (State(), v) == Judged(cfg, sqrt, old(State()), x, excess)
    {
      if accepted < cfg.warmup { return Clear(false); }
      var offset := x.Twist().offset;
      var dt := Seconds(x.Mid() - last);
      var jump := Jump(base, kalman.State(), offset, dt);
      v := Clear(false);
      if Stepping(cfg, sqrt, kalman.State(), jump, dt, excess) {
        suspect := suspect + 1;
        if suspect < 2 { return Suspected(jump); }
        steps, accepted, rtts := steps + 1, 0, [x.Rtt()];
        v := Clear(true);
      }
      suspect := 0;
    }

    /** Start or step the filter on this exchange. */
    method Absorb(x: Exchange, excess: real)
      requires x.Plausible()
      modifies this, kalman
      ensures State() == Grown(old(State()), x, x.Twist(), Absorbed(cfg, old(State()), x, x.Twist().offset, excess))
      ensures kalman == old(kalman) || fresh(kalman)
    {
      ghost var s := State();
      var tw := x.Twist();
      var r := Variance(cfg, accepted, x.Rtt(), excess);
      if accepted == 0 {
        anchor, base := x.Mid(), tw.offset;
        kalman := new ClockKalman(Filter(0.0, 0.0, r, 0.0, cfg.priorDrift * cfg.priorDrift, cfg.qOffset, cfg.qDrift));
      } else {
        kalman.Step(Seconds(x.Mid() - last), Seconds(tw.offset - base), r);
      }
      assert kalman.State() == Absorbed(cfg, s, x, tw.offset, excess);
      last, accepted, twist := x.Mid(), accepted + 1, Some(tw);
    }
  }
}
