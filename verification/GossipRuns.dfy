/** Networks of nodes handing anchors on, on a shared timescale: how old a copy can look, and when it dies out. */
module GossipRuns {
  import opened Gossip
  import PeerTrack
  import TrackRuns

  /**
   * Where a copy comes from: the instant its reference was measured and the time the copy has spent in transit since.
   */
  datatype Origin = Origin(root: nat, lag: nat)

  /** A copy on its way. It may arrive any number of times, at any nodes, or never. */
  datatype Flight = Flight(anchor: Anchor, sent: nat, origin: Origin)

  /** Origins only annotate: no step's effect on the books depends on them. */
  datatype Net = Net(now: nat, books: map<NodeId, Book>, origins: map<(NodeId, NodeId), Origin>, flights: set<Flight>,
                     measurements: set<(NodeId, nat)>)
  {
    function BookOf(n: NodeId): Book {
      if n in books then books[n] else map[]
    }

    predicate Holds(n: NodeId, r: NodeId) {
      n in books && r in books[n]
    }
  }

  datatype Event =
    | Tick(d: nat)
    | Measure(n: NodeId, reading: Anchor, accepted: nat)
    | HandOn(n: NodeId, r: NodeId)
    | Deliver(f: Flight, to: NodeId)
    | Expire(n: NodeId, maxAge: nat)
    | Forget(n: NodeId, r: NodeId)

  predicate Enabled(s: Net, e: Event) {
    match e
    case HandOn(n, r) => s.Holds(n, r) && (n, r) in s.origins
    case Deliver(f, _) => f in s.flights
    case _ => true
  }

  /** The copy node n hands on of reference r. */
  function Sent(s: Net, n: NodeId, r: NodeId): Flight
    requires Enabled(s, HandOn(n, r))
  {
    Flight(Handed(s.books[n], s.now)[r], s.now, s.origins[(n, r)])
  }

  function Next(s: Net, e: Event): Net
    requires Enabled(s, e)
  {
    match e
    case Tick(d) => s.(now := s.now + d)
    case Measure(n, a, accepted) => Measured(s, n, a, accepted)
    case HandOn(n, r) => s.(flights := s.flights + {Sent(s, n, r)})
    case Deliver(f, to) => Arrived(s, f, to)
    case Expire(n, maxAge) => s.(books := s.books[n := Expired(s.BookOf(n), s.now, maxAge)])
    case Forget(n, r) => s.(books := s.books[n := s.BookOf(n) - {r}])
  }

  function Measured(s: Net, n: NodeId, a: Anchor, accepted: nat): Net {
    var books := s.books[n := Referred(s.BookOf(n), a, accepted, s.now)];
    if accepted == 0 then s.(books := books)
    else s.(books := books, origins := s.origins[(n, a.node) := Origin(s.now, 0)],
            measurements := s.measurements + {(a.node, s.now)})
  }

  /** A copy arrives: if the node takes it, its origin comes with it, later by the transit. */
  function Arrived(s: Net, f: Flight, to: NodeId): Net {
    var book := Heard(s.BookOf(to), f.anchor, s.now);
    if book == s.BookOf(to) then s
    else s.(books := s.books[to := book], origins := s.origins[(to, f.anchor.node) := Carried(f, s.now)])
  }

  function Carried(f: Flight, now: nat): Origin {
    Origin(f.origin.root, f.origin.lag + SaturatingSub(now, f.sent))
  }

  /** A run from an empty network at some instant. */
  ghost predicate Run(es: seq<Event>, st: seq<Net>) {
    Steps(es, st) && st[0] == Net(st[0].now, map[], map[], {}, {})
  }

  /** Each event is enabled in its state and leads to the next. */
  ghost predicate Steps(es: seq<Event>, st: seq<Net>) {
    && |st| == |es| + 1
    && forall i {:trigger es[i]} :: 0 <= i < |es| ==> Enabled(st[i], es[i]) && st[i + 1] == Next(st[i], es[i])
  }

  // ----- What every step keeps -----

  /** A held copy was measured at its root, plus its transit; and the root is a real measurement. */
  ghost predicate CopySound(s: Net, r: NodeId, h: Held, o: Origin) {
    && h.anchor.node == r && h.measured == o.root + o.lag && h.measured <= s.now
    && (r, o.root) in s.measurements && (h.own ==> o.lag == 0)
  }

  ghost predicate FlightSound(s: Net, f: Flight) {
    && f.sent <= s.now && (f.anchor.node, f.origin.root) in s.measurements
    && f.anchor.age == f.sent - f.origin.root - f.origin.lag
  }

  ghost predicate Sound(s: Net) {
    && (forall n, r {:trigger s.Holds(n, r)} :: s.Holds(n, r) ==>
          (n, r) in s.origins && CopySound(s, r, s.books[n][r], s.origins[(n, r)]))
    && (forall f :: f in s.flights ==> FlightSound(s, f))
    && (forall q :: q in s.measurements ==> q.1 <= s.now)
  }

  lemma StepKeeps(s: Net, e: Event)
    requires Sound(s) && Enabled(s, e)
    ensures Sound(Next(s, e))
  {
    var t := Next(s, e);
    forall n, r | t.Holds(n, r)
      ensures (n, r) in t.origins && CopySound(t, r, t.books[n][r], t.origins[(n, r)])
    {
      StepKeepsCopy(s, e, n, r);
    }
    forall f | f in t.flights
      ensures FlightSound(t, f)
    {
      if f !in s.flights { assert s.Holds(e.n, e.r); }
    }
  }

  lemma StepKeepsCopy(s: Net, e: Event, n: NodeId, r: NodeId)
    requires Sound(s) && Enabled(s, e) && Next(s, e).Holds(n, r)
    ensures var t := Next(s, e); (n, r) in t.origins && CopySound(t, r, t.books[n][r], t.origins[(n, r)])
  {
    var before := s.Holds(n, r);
    if e.Deliver? { assert FlightSound(s, e.f); }
  }

  lemma {:induction false} RunIsSound(es: seq<Event>, st: seq<Net>, k: nat)
    requires Run(es, st) && k <= |es|
    ensures Sound(st[k])
  {
    if k > 0 {
      RunIsSound(es, st, k - 1);
      StepKeeps(st[k - 1], es[k - 1]);
    }
  }

  /** No measurement of r is later than last. */
  ghost predicate LastMeasured(s: Net, r: NodeId, last: nat) {
    forall q :: q in s.measurements && q.0 == r ==> q.1 <= last
  }

  /**
   * In every run a held copy looks measured at its root plus the transit along its path, so never after the
   * reference's last measurement plus that transit; the age it is handed on with is the time it rested at nodes, and
   * expiry drops it exactly when that time is past the limit.
   */
  lemma HeldAges(es: seq<Event>, st: seq<Net>, k: nat, n: NodeId, r: NodeId, last: nat, maxAge: nat)
    requires Run(es, st) && k <= |es| && st[k].Holds(n, r) && LastMeasured(st[k], r, last)
    ensures (n, r) in st[k].origins
    ensures var h, o := st[k].books[n][r], st[k].origins[(n, r)];
            && (r, o.root) in st[k].measurements
            && h.measured == o.root + o.lag <= last + o.lag
            && o.root + o.lag + Passed(h, st[k].now).age == st[k].now
            && (r !in Expired(st[k].books[n], st[k].now, maxAge) <==> st[k].now - o.root - o.lag > maxAge)
  {
    RunIsSound(es, st, k);
  }

  // ----- Exchanges that were refused -----

  /**
   * An exchange with a reference refreshes its anchor exactly when the track takes it or has taken one since its last
   * restart: a refused exchange counts as a measurement too.
   */
  lemma RefusedStillRefreshes(cfg: PeerTrack.Config, sqrt: real -> real, s: PeerTrack.Track, x: PeerTrack.Exchange,
                              book: Book, a: Anchor, now: nat)
    ensures var (s', o) := PeerTrack.Observed(cfg, sqrt, s, x);
            Referred(book, a, s'.accepted, now) ==
            if o.Accepted? || s.accepted > 0 then book[a.node := Held(a, now, true)] else book
  {
    TrackRuns.StepMoves(cfg, sqrt, s, x);
  }

  // ----- Transit that never rests -----

  const SERVER: NodeId := 9

  function First(): Anchor {
    Anchor(SERVER, 1.0, 0.0, 1, 0)
  }

  function Bearer(k: nat): NodeId {
    if k == 0 then 0 else 1 + k % 2
  }

  /** The first reading, at its bearer of nanosecond k with no age, and nowhere but at node 0 as an own measurement. */
  ghost predicate Hot(s: Net, k: nat) {
    && s.now == k && s.measurements == {(SERVER, 0)}
    && s.Holds(Bearer(k), SERVER) && s.books[Bearer(k)][SERVER] == Held(First(), k, k == 0)
    && forall n :: s.Holds(n, SERVER) && n != 0 ==> Borne(s.books[n][SERVER], k)
  }

  predicate Borne(h: Held, k: nat) {
    h.anchor == First() && !h.own && h.measured <= k
  }

  /** Handed on, a nanosecond in transit, and delivered. */
  lemma Hop(s: Net, k: nat) returns (es: seq<Event>, st: seq<Net>)
    requires Sound(s) && Hot(s, k)
    ensures Steps(es, st) && st[0] == s && Hot(st[|es|], k + 1)
  {
    es := [HandOn(Bearer(k), SERVER), Tick(1), Deliver(Sent(s, Bearer(k), SERVER), Bearer(k + 1))];
    var s1 := Next(s, es[0]);
    var s2 := Next(s1, es[1]);
    st := [s, s1, s2, Next(s2, es[2])];
  }

  lemma FirstReading() returns (es: seq<Event>, st: seq<Net>)
    ensures Run(es, st) && Hot(st[|es|], 0)
  {
    var s0 := Net(0, map[], map[], {}, {});
    es, st := [Measure(0, First(), 1)], [s0, Next(s0, Measure(0, First(), 1))];
  }

  lemma StepsJoin(es: seq<Event>, st: seq<Net>, es': seq<Event>, st': seq<Net>)
    requires Steps(es, st) && Steps(es', st') && st[|es|] == st'[0]
    ensures Steps(es + es', st + st'[1..])
  {
    var all := st + st'[1..];
    forall i | 0 <= i < |es + es'|
      ensures Enabled(all[i], (es + es')[i]) && all[i + 1] == Next(all[i], (es + es')[i])
    {
      if i >= |es| { assert all[i] == st'[i - |es|] && (es + es')[i] == es'[i - |es|]; }
    }
  }

  /** Handed straight on at every arrival between two nodes, one hop a nanosecond. */
  lemma {:induction false} HotPotato(k: nat) returns (es: seq<Event>, st: seq<Net>)
    ensures Run(es, st) && Hot(st[|es|], k)
  {
    if k == 0 {
      es, st := FirstReading();
    } else {
      var es0, st0 := HotPotato(k - 1);
      RunIsSound(es0, st0, |es0|);
      var es1, st1 := Hop(st0[|es0|], k - 1);
      StepsJoin(es0, st0, es1, st1);
      es, st := es0 + es1, st0 + st1[1..];
    }
  }

  /**
   * Transit does not age a copy: however long ago the reference was measured for the only time, and however small the
   * limit, a copy can still be held that no expiry drops.
   */
  lemma RestlessCopyNeverExpires(k: nat, maxAge: nat) returns (es: seq<Event>, st: seq<Net>)
    ensures Run(es, st) && var s := st[|es|];
            && s.now == k && s.measurements == {(SERVER, 0)}
            && exists n :: s.Holds(n, SERVER) && SERVER in Expired(s.books[n], s.now, maxAge)
  {
    es, st := HotPotato(k);
    assert st[|es|].Holds(Bearer(k), SERVER);
  }
}
