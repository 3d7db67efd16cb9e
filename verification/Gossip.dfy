/** Anchors: absolute references a node measures itself or hears of, and how they age as nodes hand them on. */
module Gossip {
  type NodeId = nat

  /** A reference as handed on: age is how long before that it was last measured, ns. */
  datatype Anchor = Anchor(node: NodeId, sigma: real, drift: real, stratum: nat, age: nat)

  /** A reference as held: measured is the instant of its last measurement. */
  datatype Held = Held(anchor: Anchor, measured: nat, own: bool)

  type Book = map<NodeId, Held>

  const TEN_SECONDS := 10000000000

  function SaturatingSub(a: nat, b: nat): nat {
    if a >= b then a - b else 0
  }

  /** What an exchange with a server says of it: the server's own distance and half our round trip to it. */
  function Reading(server: NodeId, floor: nat, root: real, stratum: nat, drift: real): Anchor {
    Anchor(server, root + floor as real / 2.0, drift, stratum, 0)
  }

  // ----- Specification -----

  /** The server's track is non-empty, whatever became of the exchange just handed in. */
  function Referred(book: Book, a: Anchor, accepted: nat, now: nat): Book {
    if accepted > 0 then book[a.node := Held(a, now, true)] else book
  }

  /** Whether a held copy gives way to one measured at m with spread sigma. */
  predicate Yields(h: Held, sigma: real, m: nat) {
    !h.own && h.measured <= m + TEN_SECONDS && !(h.anchor.sigma < sigma && h.measured + TEN_SECONDS >= m)
  }

  function Heard(book: Book, a: Anchor, now: nat): Book {
    var m := SaturatingSub(now, a.age);
    if a.node in book && !Yields(book[a.node], a.sigma, m) then book
    else book[a.node := Held(a.(age := 0), m, false)]
  }

  /** The copy handed on. */
  function Passed(h: Held, now: nat): Anchor {
    h.anchor.(age := SaturatingSub(now, h.measured))
  }

  function Handed(book: Book, now: nat): map<NodeId, Anchor> {
    map r | r in book :: Passed(book[r], now)
  }

  predicate Stale(h: Held, now: nat, maxAge: nat) {
    SaturatingSub(now, h.measured) > maxAge
  }

  function Expired(book: Book, now: nat, maxAge: nat): Book {
    map r | r in book && !Stale(book[r], now, maxAge) :: book[r]
  }

  /**
   * Of two copies measured more than ten seconds apart the fresher stays, of two within ten seconds the tighter;
   * a reference the node measures itself stays its own.
   */
  lemma FresherOrTighter(book: Book, a: Anchor, now: nat)
    ensures var after, m := Heard(book, a, now), if now >= a.age then now - a.age else 0;
            && a.node in after && after - {a.node} == book - {a.node}
            && (a.node !in book ==> after[a.node] == Held(a.(age := 0), m, false))
            && (a.node in book ==>
                var h, k := book[a.node], after[a.node];
                && (h.own ==> k == h)
                && (!h.own && (h.measured > m + 10000000000 || m > h.measured + 10000000000) ==>
                    k.measured == if h.measured > m then h.measured else m)
                && (!h.own && h.measured <= m + 10000000000 && m <= h.measured + 10000000000 ==>
                    k.anchor.sigma == if h.anchor.sigma < a.sigma then h.anchor.sigma else a.sigma)
                && (k == h || k == Held(a.(age := 0), m, false)))
  {
  }

  // ----- The object -----

  /** The anchors of one node. */
  class RelationalClock {
    var anchors: Book

    constructor ()
      ensures anchors == map[]
    {
      anchors := map[];
    }

    /** After an exchange with a server: accepted and floor are those of the server's track. */
    method ObserveReference(server: NodeId, accepted: nat, floor: nat, root: real, stratum: nat, drift: real, now: nat)
      modifies this
      ensures anchors == Referred(old(anchors), Reading(server, floor, root, stratum, drift), accepted, now)
    {
      if accepted > 0 {
        anchors := anchors[server := Held(Anchor(server, root + floor as real / 2.0, drift, stratum, 0), now, true)];
      }
    }

    method HearAnchor(a: Anchor, now: nat)
      modifies this
      ensures anchors == Heard(old(anchors), a, now)
    {
      var measured := SaturatingSub(now, a.age);
      if a.node in anchors {
        var h := anchors[a.node];
        if h.own { return; }
        if h.measured > measured + TEN_SECONDS { return; }
        if h.anchor.sigma < a.sigma && h.measured + TEN_SECONDS >= measured { return; }
      }
      anchors := anchors[a.node := Held(a.(age := 0), measured, false)];
    }

    method GossipAnchors(now: nat) returns (handed: map<NodeId, Anchor>)
      ensures handed == Handed(anchors, now)
    {
      handed := map r | r in anchors :: anchors[r].anchor.(age := SaturatingSub(now, anchors[r].measured));
    }

    method ExpireAnchors(now: nat, maxAge: nat)
      modifies this
      ensures anchors == Expired(old(anchors), now, maxAge)
    {
      anchors := map r | r in anchors && SaturatingSub(now, anchors[r].measured) <= maxAge :: anchors[r];
    }

    method Forget(peer: NodeId)
      modifies this
      ensures anchors == old(anchors) - {peer}
    {
      anchors := anchors - {peer};
    }
  }
}
