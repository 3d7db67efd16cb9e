/** What a reading of a reference server is worth: the spread it is announced with, and no less. */
module Reference {
  import opened Basics
  import opened Twist
  import G = Gossip

  /** How far off the time the server serves a reading puts us, when the server is within root of that time. */
  ghost predicate Covers(sigma: real, offset: int, ca: int, utc: int) {
    AbsReal((offset + ca - utc) as real) <= sigma + 0.5
  }

  /**
   * An exchange as quick as the floor with a server within root of the reference reads the reference to within the
   * announced spread, and the half nanosecond that halving may lose.
   */
  lemma ReadingCovers(server: G.NodeId, stratum: nat, drift: real, x: Transit, ca: int, cb: int, utc: int, root: nat,
                      t1: nat, t2: nat, t3: nat, t4: nat)
    requires Stamped(x, ca, cb, t1, t2, t3, t4) && Fits(HalfSum(x, ca, cb)) && Abs(cb - utc) <= root
    ensures var w := FromExchange(t1, t2, t3, t4);
            Covers(G.Reading(server, w.rtt, root as real, stratum, drift).sigma, w.offset, ca, utc)
  {
    ExchangeReading(x, ca, cb, t1, t2, t3, t4);
    HalfSpread(x.f + x.g);
  }

  lemma HalfSpread(rtt: nat)
    ensures Half(rtt) as real <= rtt as real / 2.0 + 0.5
  {
  }

  /** No smaller spread would do: with all delay on one leg and the server at its limit, a reading is so far off. */
  lemma ReadingIsTight(server: G.NodeId, stratum: nat, drift: real, half: nat, root: nat, utc: nat)
    returns (x: Transit, cb: int, t1: nat, t2: nat, t3: nat, t4: nat)
    requires utc + root + 2 * half < TWO63
    ensures Stamped(x, 0, cb, t1, t2, t3, t4) && Fits(HalfSum(x, 0, cb)) && Abs(cb - utc) <= root
    ensures var w := FromExchange(t1, t2, t3, t4);
            && w.rtt == 2 * half
            && (w.offset - utc) as real == G.Reading(server, w.rtt, root as real, stratum, drift).sigma
  {
    x, cb := Transit(0, 2 * half, 0, 0), utc + root;
    t1, t2, t3, t4 := 0, 2 * half + cb, 2 * half + cb, 2 * half;
    ExchangeReading(x, 0, cb, t1, t2, t3, t4);
    assert HalfSum(x, 0, cb) == cb + half;
  }
}
