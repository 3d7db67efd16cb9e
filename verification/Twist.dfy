/** Twist measurements, the per-edge table and loop holonomy. */
module Twist {
  import opened Basics


  /** A node id; ids are compared in byte order, which is a total order. */
  type NodeId = int

  datatype TwistIndex = TwistIndex(rtt: int, offset: int, asymmetry: int, quality: nat, epoch: nat)

  /** The value an i128 keeps when cast to i64. */
  function AsI64(x: int): int {
    var w := x % TWO64;
    if w < TWO63 then w else w - TWO64
  }

  function SaturatingNeg(x: int): int {
    if x == -TWO63 then TWO63 - 1 else -x
  }

  /** `from_exchange`: the wrapped round trip, the truncated half-sum offset and the asymmetry. */
  function FromExchange(t1: nat, t2: nat, t3: nat, t4: nat): TwistIndex {
    var forward, backward := t2 - t1, t4 - t3;
    TwistIndex(((t4 - t1) - (t3 - t2)) % TWO64, AsI64(TDiv((t2 - t1) + (t3 - t4), 2)),
               AsI64(forward - backward), 100, 0)
  }

  /** The measurements of one edge, oriented from the smaller id to the larger, oldest first. */
  datatype Entry = Entry(lo: NodeId, hi: NodeId, twists: seq<TwistIndex>)

  predicate Key(e: Entry, a: NodeId, b: NodeId) {
    (e.lo, e.hi) == EdgeKey(a, b)
  }

  function EdgeKey(a: NodeId, b: NodeId): (NodeId, NodeId) {
    if a < b then (a, b) else (b, a)
  }

  /** The table as a list of entries in the hash map's iteration order: one entry per edge. */
  ghost predicate Table(entries: seq<Entry>) {
    && (forall i :: 0 <= i < |entries| ==> entries[i].lo <= entries[i].hi)
    && (forall i, j :: 0 <= i < j < |entries| ==> (entries[i].lo, entries[i].hi) != (entries[j].lo, entries[j].hi))
  }

  function Get(entries: seq<Entry>, a: NodeId, b: NodeId): Option<seq<TwistIndex>> {
    if entries == [] then None
    else if Key(entries[|entries| - 1], a, b) then Some(entries[|entries| - 1].twists)
    else Get(entries[..|entries| - 1], a, b)
  }

  function Latest(entries: seq<Entry>, a: NodeId, b: NodeId): Option<TwistIndex> {
    match Get(entries, a, b)
    case None => None
    case Some(t) => if t == [] then None else Some(t[|t| - 1])
  }

  lemma {:induction false} GetAt(entries: seq<Entry>, i: nat, a: NodeId, b: NodeId)
    requires Table(entries) && i < |entries| && Key(entries[i], a, b)
    ensures Get(entries, a, b) == Some(entries[i].twists)
  {
    var n := |entries|;
    if i < n - 1 {
      assert (entries[i].lo, entries[i].hi) != (entries[n - 1].lo, entries[n - 1].hi);
      GetAt(entries[..n - 1], i, a, b);
    }
  }

  lemma {:induction false} GetAbsent(entries: seq<Entry>, a: NodeId, b: NodeId)
    requires forall i :: 0 <= i < |entries| ==> !Key(entries[i], a, b)
    ensures Get(entries, a, b) == None
  {
    if entries != [] { GetAbsent(entries[..|entries| - 1], a, b); }
  }

  /** A measurement made from the larger id changes sign on the way in. */
  function Oriented(a: NodeId, b: NodeId, t: TwistIndex): TwistIndex {
    if EdgeKey(a, b).0 != a then t.(offset := SaturatingNeg(t.offset), asymmetry := SaturatingNeg(t.asymmetry)) else t
  }

  function Trimmed<T>(s: seq<T>, max: nat): (r: seq<T>)
    ensures |r| <= max && |r| <= |s| && r == s[|s| - |r|..]
    ensures |s| <= max ==> r == s
    ensures |s| > max ==> |r| == max
  {
    if |s| > max then s[|s| - max..] else s
  }

  class TwistLUT {
    var entries: seq<Entry>

    ghost predicate Valid()
      reads this
    {
      Table(entries)
    }

    constructor ()
      ensures Valid() && entries == []
    {
      entries := [];
    }

    /** Record a measurement a made of b. */
    method Insert(a: NodeId, b: NodeId, t: TwistIndex)
      requires Valid()
      modifies this
      ensures Valid()
      ensures Latest(entries, a, b) == Some(Oriented(a, b, t))
      ensures Get(entries, a, b)
                == Some((match Get(old(entries), a, b) case None => [] case Some(s) => s) + [Oriented(a, b, t)])
      ensures forall c, d :: EdgeKey(c, d) != EdgeKey(a, b) ==> Get(entries, c, d) == Get(old(entries), c, d)
    {
      var i := 0;
      while i < |entries| && !Key(entries[i], a, b)
        invariant 0 <= i <= |entries|
        invariant forall j :: 0 <= j < i ==> !Key(entries[j], a, b)
      {
        i := i + 1;
      }
      ghost var before := entries;
      var (lo, hi) := EdgeKey(a, b);
      if i == |entries| {
        GetAbsent(entries, a, b);
        entries := entries + [Entry(lo, hi, [Oriented(a, b, t)])];
        assert entries[..i] == before && [] + [Oriented(a, b, t)] == [Oriented(a, b, t)];
      } else {
        GetAt(before, i, a, b);
        entries := entries[i := Entry(lo, hi, entries[i].twists + [Oriented(a, b, t)])];
        GetAt(entries, i, a, b);
        forall c, d | EdgeKey(c, d) != EdgeKey(a, b)
          ensures Get(entries, c, d) == Get(before, c, d)
        {
          GetSame(before, entries, c, d);
        }
      }
    }

    /** Keep at most the newest max measurements on every edge. */
    method Trim(max: nat)
      requires Valid()
      modifies this
      ensures Valid() && |entries| == |old(entries)|
      ensures forall i :: 0 <= i < |entries| ==>
                entries[i] == old(entries)[i].(twists := Trimmed(old(entries)[i].twists, max))
    {
      ghost var before := entries;
      for k := 0 to |entries|
        invariant |entries| == |before|
        invariant forall i :: 0 <= i < k ==> entries[i] == before[i].(twists := Trimmed(before[i].twists, max))
        invariant forall i :: k <= i < |entries| ==> entries[i] == before[i]
      {
        entries := entries[k := entries[k].(twists := Trimmed(entries[k].twists, max))];
      }
    }

    /** The nodes sharing an edge with node, in table order. */
    method Neighbors(node: NodeId) returns (nb: seq<NodeId>)
      ensures nb == NeighborsOf(entries, node, |entries|)
    {
      nb := [];
      for i := 0 to |entries|
        invariant nb == NeighborsOf(entries, node, i)
      {
        if entries[i].lo == node {
          nb := nb + [entries[i].hi];
        } else if entries[i].hi == node {
          nb := nb + [entries[i].lo];
        }
      }
    }

    /** The sum of the oriented offsets around a loop; None for a short path or a missing edge. */
    method LoopHolonomy(path: seq<NodeId>) returns (r: Option<int>)
      requires Valid()
      ensures r.Some? <==> |path| >= 3 && forall i :: 0 <= i < |path| ==> Latest(entries, path[i], After(path, i)).Some?
      ensures r.Some? ==> r.value == LoopSum(entries, path, |path|)
    {
      if |path| < 3 { return None; }
      var total := 0;
      for i := 0 to |path|
        invariant forall k :: 0 <= k < i ==> Latest(entries, path[k], After(path, k)).Some?
        invariant total == LoopSum(entries, path, i)
      {
        var a, b := path[i], After(path, i);
        var t := Latest(entries, a, b);
        if t.None? { return None; }
        assert LoopSum(entries, path, i + 1) == LoopSum(entries, path, i) + Hop(entries, a, b);
        if EdgeKey(a, b).0 == a {
          total := total + t.value.offset;
        } else {
          total := total - t.value.offset;
        }
      }
      r := Some(total);
    }
  }

  function NeighborsOf(entries: seq<Entry>, node: NodeId, t: nat): seq<NodeId>
    requires t <= |entries|
  {
    if t == 0 then [] else
      var rest := NeighborsOf(entries, node, t - 1);
      if entries[t - 1].lo == node then rest + [entries[t - 1].hi]
      else if entries[t - 1].hi == node then rest + [entries[t - 1].lo]
      else rest
  }

  lemma {:induction false} GetSame(before: seq<Entry>, entries: seq<Entry>, c: NodeId, d: NodeId)
    requires |before| == |entries|
    requires forall i :: 0 <= i < |entries| ==>
              entries[i] == before[i] || (!Key(entries[i], c, d) && !Key(before[i], c, d))
    ensures Get(entries, c, d) == Get(before, c, d)
    decreases |entries|
  {
    var n := |entries|;
    if n > 0 && !Key(entries[n - 1], c, d) {
      GetSame(before[..n - 1], entries[..n - 1], c, d);
    }
  }

  /** The node after path[i] around the loop: path[(i + 1) % |path|]. */
  function After(path: seq<NodeId>, i: nat): NodeId
    requires i < |path|
  {
    if i + 1 < |path| then path[i + 1] else path[0]
  }

  /** The offset read walking a -> b. */
  function Hop(entries: seq<Entry>, a: NodeId, b: NodeId): int {
    match Latest(entries, a, b)
    case None => 0
    case Some(t) => if EdgeKey(a, b).0 == a then t.offset else -t.offset
  }

  ghost function LoopSum(entries: seq<Entry>, path: seq<NodeId>, k: nat): int
    requires k <= |path|
  {
    if k == 0 then 0 else LoopSum(entries, path, k - 1) + Hop(entries, path[k - 1], After(path, k - 1))
  }

  // ----- Honest exchanges -----

  /** An exchange in true time: sent at t, legs of f and g, held p at the peer. */
  datatype Transit = Transit(t: int, f: nat, p: nat, g: nat)

  /** The four 64-bit timestamps of an exchange from a clock at offset ca to one at offset cb. */
  ghost predicate Stamped(x: Transit, ca: int, cb: int, t1: nat, t2: nat, t3: nat, t4: nat) {
    && t1 == x.t + ca && t2 == x.t + x.f + cb && t3 == x.t + x.f + x.p + cb && t4 == x.t + x.f + x.p + x.g + ca
    && t1 < TWO64 && t2 < TWO64 && t3 < TWO64 && t4 < TWO64
  }

  function Half(rtt: int): int {
    (rtt + 1) / 2
  }

  /** The truncated half-sum of an exchange, before it is cast. */
  function HalfSum(x: Transit, ca: int, cb: int): int {
    TDiv(2 * (cb - ca) + x.f - x.g, 2)
  }

  /** A number the cast to i64 keeps. */
  predicate Fits(h: int) {
    -TWO63 <= h < TWO63
  }

  /**
   * The round trip read is the two legs'. The offset read is the half-sum if and only if that fits an i64; and then it
   * is within half the round trip, rounded up, of the true offset, and exact on a symmetric path. The asymmetry read is
   * the legs' difference with twice the offset added, if and only if that fits: twice the offset read, to a nanosecond.
   */
  lemma ExchangeReading(x: Transit, ca: int, cb: int, t1: nat, t2: nat, t3: nat, t4: nat)
    requires Stamped(x, ca, cb, t1, t2, t3, t4)
    ensures Reads(FromExchange(t1, t2, t3, t4), x, ca, cb)
  {
    LegsRead(x, ca, cb, t1, t2, t3, t4);
    HalfSumRead(x, ca, cb, t1, t2, t3, t4);
    AsymmetryRead(x, ca, cb, t1, t2, t3, t4);
    CastReads(FromExchange(t1, t2, t3, t4), x, ca, cb);
  }

  ghost predicate Reads(w: TwistIndex, x: Transit, ca: int, cb: int) {
    var h := HalfSum(x, ca, cb);
    && w.rtt == x.f + x.g && (w.offset == h <==> Fits(h))
    && (Fits(h) ==> -Half(w.rtt) <= w.offset - (cb - ca) <= Half(w.rtt))
    && (Fits(h) && x.f == x.g ==> w.offset == cb - ca)
    && ReadsLegs(w, x.f - x.g + 2 * (cb - ca))
  }

  ghost predicate ReadsLegs(w: TwistIndex, a: int) {
    && (w.asymmetry == a <==> Fits(a)) && (Fits(a) ==> w.offset == TDiv(w.asymmetry, 2))
    && w.quality == 100 && w.epoch == 0
  }

  lemma LegsRead(x: Transit, ca: int, cb: int, t1: nat, t2: nat, t3: nat, t4: nat)
    requires Stamped(x, ca, cb, t1, t2, t3, t4)
    ensures FromExchange(t1, t2, t3, t4).rtt == x.f + x.g
  {
    WrapUp(x.f + x.g);
    assert (t4 - t1) - (t3 - t2) == x.f + x.g < TWO64;
  }

  lemma HalfSumRead(x: Transit, ca: int, cb: int, t1: nat, t2: nat, t3: nat, t4: nat)
    requires Stamped(x, ca, cb, t1, t2, t3, t4)
    ensures FromExchange(t1, t2, t3, t4).offset == AsI64(HalfSum(x, ca, cb))
  {
    assert (t2 - t1) + (t3 - t4) == 2 * (cb - ca) + x.f - x.g;
  }

  lemma AsymmetryRead(x: Transit, ca: int, cb: int, t1: nat, t2: nat, t3: nat, t4: nat)
    requires Stamped(x, ca, cb, t1, t2, t3, t4)
    ensures ReadsLegs(FromExchange(t1, t2, t3, t4), x.f - x.g + 2 * (cb - ca))
  {
    var a := x.f - x.g + 2 * (cb - ca);
    assert (t2 - t1) - (t4 - t3) == (t2 - t1) + (t3 - t4) == a;
    CastKeeps(a);
    CastKeeps(TDiv(a, 2));
  }

  lemma CastReads(w: TwistIndex, x: Transit, ca: int, cb: int)
    requires ReadsLegs(w, x.f - x.g + 2 * (cb - ca))
    requires w.rtt == x.f + x.g && w.offset == AsI64(HalfSum(x, ca, cb))
    ensures Reads(w, x, ca, cb)
  {
    CastKeeps(HalfSum(x, ca, cb));
    HalfNear(cb - ca, x.f, x.g);
  }

  /** A cast to i64 keeps exactly the numbers that fit. */
  lemma CastKeeps(h: int)
    ensures AsI64(h) == h <==> Fits(h)
  {
    if h >= 0 { WrapUp(h); } else { WrapDown(h); }
  }

  lemma WrapUp(h: nat)
    ensures h < TWO64 ==> h % TWO64 == h
  {
  }

  lemma WrapDown(h: int)
    requires h < 0
    ensures -TWO64 <= h ==> h % TWO64 == h + TWO64
  {
  }

  /** Truncated halving of 2c + f - g misses c by at most half of f + g, rounded up. */
  lemma HalfNear(c: int, f: nat, g: nat)
    ensures -Half(f + g) <= TDiv(2 * c + f - g, 2) - c <= Half(f + g)
    ensures f == g ==> TDiv(2 * c + f - g, 2) == c
  {
  }

  /**
   * The stored measurement of an edge agrees with the clocks to half its round trip; exactly, if its path was
   * symmetric.
   */
  ghost predicate Honest(clock: NodeId -> int, e: (NodeId, NodeId), w: TwistIndex, symmetric: bool) {
    && -Half(w.rtt) <= w.offset - (clock(e.1) - clock(e.0)) <= Half(w.rtt)
    && (symmetric ==> w.offset == clock(e.1) - clock(e.0))
  }

  /** Whichever end initiated the exchange, what is stored is honest. */
  lemma StoredIsHonest(clock: NodeId -> int, a: NodeId, b: NodeId, x: Transit, t1: nat, t2: nat, t3: nat, t4: nat)
    requires Stamped(x, clock(a), clock(b), t1, t2, t3, t4) && -TWO63 < HalfSum(x, clock(a), clock(b)) < TWO63
    ensures Honest(clock, EdgeKey(a, b), Oriented(a, b, FromExchange(t1, t2, t3, t4)), x.f == x.g)
    ensures Oriented(a, b, FromExchange(t1, t2, t3, t4)).rtt == x.f + x.g
  {
    ExchangeReading(x, clock(a), clock(b), t1, t2, t3, t4);
  }

  /** m is the number an i64 can hold that is nearest x. */
  ghost predicate NearestFit(m: int, x: int) {
    Fits(m) && forall y: int :: Fits(y) ==> Abs(m - x) <= Abs(y - x)
  }

  /**
   * Offset and asymmetry are stored as measured along the edge key, and against it with their signs turned, as nearly
   * as an i64 can; nothing else changes.
   */
  lemma OrientedIsNearest(a: NodeId, b: NodeId, t: TwistIndex)
    requires Fits(t.offset) && Fits(t.asymmetry)
    ensures var u := Oriented(a, b, t);
            && u == t.(offset := u.offset, asymmetry := u.asymmetry)
            && NearestFit(u.offset, if a <= b then t.offset else -t.offset)
            && NearestFit(u.asymmetry, if a <= b then t.asymmetry else -t.asymmetry)
  {
  }

  /** Sum of the half round trips along the first k edges of the loop. */
  ghost function Slack(entries: seq<Entry>, path: seq<NodeId>, k: nat): int
    requires k <= |path|
  {
    if k == 0 then 0 else Slack(entries, path, k - 1) + Margin(entries, path[k - 1], After(path, k - 1))
  }

  /** Half the round trip of an edge's latest measurement. */
  function Margin(entries: seq<Entry>, a: NodeId, b: NodeId): int {
    match Latest(entries, a, b)
    case None => 0
    case Some(w) => Half(w.rtt)
  }

  /** Walking an honest edge reads the clocks' difference to within its margin, from either end. */
  lemma HopIsHonest(clock: NodeId -> int, entries: seq<Entry>, a: NodeId, b: NodeId, symmetric: bool)
    requires HonestEdge(clock, entries, a, b, symmetric)
    ensures -Margin(entries, a, b) <= Hop(entries, a, b) - (clock(b) - clock(a)) <= Margin(entries, a, b)
    ensures symmetric ==> Hop(entries, a, b) == clock(b) - clock(a)
  {
  }

  ghost predicate HonestEdge(clock: NodeId -> int, entries: seq<Entry>, a: NodeId, b: NodeId, symmetric: bool) {
    Latest(entries, a, b).Some? && Honest(clock, EdgeKey(a, b), Latest(entries, a, b).value, symmetric)
  }

  lemma {:induction false} LoopTelescopes(clock: NodeId -> int, entries: seq<Entry>, path: seq<NodeId>, symmetric: bool,
                                          k: nat)
    requires 0 < k <= |path|
    requires forall i :: 0 <= i < |path| ==> HonestEdge(clock, entries, path[i], After(path, i), symmetric)
    ensures var drift := LoopSum(entries, path, k) - (clock(After(path, k - 1)) - clock(path[0]));
            -Slack(entries, path, k) <= drift <= Slack(entries, path, k) && (symmetric ==> drift == 0)
  {
    var a, b := path[k - 1], After(path, k - 1);
    HopIsHonest(clock, entries, a, b, symmetric);
    assert LoopSum(entries, path, k) == LoopSum(entries, path, k - 1) + Hop(entries, a, b);
    assert Slack(entries, path, k) == Slack(entries, path, k - 1) + Margin(entries, a, b);
    if k > 1 {
      LoopTelescopes(clock, entries, path, symmetric, k - 1);
      assert After(path, k - 2) == a;
    }
  }

  /** The holonomy of a loop of honest edges is at most the sum of its half round trips, and zero on symmetric paths. */
  lemma LoopHolonomyBound(clock: NodeId -> int, entries: seq<Entry>, path: seq<NodeId>, symmetric: bool)
    requires |path| >= 3
    requires forall i :: 0 <= i < |path| ==> HonestEdge(clock, entries, path[i], After(path, i), symmetric)
    ensures -Slack(entries, path, |path|) <= LoopSum(entries, path, |path|) <= Slack(entries, path, |path|)
    ensures symmetric ==> LoopSum(entries, path, |path|) == 0
  {
    LoopTelescopes(clock, entries, path, symmetric, |path|);
    assert After(path, |path| - 1) == path[0];
  }
}
