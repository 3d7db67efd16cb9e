/** Marzullo's interval intersection: a sorted event sweep against the depth of overlap. */
module Marzullo {
  import opened Basics

  datatype TimeInterval = TimeInterval(low: real, high: real)

  datatype Event = Event(point: real, isEnd: bool)

  ghost predicate WellFormed(ivs: seq<TimeInterval>) {
    forall i :: 0 <= i < |ivs| ==> ivs[i].low <= ivs[i].high
  }

  predicate Contains(iv: TimeInterval, x: real) {
    iv.low <= x <= iv.high
  }

  /** The specification: how many intervals contain x. */
  ghost function Depth(ivs: seq<TimeInterval>, x: real): nat {
    if ivs == [] then 0 else Depth(ivs[..|ivs| - 1], x) + if Contains(ivs[|ivs| - 1], x) then 1 else 0
  }

  // ----- Events in order -----

  /** Events are ordered by point, starts before ends at the same point. */
  predicate Before(a: Event, b: Event) {
    a.point < b.point || (a.point == b.point && (!a.isEnd || b.isEnd))
  }

  ghost predicate Sorted(s: seq<Event>) {
    forall i, j :: 0 <= i < j < |s| ==> Before(s[i], s[j])
  }

  /** The sweep has gone past e when it stands at x. */
  predicate Passed(e: Event, x: real) {
    if e.isEnd then e.point < x else e.point <= x
  }

  function Delta(e: Event): int {
    if e.isEnd then -1 else 1
  }

  /** Net count of the events passed at x. */
  ghost function Net(s: seq<Event>, x: real): int {
    if s == [] then 0 else Net(s[..|s| - 1], x) + if Passed(s[|s| - 1], x) then Delta(s[|s| - 1]) else 0
  }

  /** Net count of the first k events. */
  ghost function Count(s: seq<Event>, k: nat): int
    requires k <= |s|
  {
    if k == 0 then 0 else Count(s, k - 1) + Delta(s[k - 1])
  }

  lemma {:induction false} CountPrefix(s: seq<Event>, t: seq<Event>, k: nat)
    requires k <= |s| && k <= |t| && s[..k] == t[..k]
    ensures Count(s, k) == Count(t, k)
  {
    if k > 0 {
      assert s[k - 1] == s[..k][k - 1] == t[..k][k - 1];
      assert s[..k - 1] == s[..k][..k - 1] == t[..k][..k - 1] == t[..k - 1];
      CountPrefix(s, t, k - 1);
    }
  }

  /** s and t hold the same events, as far as counting goes. */
  ghost predicate SameEvents(s: seq<Event>, t: seq<Event>) {
    && |s| == |t| && Count(s, |s|) == Count(t, |t|)
    && (forall x :: Net(s, x) == Net(t, x))
    && (forall e :: e in s <==> e in t)
  }

  /** Insert e into a sorted sequence, after everything that may stand before it. */
  function Insert(s: seq<Event>, e: Event): (r: seq<Event>)
    requires Sorted(s)
    ensures |r| == |s| + 1 && Sorted(r)
    ensures forall f :: f in r <==> f in s || f == e
  {
    if s == [] || Before(s[|s| - 1], e) then s + [e] else
      var (init, last) := (s[..|s| - 1], s[|s| - 1]);
      assert s == init + [last];
      assert forall i :: 0 <= i < |init| ==> init[i] == s[i];
      var r := Insert(init, e);
      assert forall f :: f in r ==> Before(f, last);
      r + [last]
  }

  lemma NetAppends(s: seq<Event>, e: Event, x: real)
    ensures Net(s + [e], x) == Net(s, x) + if Passed(e, x) then Delta(e) else 0
  {
    assert (s + [e])[..|s|] == s;
  }

  lemma CountAppends(s: seq<Event>, e: Event)
    ensures Count(s + [e], |s| + 1) == Count(s, |s|) + Delta(e)
  {
    CountPrefix(s + [e], s, |s|);
  }

  lemma {:induction false} InsertNet(s: seq<Event>, e: Event, x: real)
    requires Sorted(s)
    ensures Net(Insert(s, e), x) == Net(s, x) + if Passed(e, x) then Delta(e) else 0
    decreases |s|
  {
    if s == [] || Before(s[|s| - 1], e) {
      NetAppends(s, e, x);
    } else {
      var init := s[..|s| - 1];
      InsertNet(init, e, x);
      NetAppends(Insert(init, e), s[|s| - 1], x);
    }
  }

  lemma {:induction false} InsertCount(s: seq<Event>, e: Event)
    requires Sorted(s)
    ensures Count(Insert(s, e), |s| + 1) == Count(s, |s|) + Delta(e)
    decreases |s|
  {
    if s == [] || Before(s[|s| - 1], e) {
      CountAppends(s, e);
    } else {
      var init, last := s[..|s| - 1], s[|s| - 1];
      InsertCount(init, e);
      CountAppends(Insert(init, e), last);
      assert s == init + [last];
      CountAppends(init, last);
    }
  }

  /** Insertion sort; any sort with these properties gives the same sweep result. */
  method Sort(s: seq<Event>) returns (r: seq<Event>)
    ensures Sorted(r) && SameEvents(r, s)
  {
    r := [];
    for k := 0 to |s|
      invariant Sorted(r) && SameEvents(r, s[..k])
    {
      SortStep(r, s, k);
      r := Insert(r, s[k]);
    }
    assert s[..|s|] == s;
  }

  lemma SortStep(r: seq<Event>, s: seq<Event>, k: nat)
    requires k < |s| && Sorted(r) && SameEvents(r, s[..k])
    ensures SameEvents(Insert(r, s[k]), s[..k + 1])
  {
    var e, t, t' := s[k], s[..k], s[..k + 1];
    assert t' == t + [e] && t'[..k] == t;
    InsertCount(r, e);
    CountAppends(t, e);
    forall x: real
      ensures Net(Insert(r, e), x) == Net(t', x)
    {
      InsertNet(r, e, x);
      NetAppends(t, e, x);
    }
  }

  predicate EventOf(e: Event, iv: TimeInterval) {
    e == Event(iv.low, false) || e == Event(iv.high, true)
  }

  /** The events are the starts and ends of the intervals, and no others. */
  ghost predicate EventsOf(s: seq<Event>, ivs: seq<TimeInterval>) {
    && (forall i :: 0 <= i < |ivs| ==> Event(ivs[i].low, false) in s && Event(ivs[i].high, true) in s)
    && (forall e {:trigger FromSome(e, ivs)} :: e in s ==> FromSome(e, ivs))
  }

  ghost predicate FromSome(e: Event, ivs: seq<TimeInterval>) {
    exists i :: 0 <= i < |ivs| && EventOf(e, ivs[i])
  }

  lemma EventsGrow(s: seq<Event>, ivs: seq<TimeInterval>, k: nat)
    requires k < |ivs| && EventsOf(s, ivs[..k])
    ensures EventsOf(s + [Event(ivs[k].low, false), Event(ivs[k].high, true)], ivs[..k + 1])
  {
    var all, more := s + [Event(ivs[k].low, false), Event(ivs[k].high, true)], ivs[..k + 1];
    assert forall i :: 0 <= i < k ==> more[i] == ivs[..k][i];
    forall e | e in all ensures FromSome(e, more) {
      if e in s {
        assert FromSome(e, ivs[..k]);
        var i :| 0 <= i < k && EventOf(e, ivs[..k][i]);
        assert EventOf(e, more[i]);
      } else {
        assert EventOf(e, more[k]);
      }
    }
  }

  /** A start and an end for every interval. */
  method Events(ivs: seq<TimeInterval>) returns (s: seq<Event>)
    requires WellFormed(ivs)
    ensures |s| == 2 * |ivs| && Count(s, |s|) == 0
    ensures forall x :: Net(s, x) == Depth(ivs, x)
    ensures EventsOf(s, ivs)
  {
    s := [];
    for k := 0 to |ivs|
      invariant |s| == 2 * k && Count(s, |s|) == 0
      invariant forall x :: Net(s, x) == Depth(ivs[..k], x)
      invariant EventsOf(s, ivs[..k])
    {
      EventsStep(s, ivs, k);
      EventsGrow(s, ivs, k);
      s := s + [Event(ivs[k].low, false), Event(ivs[k].high, true)];
    }
    assert ivs[..|ivs|] == ivs;
  }

  lemma EventsStep(s: seq<Event>, ivs: seq<TimeInterval>, k: nat)
    requires k < |ivs| && WellFormed(ivs) && Count(s, |s|) == 0
    requires forall x :: Net(s, x) == Depth(ivs[..k], x)
    ensures var s' := s + [Event(ivs[k].low, false), Event(ivs[k].high, true)];
            Count(s', |s'|) == 0 && forall x :: Net(s', x) == Depth(ivs[..k + 1], x)
  {
    var a, b := Event(ivs[k].low, false), Event(ivs[k].high, true);
    var s' := s + [a, b];
    assert s'[..|s| + 1] == s + [a] && (s + [a])[..|s|] == s;
    CountPrefix(s', s + [a], |s| + 1);
    CountPrefix(s + [a], s, |s|);
    assert ivs[..k + 1][..k] == ivs[..k];
    forall x: real
      ensures Net(s', x) == Depth(ivs[..k + 1], x)
    {
      assert Net(s + [a], x) == Net(s, x) + if Passed(a, x) then 1 else 0;
    }
  }

  // ----- Standing at a point -----

  lemma PassedDown(a: Event, b: Event, x: real)
    requires Before(a, b) && Passed(b, x)
    ensures Passed(a, x)
  {
  }

  /** If exactly the first k events are passed at x, the net count there is the count of k. */
  lemma {:induction false} NetAt(s: seq<Event>, x: real, k: nat)
    requires k <= |s|
    requires forall i :: 0 <= i < k ==> Passed(s[i], x)
    requires forall i :: k <= i < |s| ==> !Passed(s[i], x)
    ensures Net(s, x) == Count(s, k)
  {
    if |s| > 0 {
      var init := s[..|s| - 1];
      if k == |s| {
        NetAt(init, x, k - 1);
        CountPrefix(s, init, k - 1);
      } else {
        NetAt(init, x, k);
        CountPrefix(s, init, k);
      }
    }
  }

  /** How many events are passed at x: a prefix of the sorted order. */
  lemma PassedPrefix(s: seq<Event>, x: real) returns (k: nat)
    requires Sorted(s)
    ensures k <= |s| && Net(s, x) == Count(s, k)
  {
    k := 0;
    while k < |s| && Passed(s[k], x)
      invariant 0 <= k <= |s| && forall i :: 0 <= i < k ==> Passed(s[i], x)
    {
      k := k + 1;
    }
    forall i | k <= i < |s|
      ensures !Passed(s[i], x)
    {
      if Passed(s[i], x) && i > k { PassedDown(s[k], s[i], x); }
    }
    NetAt(s, x, k);
  }

  /** Between a start and the end right after it, the net count does not change. */
  lemma NetBetween(s: seq<Event>, j: nat, x: real)
    requires Sorted(s) && 0 < j < |s| && !s[j - 1].isEnd && s[j].isEnd && s[j - 1].point <= x <= s[j].point
    ensures Net(s, x) == Count(s, j)
  {
    forall i | 0 <= i < j
      ensures Passed(s[i], x)
    {
      if i < j - 1 { PassedDown(s[i], s[j - 1], x); }
    }
    forall i | j <= i < |s|
      ensures !Passed(s[i], x)
    {
      if Passed(s[i], x) && i > j { PassedDown(s[j], s[i], x); }
    }
    NetAt(s, x, j);
  }

  /** If no end among the first |s| sees a count above b, no count anywhere is above b. */
  lemma {:induction false} CountBelow(s: seq<Event>, k: nat, b: int)
    requires k <= |s| && b >= 0 && Count(s, |s|) == 0
    requires forall j :: 0 <= j < |s| && s[j].isEnd ==> Count(s, j) <= b
    ensures Count(s, k) <= b
    decreases |s| - k
  {
    if k < |s| && !s[k].isEnd { CountBelow(s, k + 1, b); }
  }

  // ----- The sweep -----

  /** best is the largest count of at least t an end has seen so far, on the stretch right before it. */
  ghost predicate Best(s: seq<Event>, k: nat, t: int, best: int, start: real, end: real)
    requires k <= |s|
  {
    && (best == 0 || (best >= t && Stretch(s, k, best, start, end)))
    && (forall j :: 0 <= j < k && s[j].isEnd && Count(s, j) >= t ==> Count(s, j) <= best)
  }

  ghost predicate Stretch(s: seq<Event>, k: nat, best: int, start: real, end: real)
    requires k <= |s|
  {
    exists j :: 0 < j < k && !s[j - 1].isEnd && s[j].isEnd && Count(s, j) == best && s[j - 1].point == start
        && s[j].point == end
  }

  /** The start of the running stretch is the last event, when the running count could become the best. */
  ghost predicate Running(s: seq<Event>, k: nat, t: int, best: int, current: real)
    requires k <= |s|
  {
    k > 0 && !s[k - 1].isEnd && Count(s, k) >= t && Count(s, k) > best ==> current == s[k - 1].point
  }

  lemma EndAfterStart(s: seq<Event>, k: nat, t: int, best: int, start: real, end: real)
    requires k < |s| && t > 0 && Best(s, k, t, best, start, end) && s[k].isEnd && Count(s, k) >= t && Count(s, k) > best
    ensures k > 0 && !s[k - 1].isEnd
  {
    assert k > 0 ==> Count(s, k) == Count(s, k - 1) + Delta(s[k - 1]);
  }

  /** Sweep the sorted events. */
  method Sweep(s: seq<Event>, t: nat) returns (best: int, start: real, end: real)
    requires t > 0
    ensures Best(s, |s|, t, best, start, end)
  {
    best, start, end := 0, 0.0, 0.0;
    var count, current := 0, 0.0;
    for k := 0 to |s|
      invariant count == Count(s, k)
      invariant Best(s, k, t, best, start, end)
      invariant Running(s, k, t, best, current)
    {
      if !s[k].isEnd {
        count := count + 1;
        if count >= t && count > best { current := s[k].point; }
      } else {
        if count >= t && count > best {
          EndAfterStart(s, k, t, best, start, end);
          start, end, best := current, s[k].point, count;
          assert 0 < k < k + 1 && !s[k - 1].isEnd && s[k].isEnd && Count(s, k) == best && s[k - 1].point == start
              && s[k].point == end;
        }
        count := count - 1;
      }
    }
  }

  /**
   * What the intersection promises: every point of it as deep as the deepest point, which a strict majority share; and
   * it is the whole of what the intervals containing it have in common, up to the largest low and the smallest high.
   */
  ghost predicate Deepest(ivs: seq<TimeInterval>, r: TimeInterval, best: int) {
    && r.low <= r.high && 2 * best > |ivs|
    && (forall x :: r.low <= x <= r.high ==> Depth(ivs, x) == best)
    && (forall x :: Depth(ivs, x) <= best)
    && (forall i :: 0 <= i < |ivs| && Contains(ivs[i], r.low) ==> Contains(ivs[i], r.high))
    && Whole(ivs, r)
  }

  /** One interval containing r has its low, and one its high. */
  ghost predicate Whole(ivs: seq<TimeInterval>, r: TimeInterval) {
    && (exists i :: 0 <= i < |ivs| && Holds(ivs[i], r) && ivs[i].low == r.low)
    && (exists i :: 0 <= i < |ivs| && Holds(ivs[i], r) && ivs[i].high == r.high)
  }

  predicate Holds(iv: TimeInterval, r: TimeInterval) {
    iv.low <= r.low && r.high <= iv.high
  }

  /** `marzullo`: the interval, and the depth its contract speaks of. */
  method Intersect(ivs: seq<TimeInterval>) returns (r: Option<TimeInterval>, ghost best: int)
    requires WellFormed(ivs)
    ensures r.Some? <==> exists x :: 2 * Depth(ivs, x) > |ivs|
    ensures r.Some? ==> Deepest(ivs, r.value, best)
  {
    if ivs == [] { return None, 0; }
    var events := Events(ivs);
    var s := Sort(events);
    var t := |ivs| / 2 + 1;
    var count, start, end := Sweep(s, t);
    best := count;
    if count >= t {
      SweepIsDeepest(ivs, s, t, best, start, end);
      r := Some(TimeInterval(start, end));
      assert Depth(ivs, start) == best;
    } else {
      SweepFindsMajority(ivs, s, t, best, start, end);
      assert forall x :: 2 * Depth(ivs, x) <= |ivs|;
      r := None;
    }
  }

  lemma SweepFindsMajority(ivs: seq<TimeInterval>, s: seq<Event>, t: int, best: int, start: real, end: real)
    requires Sorted(s) && Count(s, |s|) == 0 && t == |ivs| / 2 + 1 && Best(s, |s|, t, best, start, end)
    requires forall x :: Net(s, x) == Depth(ivs, x)
    ensures forall x :: Depth(ivs, x) <= if best >= t then best else t - 1
  {
    var b := if best >= t then best else t - 1;
    forall x: real
      ensures Depth(ivs, x) <= b
    {
      var k := PassedPrefix(s, x);
      CountBelow(s, k, b);
    }
  }

  lemma SweepIsDeepest(ivs: seq<TimeInterval>, s: seq<Event>, t: int, best: int, start: real, end: real)
    requires Sorted(s) && Count(s, |s|) == 0 && t == |ivs| / 2 + 1 && Best(s, |s|, t, best, start, end) && best >= t
    requires forall x :: Net(s, x) == Depth(ivs, x)
    requires EventsOf(s, ivs) && WellFormed(ivs)
    ensures Deepest(ivs, TimeInterval(start, end), best)
  {
    SweepFindsMajority(ivs, s, t, best, start, end);
    var j :| 0 < j < |s| && !s[j - 1].isEnd && s[j].isEnd && Count(s, j) == best
             && s[j - 1].point == start && s[j].point == end;
    StretchIsDeepest(ivs, s, j, best);
  }

  lemma StretchIsDeepest(ivs: seq<TimeInterval>, s: seq<Event>, j: nat, best: int)
    requires Sorted(s) && 0 < j < |s| && !s[j - 1].isEnd && s[j].isEnd && Count(s, j) == best && 2 * best > |ivs|
    requires (forall x :: Net(s, x) == Depth(ivs, x)) && forall x :: Depth(ivs, x) <= best
    requires EventsOf(s, ivs) && WellFormed(ivs)
    ensures Deepest(ivs, TimeInterval(s[j - 1].point, s[j].point), best)
  {
    StretchIsFlat(ivs, s, j);
    StretchIsShared(ivs, s, j);
    StretchIsWhole(ivs, s, j);
  }

  /** The stretch starts where one of its intervals does, and ends where one does. */
  lemma StretchIsWhole(ivs: seq<TimeInterval>, s: seq<Event>, j: nat)
    requires Sorted(s) && 0 < j < |s| && !s[j - 1].isEnd && s[j].isEnd && EventsOf(s, ivs) && WellFormed(ivs)
    ensures Whole(ivs, TimeInterval(s[j - 1].point, s[j].point))
  {
    var r := TimeInterval(s[j - 1].point, s[j].point);
    assert s[j - 1] in s && s[j] in s && FromSome(s[j - 1], ivs) && FromSome(s[j], ivs);
    var a :| 0 <= a < |ivs| && EventOf(s[j - 1], ivs[a]);
    var b :| 0 <= b < |ivs| && EventOf(s[j], ivs[b]);
    NoEndBetween(s, j, Event(ivs[a].high, true));
    NoStartBetween(s, j, Event(ivs[b].low, false));
    assert Holds(ivs[a], r) && Holds(ivs[b], r);
  }

  /** A start at or before an end is at or before the start that the end follows. */
  lemma NoStartBetween(s: seq<Event>, j: nat, e: Event)
    requires Sorted(s) && 0 < j < |s| && !s[j - 1].isEnd && s[j].isEnd && e in s && !e.isEnd && e.point <= s[j].point
    ensures e.point <= s[j - 1].point
  {
    var k :| 0 <= k < |s| && s[k] == e;
  }

  lemma StretchIsFlat(ivs: seq<TimeInterval>, s: seq<Event>, j: nat)
    requires Sorted(s) && 0 < j < |s| && !s[j - 1].isEnd && s[j].isEnd
    requires forall x :: Net(s, x) == Depth(ivs, x)
    ensures s[j - 1].point <= s[j].point
    ensures forall x :: s[j - 1].point <= x <= s[j].point ==> Depth(ivs, x) == Count(s, j)
  {
    assert Before(s[j - 1], s[j]);
    forall x | s[j - 1].point <= x <= s[j].point
      ensures Depth(ivs, x) == Count(s, j)
    {
      NetBetween(s, j, x);
    }
  }

  lemma StretchIsShared(ivs: seq<TimeInterval>, s: seq<Event>, j: nat)
    requires Sorted(s) && 0 < j < |s| && !s[j - 1].isEnd && s[j].isEnd
    requires EventsOf(s, ivs)
    ensures forall i :: 0 <= i < |ivs| && Contains(ivs[i], s[j - 1].point) ==> Contains(ivs[i], s[j].point)
  {
    assert Before(s[j - 1], s[j]);
    forall i | 0 <= i < |ivs| && Contains(ivs[i], s[j - 1].point)
      ensures Contains(ivs[i], s[j].point)
    {
      NoEndBetween(s, j, Event(ivs[i].high, true));
    }
  }

  /** An end at or after a start is at or after the end that follows the start. */
  lemma NoEndBetween(s: seq<Event>, j: nat, e: Event)
    requires Sorted(s) && 0 < j < |s| && !s[j - 1].isEnd && s[j].isEnd && e in s && e.isEnd && e.point >= s[j - 1].point
    ensures e.point >= s[j].point
  {
    var k :| 0 <= k < |s| && s[k] == e;
  }

  // ----- The majority's interval -----

  lemma {:induction false} MajoritiesMeet(ivs: seq<TimeInterval>, x: real, y: real) returns (i: nat)
    requires Depth(ivs, x) + Depth(ivs, y) > |ivs|
    ensures i < |ivs| && Contains(ivs[i], x) && Contains(ivs[i], y)
    decreases |ivs|
  {
    var n := |ivs|;
    if Contains(ivs[n - 1], x) && Contains(ivs[n - 1], y) {
      i := n - 1;
    } else {
      i := MajoritiesMeet(ivs[..n - 1], x, y);
    }
  }

  /** If a strict majority contain the true value, the whole result lies inside an interval that contains it. */
  lemma ResultIsTrustworthy(ivs: seq<TimeInterval>, r: TimeInterval, best: int, truth: real) returns (i: nat)
    requires Deepest(ivs, r, best) && 2 * Depth(ivs, truth) > |ivs|
    ensures i < |ivs| && Contains(ivs[i], truth) && Contains(ivs[i], r.low) && Contains(ivs[i], r.high)
  {
    assert Depth(ivs, r.low) == best;
    i := MajoritiesMeet(ivs, truth, r.low);
  }
}
