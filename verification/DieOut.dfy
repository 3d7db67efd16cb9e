/** When a reference nobody measures any more dies out, with instantaneous hand-on. */
module DieOut {
  import opened Gossip
  import opened GossipRuns

  // ----- Instantaneous hand-on -----

  /** Every copy arrives in the very step after it is handed on. */
  ghost predicate Prompt(es: seq<Event>, st: seq<Net>)
    requires Steps(es, st)
  {
    forall i {:trigger es[i]} :: 0 <= i < |es| && es[i].Deliver? ==> i > 0 && Answers(st[i - 1], es[i - 1], es[i].f)
  }

  ghost predicate Answers(s: Net, e: Event, f: Flight) {
    e.HandOn? && Enabled(s, e) && f == Sent(s, e.n, e.r)
  }

  ghost predicate Unlagged(s: Net) {
    forall n: NodeId, r: NodeId :: s.Holds(n, r) ==> (n, r) in s.origins && s.origins[(n, r)].lag == 0
  }

  lemma UnlaggedStep(s: Net, e: Event)
    requires Unlagged(s) && Enabled(s, e) && (e.Deliver? ==> e.f.origin.lag == 0 && e.f.sent == s.now)
    ensures Unlagged(Next(s, e))
  {
    var t := Next(s, e);
    forall n: NodeId, r: NodeId | t.Holds(n, r)
      ensures (n, r) in t.origins && t.origins[(n, r)].lag == 0
    {
      var before := s.Holds(n, r);
    }
  }

  lemma {:induction false} PromptIsUnlagged(es: seq<Event>, st: seq<Net>, k: nat)
    requires Run(es, st) && Prompt(es, st) && k <= |es|
    ensures Unlagged(st[k])
  {
    if k > 0 {
      PromptIsUnlagged(es, st, k - 1);
      if es[k - 1].Deliver? {
        PromptIsUnlagged(es, st, k - 2);
        PromptDelivery(st[k - 2], es[k - 2], es[k - 1].f);
      }
      UnlaggedStep(st[k - 1], es[k - 1]);
    }
  }

  lemma PromptDelivery(s: Net, e: Event, f: Flight)
    requires Unlagged(s) && Answers(s, e, f)
    ensures f.origin.lag == 0 && f.sent == Next(s, e).now
  {
    assert s.Holds(e.n, e.r);
  }

  lemma AnswerIsHeld(s: Net, e: Event, f: Flight)
    requires Sound(s) && Answers(s, e, f)
    ensures s.Holds(e.n, f.anchor.node) && f.anchor.node == e.r
  {
    assert s.Holds(e.n, e.r);
  }

  // ----- Who holds a reference -----

  ghost predicate Measures(e: Event, r: NodeId) {
    e.Measure? && e.accepted > 0 && e.reading.node == r
  }

  /** Node n measures r, or a copy of r arrives at n. */
  ghost predicate Gets(e: Event, n: NodeId, r: NodeId) {
    (e.Deliver? && e.to == n && e.f.anchor.node == r) || (Measures(e, r) && e.n == n)
  }

  /** Node n forgets r, or expires it. */
  ghost predicate Drops(s: Net, e: Event, n: NodeId, r: NodeId) {
    || e == Forget(n, r)
    || (e.Expire? && e.n == n && s.Holds(n, r) && Stale(s.books[n][r], s.now, e.maxAge))
  }

  lemma StepHolds(s: Net, e: Event, n: NodeId, r: NodeId)
    requires Enabled(s, e)
    ensures Next(s, e).Holds(n, r) <==> Gets(e, n, r) || (s.Holds(n, r) && !Drops(s, e, n, r))
  {
  }

  /** Node n held r at a, or got it in step j - 1, and has not dropped it in a step from j on. */
  ghost predicate Keeps(es: seq<Event>, st: seq<Net>, a: nat, b: nat, n: NodeId, r: NodeId, j: nat)
    requires |st| == |es| + 1 && a <= j <= b <= |es|
  {
    && (if j == a then st[a].Holds(n, r) else Gets(es[j - 1], n, r))
    && forall i {:trigger es[i]} :: j <= i < b ==> !Drops(st[i], es[i], n, r)
  }

  ghost predicate Kept(es: seq<Event>, st: seq<Net>, a: nat, b: nat, n: NodeId, r: NodeId)
    requires |st| == |es| + 1 && a <= b <= |es|
  {
    exists j :: a <= j <= b && Keeps(es, st, a, b, n, r, j)
  }

  lemma KeptOn(es: seq<Event>, st: seq<Net>, a: nat, b: nat, n: NodeId, r: NodeId)
    requires |st| == |es| + 1 && a <= b < |es|
    ensures Kept(es, st, a, b + 1, n, r) <==>
            Gets(es[b], n, r) || (Kept(es, st, a, b, n, r) && !Drops(st[b], es[b], n, r))
  {
    if Gets(es[b], n, r) { assert Keeps(es, st, a, b + 1, n, r, b + 1); }
    if j :| a <= j <= b && Keeps(es, st, a, b, n, r, j) {
      assert !Drops(st[b], es[b], n, r) ==> Keeps(es, st, a, b + 1, n, r, j);
    }
    if Kept(es, st, a, b + 1, n, r) { KeptBack(es, st, a, b, b + 1, n, r); }
  }

  lemma KeptBack(es: seq<Event>, st: seq<Net>, a: nat, b: nat, c: nat, n: NodeId, r: NodeId)
    requires |st| == |es| + 1 && a <= b < |es| && c == b + 1 && Kept(es, st, a, c, n, r)
    ensures Gets(es[b], n, r) || (Kept(es, st, a, b, n, r) && !Drops(st[b], es[b], n, r))
  {
    var j :| a <= j <= c && Keeps(es, st, a, c, n, r, j);
    if j <= b { assert Keeps(es, st, a, b, n, r, j); }
  }

  /** In every run, a node holds r if and only if it held r before or got it since, and has not dropped it since. */
  lemma {:induction false} HeldIff(es: seq<Event>, st: seq<Net>, a: nat, b: nat, n: NodeId, r: NodeId)
    requires Steps(es, st) && a <= b <= |es|
    ensures st[b].Holds(n, r) <==> exists j :: a <= j <= b && Keeps(es, st, a, b, n, r, j)
    decreases b
  {
    if a < b {
      HeldIff(es, st, a, b - 1, n, r);
      StepHolds(st[b - 1], es[b - 1], n, r);
      KeptOn(es, st, a, b - 1, n, r);
    } else {
      assert st[a].Holds(n, r) ==> Keeps(es, st, a, b, n, r, a);
    }
  }

  // ----- A reference nobody measures -----

  /** Nobody holds r. */
  ghost predicate Gone(s: Net, r: NodeId) {
    forall n :: !s.Holds(n, r)
  }

  /** All measurements of r are more than maxAge old. */
  ghost predicate Overdue(s: Net, r: NodeId, maxAge: nat) {
    forall q :: q in s.measurements && q.0 == r ==> s.now - q.1 > maxAge
  }

  /** Nothing measures r between steps a and b. */
  ghost predicate Unmeasured(es: seq<Event>, a: nat, b: nat, r: NodeId)
    requires a <= b <= |es|
  {
    forall i {:trigger es[i]} :: a <= i < b ==> !Measures(es[i], r)
  }

  lemma {:induction false} OverdueStays(es: seq<Event>, st: seq<Net>, a: nat, b: nat, r: NodeId, maxAge: nat)
    requires Steps(es, st) && a <= b <= |es| && Unmeasured(es, a, b, r) && Overdue(st[a], r, maxAge)
    ensures Overdue(st[b], r, maxAge)
    decreases b
  {
    if a < b {
      OverdueStays(es, st, a, b - 1, r, maxAge);
      OverdueStep(st[b - 1], es[b - 1], r, maxAge);
    }
  }

  lemma OverdueStep(s: Net, e: Event, r: NodeId, maxAge: nat)
    requires Enabled(s, e) && !Measures(e, r) && Overdue(s, r, maxAge)
    ensures Overdue(Next(s, e), r, maxAge)
  {
    var t := Next(s, e);
    forall q | q in t.measurements && q.0 == r
      ensures t.now - q.1 > maxAge
    {
      assert q in s.measurements;
    }
  }

  /** Node n forgets r, or expires its anchors at a limit of at most maxAge. */
  predicate Clears(e: Event, n: NodeId, r: NodeId, maxAge: nat) {
    e == Forget(n, r) || (e.Expire? && e.n == n && e.maxAge <= maxAge)
  }

  /** An overdue copy does not outlive such an expiry. */
  lemma ClearedIsOut(s: Net, e: Event, n: NodeId, r: NodeId, maxAge: nat)
    requires Sound(s) && Unlagged(s) && Overdue(s, r, maxAge) && Enabled(s, e) && Clears(e, n, r, maxAge)
    ensures !Next(s, e).Holds(n, r)
  {
    if s.Holds(n, r) { assert CopySound(s, r, s.books[n][r], s.origins[(n, r)]); }
    StepHolds(s, e, n, r);
  }

  lemma {:induction false} StaysOut(es: seq<Event>, st: seq<Net>, a: nat, b: nat, n: NodeId, r: NodeId)
    requires Steps(es, st) && a <= b <= |es| && !st[a].Holds(n, r)
    requires forall j {:trigger es[j]} :: a <= j < b ==> !Gets(es[j], n, r)
    ensures !st[b].Holds(n, r)
    decreases b
  {
    if a < b {
      StaysOut(es, st, a, b - 1, n, r);
      StepHolds(st[b - 1], es[b - 1], n, r);
    }
  }

  /** Node n holds r at a, or a copy of it reaches n before b. */
  ghost predicate Reached(es: seq<Event>, st: seq<Net>, a: nat, b: nat, n: NodeId, r: NodeId)
    requires |st| == |es| + 1 && a <= b <= |es|
  {
    st[a].Holds(n, r) || exists j {:trigger es[j]} :: a <= j < b && Gets(es[j], n, r)
  }

  /** Node n clears r in step i, and no copy of it reaches n from then to b. */
  ghost predicate ClearsLast(es: seq<Event>, i: nat, b: nat, n: NodeId, r: NodeId, maxAge: nat)
    requires i < b <= |es|
  {
    Clears(es[i], n, r, maxAge) && forall j {:trigger es[j]} :: i < j < b ==> !Gets(es[j], n, r)
  }

  ghost predicate Cleared(es: seq<Event>, a: nat, b: nat, n: NodeId, r: NodeId, maxAge: nat)
    requires a <= b <= |es|
  {
    exists i :: a <= i < b && ClearsLast(es, i, b, n, r, maxAge)
  }

  lemma ClearedDoesNotHold(es: seq<Event>, st: seq<Net>, a: nat, b: nat, n: NodeId, r: NodeId, maxAge: nat)
    requires Run(es, st) && Prompt(es, st) && a <= b <= |es| && Unmeasured(es, a, b, r) && Overdue(st[a], r, maxAge)
    requires Cleared(es, a, b, n, r, maxAge)
    ensures !st[b].Holds(n, r)
  {
    var i :| a <= i < b && ClearsLast(es, i, b, n, r, maxAge);
    RunIsSound(es, st, i);
    PromptIsUnlagged(es, st, i);
    OverdueStays(es, st, a, i, r, maxAge);
    ClearedIsOut(st[i], es[i], n, r, maxAge);
    StaysOut(es, st, i + 1, b, n, r);
  }

  /** No node expires at a looser limit than maxAge between steps a and b. */
  ghost predicate Tight(es: seq<Event>, a: nat, b: nat, maxAge: nat)
    requires a <= b <= |es|
  {
    forall i {:trigger es[i]} :: a <= i < b && es[i].Expire? ==> es[i].maxAge <= maxAge
  }

  lemma {:induction false} LostIsCleared(es: seq<Event>, st: seq<Net>, a: nat, b: nat, n: NodeId, r: NodeId,
                                         maxAge: nat)
    requires Steps(es, st) && a <= b <= |es| && Tight(es, a, b, maxAge)
    requires Reached(es, st, a, b, n, r) && !st[b].Holds(n, r)
    ensures Cleared(es, a, b, n, r, maxAge)
    decreases b
  {
    if a < b {
      StepHolds(st[b - 1], es[b - 1], n, r);
      if st[b - 1].Holds(n, r) {
        assert ClearsLast(es, b - 1, b, n, r, maxAge);
      } else {
        LostIsCleared(es, st, a, b - 1, n, r, maxAge);
        ClearedStill(es, a, b - 1, n, r, maxAge);
      }
    }
  }

  lemma ClearedStill(es: seq<Event>, a: nat, b: nat, n: NodeId, r: NodeId, maxAge: nat)
    requires a <= b < |es| && Cleared(es, a, b, n, r, maxAge) && !Gets(es[b], n, r)
    ensures Cleared(es, a, b + 1, n, r, maxAge)
  {
    var i :| a <= i < b && ClearsLast(es, i, b, n, r, maxAge);
    assert ClearsLast(es, i, b + 1, n, r, maxAge);
  }

  /** Every node reached between steps a and b clears r last. */
  ghost predicate AllCleared(es: seq<Event>, st: seq<Net>, a: nat, b: nat, r: NodeId, maxAge: nat)
    requires |st| == |es| + 1 && a <= b <= |es|
  {
    forall n :: Reached(es, st, a, b, n, r) ==> Cleared(es, a, b, n, r, maxAge)
  }

  lemma AllClearedIsGone(es: seq<Event>, st: seq<Net>, a: nat, b: nat, r: NodeId, maxAge: nat)
    requires Run(es, st) && Prompt(es, st) && a <= b <= |es| && Unmeasured(es, a, b, r) && Overdue(st[a], r, maxAge)
    requires AllCleared(es, st, a, b, r, maxAge)
    ensures Gone(st[b], r)
  {
    forall n
      ensures !st[b].Holds(n, r)
    {
      if Reached(es, st, a, b, n, r) {
        ClearedDoesNotHold(es, st, a, b, n, r, maxAge);
      } else {
        StaysOut(es, st, a, b, n, r);
      }
    }
  }

  /**
   * With instantaneous hand-on, and expiry at one limit, an overdue reference is gone exactly when every node a copy
   * reached has expired it last: after that node's expiry no copy was handed to it again.
   */
  lemma GoneIffCleared(es: seq<Event>, st: seq<Net>, a: nat, b: nat, r: NodeId, maxAge: nat)
    requires Run(es, st) && Prompt(es, st) && a <= b <= |es| && Unmeasured(es, a, b, r) && Overdue(st[a], r, maxAge)
    requires Tight(es, a, b, maxAge)
    ensures Gone(st[b], r) <==> AllCleared(es, st, a, b, r, maxAge)
  {
    if AllCleared(es, st, a, b, r, maxAge) { AllClearedIsGone(es, st, a, b, r, maxAge); }
    if Gone(st[b], r) {
      forall n | Reached(es, st, a, b, n, r)
        ensures Cleared(es, a, b, n, r, maxAge)
      {
        LostIsCleared(es, st, a, b, n, r, maxAge);
      }
    }
  }

  /** Once gone, r comes back with no hand-on. */
  lemma {:induction false} GoneStays(es: seq<Event>, st: seq<Net>, b: nat, k: nat, r: NodeId)
    requires Run(es, st) && Prompt(es, st) && b <= k <= |es| && Unmeasured(es, b, k, r) && Gone(st[b], r)
    ensures Gone(st[k], r)
    decreases k
  {
    if b < k {
      GoneStays(es, st, b, k - 1, r);
      var e := es[k - 1];
      if e.Deliver? {
        RunIsSound(es, st, k - 2);
        AnswerIsHeld(st[k - 2], es[k - 2], e.f);
        StepHolds(st[k - 2], es[k - 2], es[k - 2].n, es[k - 2].r);
      }
      forall n
        ensures !st[k].Holds(n, r)
      {
        StepHolds(st[k - 1], e, n, r);
      }
    }
  }

  /**
   * With instantaneous hand-on, a reference nobody measures for maxAge dies out for good once every node a copy reached
   * has expired it and got no copy since. Hand-ons may go on meanwhile.
   */
  lemma OverdueDiesOut(es: seq<Event>, st: seq<Net>, a: nat, b: nat, maxAge: nat, r: NodeId, k: nat)
    requires Run(es, st) && Prompt(es, st) && a <= b <= k <= |es| && Unmeasured(es, a, k, r)
    requires Overdue(st[a], r, maxAge) && AllCleared(es, st, a, b, r, maxAge)
    ensures Gone(st[k], r)
  {
    AllClearedIsGone(es, st, a, b, r, maxAge);
    GoneStays(es, st, b, k, r);
  }

  // ----- Expiring before handing on -----

  predicate HandsOn(e: Event, r: NodeId) {
    e.HandOn? && e.r == r
  }

  /** Node n clears r between steps a and b. */
  ghost predicate ClearsBetween(es: seq<Event>, a: nat, b: nat, n: NodeId, r: NodeId, maxAge: nat)
    requires a <= b <= |es|
  {
    exists i {:trigger es[i]} :: a <= i < b && Clears(es[i], n, r, maxAge)
  }

  /** Between steps a and b, every node that hands r on has cleared it before. */
  ghost predicate ClearsFirst(es: seq<Event>, a: nat, b: nat, r: NodeId, maxAge: nat)
    requires a <= b <= |es|
  {
    forall j {:trigger es[j]} :: a <= j < b && HandsOn(es[j], r) ==> ClearsBetween(es, a, j, es[j].n, r, maxAge)
  }

  ghost predicate NoHandOn(es: seq<Event>, a: nat, b: nat, r: NodeId)
    requires a <= b <= |es|
  {
    forall j {:trigger es[j]} :: a <= j < b ==> !HandsOn(es[j], r)
  }

  /** Without hand-on of r, nothing reaches a node after it has cleared r. */
  lemma ClearedOnce(es: seq<Event>, st: seq<Net>, a: nat, b: nat, n: NodeId, r: NodeId, maxAge: nat)
    requires Run(es, st) && Prompt(es, st) && a <= b <= |es| && Unmeasured(es, a, b, r) && NoHandOn(es, a, b, r)
    requires ClearsBetween(es, a, b, n, r, maxAge)
    ensures Cleared(es, a, b, n, r, maxAge)
  {
    var i :| a <= i < b && Clears(es[i], n, r, maxAge);
    forall j | i < j < b
      ensures !Gets(es[j], n, r)
    {
      if es[j].Deliver? {
        RunIsSound(es, st, j - 1);
        AnswerIsHeld(st[j - 1], es[j - 1], es[j].f);
      }
    }
    assert ClearsLast(es, i, b, n, r, maxAge);
  }

  /** A node that has cleared r, with no hand-on of it since, has nothing to hand on. */
  lemma ClearedIsSilent(es: seq<Event>, st: seq<Net>, a: nat, k: nat, r: NodeId, maxAge: nat)
    requires Run(es, st) && Prompt(es, st) && a <= k < |es| && Unmeasured(es, a, k, r) && NoHandOn(es, a, k, r)
    requires Overdue(st[a], r, maxAge) && es[k].HandOn? && ClearsBetween(es, a, k, es[k].n, r, maxAge)
    ensures es[k].r != r
  {
    ClearedOnce(es, st, a, k, es[k].n, r, maxAge);
    ClearedDoesNotHold(es, st, a, k, es[k].n, r, maxAge);
  }

  lemma {:induction false} ClearsFirstSilences(es: seq<Event>, st: seq<Net>, a: nat, b: nat, r: NodeId, maxAge: nat,
                                               k: nat)
    requires Run(es, st) && Prompt(es, st) && a <= k <= b <= |es| && Unmeasured(es, a, b, r)
    requires Overdue(st[a], r, maxAge) && ClearsFirst(es, a, b, r, maxAge)
    ensures NoHandOn(es, a, k, r)
    decreases k
  {
    if a < k {
      ClearsFirstSilences(es, st, a, b, r, maxAge, k - 1);
      if HandsOn(es[k - 1], r) { ClearedIsSilent(es, st, a, k - 1, r, maxAge); }
    }
  }

  /**
   * So if every node clears an overdue reference, and hands it on only afterwards, it is never handed on, and is gone
   * for good.
   */
  lemma ClearingFirstSuffices(es: seq<Event>, st: seq<Net>, a: nat, b: nat, r: NodeId, maxAge: nat, k: nat)
    requires Run(es, st) && Prompt(es, st) && a <= b <= k <= |es| && Unmeasured(es, a, k, r)
    requires Overdue(st[a], r, maxAge) && ClearsFirst(es, a, b, r, maxAge)
    requires forall n :: Reached(es, st, a, b, n, r) ==> ClearsBetween(es, a, b, n, r, maxAge)
    ensures NoHandOn(es, a, b, r) && Gone(st[k], r)
  {
    ClearsFirstSilences(es, st, a, b, r, maxAge, b);
    forall n | Reached(es, st, a, b, n, r)
      ensures Cleared(es, a, b, n, r, maxAge)
    {
      ClearedOnce(es, st, a, b, n, r, maxAge);
    }
    OverdueDiesOut(es, st, a, b, maxAge, r, k);
  }

  // ----- Handing on before expiring -----

  function Player(k: nat): NodeId {
    k % 2
  }

  /** SERVER was measured once, more than m ago, and only the player of round k holds it. */
  ghost predicate Served(s: Net, m: nat, k: nat) {
    && s.now == m + 1 && s.measurements == {(SERVER, 0)}
    && s.Holds(Player(k), SERVER) && !s.Holds(Player(k + 1), SERVER)
    && s.books[Player(k)][SERVER].measured == 0 && s.books[Player(k)][SERVER].anchor == First()
  }

  /** The player hands SERVER on to the other, and then expires it. */
  lemma Volley(s: Net, m: nat, k: nat) returns (es: seq<Event>, st: seq<Net>)
    requires Sound(s) && Served(s, m, k)
    ensures Steps(es, st) && Prompt(es, st) && st[0] == s && |es| == 3 && Served(st[3], m, k + 1)
    ensures es[0].HandOn? && es[1].Deliver? && es[2] == Expire(Player(k), m)
  {
    es := [HandOn(Player(k), SERVER), Deliver(Sent(s, Player(k), SERVER), Player(k + 1)), Expire(Player(k), m)];
    var s1 := Next(s, es[0]);
    var s2 := Next(s1, es[1]);
    st := [s, s1, s2, Next(s2, es[2])];
  }

  lemma Service(m: nat) returns (es: seq<Event>, st: seq<Net>)
    ensures Run(es, st) && Prompt(es, st) && |es| == 2 && Served(st[2], m, 0)
  {
    var s0 := Net(0, map[], map[], {}, {});
    var s1 := Next(s0, Measure(0, First(), 1));
    es, st := [Measure(0, First(), 1), Tick(m + 1)], [s0, s1, Next(s1, Tick(m + 1))];
  }

  lemma PromptJoin(es: seq<Event>, st: seq<Net>, es': seq<Event>, st': seq<Net>)
    requires Steps(es, st) && Steps(es', st') && st[|es|] == st'[0] && Prompt(es, st) && Prompt(es', st')
    ensures Steps(es + es', st + st'[1..]) && Prompt(es + es', st + st'[1..])
  {
    StepsJoin(es, st, es', st');
    var e, t := es + es', st + st'[1..];
    forall i | 0 <= i < |e| && e[i].Deliver?
      ensures i > 0 && Answers(t[i - 1], e[i - 1], e[i].f)
    {
      if i >= |es| { assert e[i] == es'[i - |es|]; }
    }
  }

  /** After the first two events, k rounds of hand-on, delivery and expiry by the player of each round. */
  ghost predicate Rounds(es: seq<Event>, m: nat, k: nat) {
    && |es| == 2 + 3 * k && (forall i {:trigger es[i]} :: 2 <= i < |es| ==> !es[i].Measure?)
    && forall j {:trigger Player(j)} :: 0 <= j < k ==> es[4 + 3 * j] == Expire(Player(j), m)
  }

  lemma OneMoreRound(es: seq<Event>, m: nat, k: nat, round: seq<Event>)
    requires Rounds(es, m, k) && |round| == 3 && round[0].HandOn? && round[1].Deliver?
    requires round[2] == Expire(Player(k), m)
    ensures Rounds(es + round, m, k + 1)
  {
  }

  lemma {:induction false} Rally(m: nat, k: nat) returns (es: seq<Event>, st: seq<Net>)
    ensures Run(es, st) && Prompt(es, st) && Rounds(es, m, k) && Served(st[2], m, 0) && Served(st[|es|], m, k)
    decreases k
  {
    if k == 0 {
      es, st := Service(m);
    } else {
      var es0, st0 := Rally(m, k - 1);
      RunIsSound(es0, st0, |es0|);
      var es1, st1 := Volley(st0[|es0|], m, k - 1);
      PromptJoin(es0, st0, es1, st1);
      OneMoreRound(es0, m, k - 1, es1);
      es, st := es0 + es1, st0 + st1[1..];
    }
  }

  /**
   * Handing on before expiring, two nodes keep an overdue reference for ever: however many rounds each hands it to the
   * other and then expires it, with instantaneous hand-on and a single measurement, one of them still holds it.
   */
  lemma PingPong(m: nat, k: nat) returns (es: seq<Event>, st: seq<Net>)
    ensures Run(es, st) && Prompt(es, st) && Rounds(es, m, k) && st[|es|].measurements == {(SERVER, 0)}
    ensures Overdue(st[2], SERVER, m) && Unmeasured(es, 2, |es|, SERVER) && st[|es|].Holds(Player(k), SERVER)
  {
    es, st := Rally(m, k);
  }
}
