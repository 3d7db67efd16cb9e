/** The solver object: its nodes, its table of measurements, and its two loops. */
module SolverState {
  import opened Basics
  import opened Twist
  import opened Solver

  datatype SolveResult = SolveResult(iterations: nat, maxDefect: Option<nat>, meanDefect: Option<nat>, converged: bool)
  {
    /** Nothing measured yet, or a defect beyond the tolerance. */
    predicate Beyond(tolerance: nat) {
      maxDefect.None? || maxDefect.value > tolerance
    }
  }

  /** Edge k touches node i and shows it a defect of size d. */
  ghost predicate Shows(es: seq<Entry>, x: Offsets, i: NodeId, k: nat, d: int) {
    k < |es| && Touches(es[k], x, i) && Abs(Defect(es[k], x)) == d
  }

  ghost predicate Shown(es: seq<Entry>, x: Offsets, d: int) {
    exists i, k :: Shows(es, x, i, k, d)
  }

  /** The sizes of the defects node i sees over the first t edges, in table order. */
  ghost function SizesSeen(es: seq<Entry>, t: nat, x: Offsets, i: NodeId): seq<nat>
    requires t <= |es|
  {
    if t == 0 then [] else
      SizesSeen(es, t - 1, x, i) + if Touches(es[t - 1], x, i) then [Abs(Defect(es[t - 1], x))] else []
  }

  lemma {:induction false} SeenShows(es: seq<Entry>, t: nat, x: Offsets, i: NodeId)
    requires t <= |es|
    ensures forall k :: 0 <= k < t && Touches(es[k], x, i) ==> Abs(Defect(es[k], x)) in SizesSeen(es, t, x, i)
    ensures t == |es| ==> Covered(es, x, i, SizesSeen(es, t, x, i))
    ensures forall d :: d in SizesSeen(es, t, x, i) ==> Shown(es, x, d)
  {
    if t > 0 {
      SeenShows(es, t - 1, x, i);
      if Touches(es[t - 1], x, i) { assert Shows(es, x, i, t - 1, Abs(Defect(es[t - 1], x))); }
    }
  }

  /** Those of the first j nodes, one after the other. */
  ghost function AllSeen(es: seq<Entry>, x: Offsets, ids: seq<NodeId>, j: nat): seq<nat>
    requires j <= |ids|
  {
    if j == 0 then [] else AllSeen(es, x, ids, j - 1) + SizesSeen(es, |es|, x, ids[j - 1])
  }

  lemma {:induction false} AllSeenShows(es: seq<Entry>, x: Offsets, ids: seq<NodeId>, j: nat)
    requires j <= |ids|
    ensures forall k :: 0 <= k < j ==> Covered(es, x, ids[k], AllSeen(es, x, ids, j))
    ensures forall d :: d in AllSeen(es, x, ids, j) ==> Shown(es, x, d)
  {
    if j > 0 {
      var before, mine := AllSeen(es, x, ids, j - 1), SizesSeen(es, |es|, x, ids[j - 1]);
      AllSeenShows(es, x, ids, j - 1);
      SeenShows(es, |es|, x, ids[j - 1]);
      assert AllSeen(es, x, ids, j) == before + mine;
      forall k | 0 <= k < j
        ensures Covered(es, x, ids[k], before + mine)
      {
        if k < j - 1 { StillCovered(es, x, ids[k], before, mine); } else { NowCovered(es, x, ids[k], before, mine); }
      }
    }
  }

  lemma StillCovered(es: seq<Entry>, x: Offsets, i: NodeId, before: seq<nat>, mine: seq<nat>)
    requires Covered(es, x, i, before)
    ensures Covered(es, x, i, before + mine)
  {
  }

  lemma NowCovered(es: seq<Entry>, x: Offsets, i: NodeId, before: seq<nat>, mine: seq<nat>)
    requires Covered(es, x, i, mine)
    ensures Covered(es, x, i, before + mine)
  {
  }

  /** ds holds the size of every defect node i sees. */
  ghost predicate Covered(es: seq<Entry>, x: Offsets, i: NodeId, ds: seq<nat>) {
    forall k :: 0 <= k < |es| && Touches(es[k], x, i) ==> Abs(Defect(es[k], x)) in ds
  }

  /** Every active edge's defect is at most 1.6 d. */
  ghost predicate Close(es: seq<Entry>, x: Offsets, d: int) {
    forall k :: 0 <= k < |es| && Active(es[k], x) ==> -16 * d <= 10 * Defect(es[k], x) <= 16 * d
  }

  /** The other end of an edge at node i. */
  function Other(e: Entry, i: NodeId): NodeId {
    if e.lo == i then e.hi else e.lo
  }

  lemma OtherLatest(es: seq<Entry>, k: nat, i: NodeId)
    requires Table(es) && k < |es| && (i == es[k].lo || i == es[k].hi)
    ensures Latest(es, i, Other(es[k], i)) == if es[k].twists == [] then None else Some(Last(es[k]))
  {
    GetAt(es, k, i, Other(es[k], i));
  }

  lemma NeighborStep(es: seq<Entry>, i: NodeId, t: nat)
    requires t < |es|
    ensures NeighborsOf(es, i, t + 1)
         == if i == es[t].lo || i == es[t].hi then NeighborsOf(es, i, t) + [Other(es[t], i)] else NeighborsOf(es, i, t)
  {
  }

  /** Each neighbour listed stands for one edge at the node, in table order. */
  ghost function EdgeOf(es: seq<Entry>, i: NodeId, t: nat, j: nat): (k: nat)
    requires t <= |es| && j < |NeighborsOf(es, i, t)|
    ensures k < t && (i == es[k].lo || i == es[k].hi)
    ensures NeighborsOf(es, i, t)[j] == Other(es[k], i) && |NeighborsOf(es, i, k)| == j
  {
    NeighborStep(es, i, t - 1);
    if j < |NeighborsOf(es, i, t - 1)| then EdgeOf(es, i, t - 1, j) else t - 1
  }

  /** Edges between two listed ones do not touch the node. */
  lemma {:induction false} Skipped(es: seq<Entry>, x: Offsets, i: NodeId, k: nat, t: nat)
    requires k <= t <= |es| && NeighborsOf(es, i, k) == NeighborsOf(es, i, t)
    ensures Pull(es, k, x, i) == Pull(es, t, x, i) && Load(es, k, x, i) == Load(es, t, x, i)
    ensures SizesSeen(es, k, x, i) == SizesSeen(es, t, x, i)
  {
    if k < t {
      NeighborGrows(es, i, k, t - 1);
      NeighborStep(es, i, t - 1);
      Skipped(es, x, i, k, t - 1);
    }
  }

  lemma {:induction false} NeighborGrows(es: seq<Entry>, i: NodeId, k: nat, t: nat)
    requires k <= t <= |es|
    ensures NeighborsOf(es, i, k) <= NeighborsOf(es, i, t)
  {
    if k < t {
      NeighborGrows(es, i, k, t - 1);
      NeighborStep(es, i, t - 1);
    }
  }

  class HolonomySolver {
    var nodes: Offsets
    var ids: seq<NodeId>
    const lut: TwistLUT
    var iteration: nat

    ghost predicate Valid()
      reads this, lut
    {
      lut.Valid() && Lists(ids, nodes.Keys)
    }

    constructor ()
      ensures Valid() && fresh(lut) && nodes == map[] && iteration == 0
    {
      nodes, ids, iteration := map[], [], 0;
      lut := new TwistLUT();
    }

    method AddNode(id: NodeId, offset: int)
      requires Valid()
      modifies this
      ensures Valid() && nodes == old(nodes)[id := offset] && iteration == old(iteration)
    {
      if id !in nodes { ids := ids + [id]; }
      nodes := nodes[id := offset];
    }

    method AddMeasurement(a: NodeId, b: NodeId, t: TwistIndex)
      requires Valid()
      modifies lut
      ensures Valid() && Latest(lut.entries, a, b) == Some(Oriented(a, b, t))
      ensures forall c, d :: EdgeKey(c, d) != EdgeKey(a, b) ==>
                Latest(lut.entries, c, d) == Latest(old(lut.entries), c, d)
    {
      lut.Insert(a, b, t);
    }

    /** The neighbours' pull on one node. */
    method Accumulate(i: NodeId) returns (sum: int, weight: nat, ds: seq<nat>)
      requires Valid() && i in nodes
      ensures sum == Pull(lut.entries, |lut.entries|, nodes, i)
      ensures weight == Load(lut.entries, |lut.entries|, nodes, i)
      ensures ds == SizesSeen(lut.entries, |lut.entries|, nodes, i)
    {
      sum, weight, ds := 0, 0, [];
      var nb := lut.Neighbors(i);
      var es, x := lut.entries, nodes;
      ghost var t: nat := 0;
      for j := 0 to |nb|
        invariant t <= |es| && |NeighborsOf(es, i, t)| == j && Counted(es, t, x, i, sum, weight, ds)
      {
        t := Advance(es, x, i, t, EdgeOf(es, i, |es|, j), sum, weight, ds);
        NeighborStep(es, i, t);
        sum, weight, ds := Weigh(es, x, i, nb[j], t, sum, weight, ds);
        t := t + 1;
      }
      t := Advance(es, x, i, t, |es|, sum, weight, ds);
    }

    /** Every neighbour's correction, gathered before any node moves. */
    method Gather() returns (updates: map<NodeId, int>, ds: seq<nat>)
      requires Valid()
      ensures forall i :: i in updates ==> i in nodes && updates[i] == Correction(lut.entries, nodes, i)
      ensures forall i :: i in nodes && i !in updates ==> Correction(lut.entries, nodes, i) == 0
      ensures ds == AllSeen(lut.entries, nodes, ids, |ids|)
    {
      updates, ds := map[], [];
      for j := 0 to |ids|
        invariant forall i :: i in updates ==> i in nodes && updates[i] == Correction(lut.entries, nodes, i)
        invariant forall k :: 0 <= k < j && ids[k] !in updates ==> Correction(lut.entries, nodes, ids[k]) == 0
        invariant ds == AllSeen(lut.entries, nodes, ids, j)
      {
        var c, s := Correct(ids[j]);
        if c.Some? { updates := updates[ids[j] := c.value]; }
        ds := ds + s;
      }
    }

    /** One node's correction, if any neighbour weighs on it. */
    method Correct(i: NodeId) returns (c: Option<int>, ds: seq<nat>)
      requires Valid() && i in nodes
      ensures c.Or(0) == Correction(lut.entries, nodes, i) && ds == SizesSeen(lut.entries, |lut.entries|, nodes, i)
    {
      var sum, weight, s := Accumulate(i);
      c, ds := if weight > 0 then Some(TDiv(30 * sum, weight)) else None, s;
    }

    /** One iteration: every node moves at once by its damped correction. */
    method Step() returns (r: SolveResult)
      requires Valid()
      modifies this
      ensures Valid() && ids == old(ids) && iteration == old(iteration) + 1
      ensures nodes == Stepped(lut.entries, old(nodes))
      ensures r.iterations == iteration && r.maxDefect.Some? && r.converged == (r.maxDefect.value < 1000)
      ensures LargestDefect(lut.entries, old(nodes), r.maxDefect.value)
      ensures Loopless(lut.entries) ==> r.meanDefect == Some(MeanDefect(lut.entries, old(nodes)))
    {
      var updates, ds := Gather();
      var max, mean := Summarise(lut.entries, nodes, ids, ds);
      Move(updates);
      iteration := iteration + 1;
      r := SolveResult(iteration, Some(max), Some(mean), max < 1000);
    }

    /** Move every node by its correction at once. */
    method Move(updates: map<NodeId, int>)
      requires Valid()
      requires forall i :: i in updates ==> i in nodes && updates[i] == Correction(lut.entries, nodes, i)
      requires forall i :: i in nodes && i !in updates ==> Correction(lut.entries, nodes, i) == 0
      modifies this`nodes
      ensures Valid() && nodes == Stepped(lut.entries, old(nodes))
    {
      nodes := map i | i in nodes :: if i in updates then nodes[i] + updates[i] else nodes[i];
    }

    /** Step until the measured defect is within the tolerance, or the iterations run out. */
    method Solve(maxIterations: nat, tolerance: nat) returns (r: SolveResult, ghost steps: nat)
      requires Valid()
      modifies this
      ensures Valid() && steps <= maxIterations && iteration == old(iteration) + steps
      ensures Solved(lut.entries, old(nodes), steps, nodes, r, tolerance)
      ensures r.Beyond(tolerance) ==> steps == maxIterations
      ensures r.iterations == if steps == 0 then 0 else iteration
    {
      r, steps := SolveResult(0, None, None, false), 0;
      ghost var x0, es := nodes, lut.entries;
      var s := 0;
      while s < maxIterations && r.Beyond(tolerance)
        invariant Valid() && s <= maxIterations && iteration == old(iteration) + s && es == lut.entries
        invariant Solved(es, x0, s, nodes, r, tolerance)
        invariant r.iterations == if s == 0 then 0 else iteration
      {
        r := Attempt(es, x0, s, r, tolerance);
        s := s + 1;
      }
      steps := s;
    }

    /** Step number s + 1 of a solve from x0, converged also when within the tolerance. */
    method Attempt(ghost es: seq<Entry>, ghost x0: Offsets, ghost s: nat, ghost before: SolveResult, tolerance: nat)
      returns (r: SolveResult)
      requires Valid() && es == lut.entries && Solved(es, x0, s, nodes, before, tolerance)
      requires before.Beyond(tolerance)
      modifies this
      ensures Valid() && es == lut.entries && iteration == old(iteration) + 1
      ensures r.maxDefect.Some? && r.iterations == iteration && Solved(es, x0, s + 1, nodes, r, tolerance)
    {
      SolvedExceeds(es, x0, s, nodes, before, tolerance);
      r := Step();
      OutcomeStep(es, x0, s, nodes, r, tolerance);
      if r.maxDefect.value <= tolerance { r := r.(converged := true); }
    }
  }

  /**
   * Where k steps from x0 lead, and what the last of them reported; every state before that step had a defect beyond
   * the tolerance.
   */
  ghost predicate Solved(es: seq<Entry>, x0: Offsets, k: nat, x: Offsets, r: SolveResult, tolerance: nat) {
    Outcome(es, x0, k, x, r, tolerance) && AllExceed(es, x0, k - 1, tolerance)
  }

  lemma SolvedExceeds(es: seq<Entry>, x0: Offsets, k: nat, x: Offsets, r: SolveResult, tolerance: nat)
    requires Solved(es, x0, k, x, r, tolerance) && r.Beyond(tolerance)
    ensures x == Run(es, x0, k) && AllExceed(es, x0, k, tolerance)
  {
    if k > 0 { OneMoreExceeds(es, x0, k - 1, r.maxDefect.value, tolerance); }
  }

  /** Where k steps from x0 lead, and what the last of them reported. */
  ghost predicate Outcome(es: seq<Entry>, x0: Offsets, k: nat, x: Offsets, r: SolveResult, tolerance: nat) {
    && x == Run(es, x0, k)
    && if k == 0 then r.maxDefect.None? && !r.converged else Told(es, Run(es, x0, k - 1), x, r, tolerance)
  }

  ghost predicate Told(es: seq<Entry>, x: Offsets, y: Offsets, r: SolveResult, tolerance: nat) {
    exists d :: Reported(es, x, y, r, d, tolerance)
  }

  /** d is the size of the largest defect of an active edge, zero if there is none. */
  ghost predicate LargestDefect(es: seq<Entry>, x: Offsets, d: nat) {
    Bounds(es, |es|, x, d) && (d == 0 || Attains(es, x, d))
  }

  /** A step from x to y: when it reports convergence, what its defects were, and how close the edges are after it. */
  ghost predicate Reported(es: seq<Entry>, x: Offsets, y: Offsets, r: SolveResult, d: nat, tolerance: nat) {
    && r.maxDefect == Some(d) && LargestDefect(es, x, d)
    && (r.converged <==> d <= tolerance || d <= 999)
    && (Loopless(es) ==> Close(es, y, d) && r.meanDefect == Some(MeanDefect(es, x)))
  }

  /** In none of the first k states of the run are all defects within the tolerance. */
  ghost predicate AllExceed(es: seq<Entry>, x0: Offsets, k: int, tolerance: nat) {
    forall j: nat :: j < k ==> Exceeds(es, x0, j, tolerance)
  }

  ghost predicate Exceeds(es: seq<Entry>, x0: Offsets, j: nat, tolerance: nat) {
    !Bounds(es, |es|, Run(es, x0, j), tolerance)
  }

  lemma OneMoreExceeds(es: seq<Entry>, x0: Offsets, k: nat, d: nat, tolerance: nat)
    requires AllExceed(es, x0, k, tolerance) && LargestDefect(es, Run(es, x0, k), d) && d > tolerance
    ensures AllExceed(es, x0, k + 1, tolerance)
  {
    AttainedExceeds(es, Run(es, x0, k), d, tolerance);
  }

  lemma AttainedExceeds(es: seq<Entry>, x: Offsets, d: nat, tolerance: nat)
    requires Attains(es, x, d) && d > tolerance
    ensures !Bounds(es, |es|, x, tolerance)
  {
  }

  lemma OutcomeStep(es: seq<Entry>, x0: Offsets, k: nat, x: Offsets, r: SolveResult, tolerance: nat)
    requires x == Stepped(es, Run(es, x0, k)) && r.maxDefect.Some? && r.converged == (r.maxDefect.value < 1000)
    requires LargestDefect(es, Run(es, x0, k), r.maxDefect.value)
    requires Loopless(es) ==> r.meanDefect == Some(MeanDefect(es, Run(es, x0, k)))
    ensures r.maxDefect.value > tolerance ==> Outcome(es, x0, k + 1, x, r, tolerance)
    ensures r.maxDefect.value <= tolerance ==> Outcome(es, x0, k + 1, x, r.(converged := true), tolerance)
  {
    var y, d := Run(es, x0, k), r.maxDefect.value;
    LeftClose(es, y, d);
    var told := if d <= tolerance then r.(converged := true) else r;
    assert Reported(es, y, x, told, d, tolerance);
  }

  lemma LeftClose(es: seq<Entry>, x: Offsets, d: nat)
    requires Bounds(es, |es|, x, d)
    ensures Loopless(es) ==> Close(es, Stepped(es, x), d)
  {
    if Loopless(es) {
      forall k | 0 <= k < |es| && Active(es[k], Stepped(es, x))
        ensures -16 * d <= 10 * Defect(es[k], Stepped(es, x)) <= 16 * d
      {
        StepStaysClose(es, x, d, k);
      }
    }
  }

  /** Sums and sizes gathered over the first t edges. */
  ghost predicate Counted(es: seq<Entry>, t: nat, x: Offsets, i: NodeId, sum: int, weight: nat, ds: seq<nat>) {
    t <= |es| && sum == Pull(es, t, x, i) && weight == Load(es, t, x, i) && ds == SizesSeen(es, t, x, i)
  }

  /** Move past edges that do not touch the node. */
  lemma Advance(es: seq<Entry>, x: Offsets, i: NodeId, t: nat, k: nat, sum: int, weight: nat, ds: seq<nat>)
    returns (t': nat)
    requires t <= |es| && k <= |es| && |NeighborsOf(es, i, t)| == |NeighborsOf(es, i, k)|
    requires Counted(es, t, x, i, sum, weight, ds)
    requires t <= k || (k < |es| && (i == es[k].lo || i == es[k].hi))
    ensures t' == k && Counted(es, k, x, i, sum, weight, ds)
  {
    t' := k;
    if k < t {
      NeighborGrows(es, i, k + 1, t);
      NeighborStep(es, i, k);
    } else {
      NeighborGrows(es, i, t, k);
      Skipped(es, x, i, t, k);
    }
  }

  lemma CountStep(es: seq<Entry>, t: nat, x: Offsets, i: NodeId, sum: int, weight: nat, ds: seq<nat>)
    requires t < |es| && Counted(es, t, x, i, sum, weight, ds) && (i == es[t].lo || i == es[t].hi) && i in x
    requires es[t].lo <= es[t].hi
    ensures Touches(es[t], x, i) <==> es[t].twists != [] && Other(es[t], i) in x
    ensures Touches(es[t], x, i) ==>
              var err := ErrorAt(es[t], x, i);
              Counted(es, t + 1, x, i, sum + Share(err, Last(es[t]).quality), weight + Last(es[t]).quality,
                      ds + [Abs(err)])
    ensures !Touches(es[t], x, i) ==> Counted(es, t + 1, x, i, sum, weight, ds)
  {
    if Touches(es[t], x, i) { assert Abs(ErrorAt(es[t], x, i)) == Abs(Defect(es[t], x)); }
  }

  /** One neighbour's error, share and weight, if it is measured and known. */
  method Weigh(es: seq<Entry>, x: Offsets, i: NodeId, nb: NodeId, ghost t: nat, sum: int, weight: nat, ds: seq<nat>)
    returns (sum': int, weight': nat, ds': seq<nat>)
    requires Table(es) && t < |es| && Counted(es, t, x, i, sum, weight, ds) && i in x
    requires (i == es[t].lo || i == es[t].hi) && nb == Other(es[t], i)
    ensures Counted(es, t + 1, x, i, sum', weight', ds')
  {
    sum', weight', ds' := sum, weight, ds;
    OtherLatest(es, t, i);
    CountStep(es, t, x, i, sum, weight, ds);
    var w := Latest(es, i, nb);
    if w.Some? && nb in x {
      var expected := if i > nb then x[nb] + w.value.offset else x[nb] - w.value.offset;
      var error := expected - x[i];
      assert error == ErrorAt(es[t], x, i);
      sum', weight', ds' := sum + Share(error, w.value.quality), weight + w.value.quality, ds + [Abs(error)];
    }
  }

  /** The largest defect seen and the mean of all. */
  method Summarise(ghost es: seq<Entry>, ghost x: Offsets, ghost ids: seq<NodeId>, ds: seq<nat>)
    returns (max: nat, mean: nat)
    requires Lists(ids, x.Keys) && ds == AllSeen(es, x, ids, |ids|)
    ensures LargestDefect(es, x, max)
    ensures Loopless(es) ==> mean == MeanDefect(es, x)
  {
    max := Largest(ds);
    mean := Mean(ds);
    MaxBounds(es, x, ids, ds, max);
    if Loopless(es) { MeanIsDefect(es, x, ids, ds); }
  }

  method Largest(ds: seq<nat>) returns (max: nat)
    ensures forall d :: d in ds ==> d <= max
    ensures ds == [] ==> max == 0
    ensures ds != [] ==> max in ds
  {
    max := 0;
    for k := 0 to |ds|
      invariant forall j :: 0 <= j < k ==> ds[j] <= max
      invariant k == 0 ==> max == 0
      invariant k > 0 ==> max in ds[..k]
    {
      assert ds[..k + 1] == ds[..k] + [ds[k]];
      if k == 0 || ds[k] >= max { max := ds[k]; }
    }
    assert ds[..|ds|] == ds;
  }

  ghost function Total(ds: seq<nat>, k: nat): nat
    requires k <= |ds|
  {
    if k == 0 then 0 else Total(ds, k - 1) + ds[k - 1]
  }

  method Mean(ds: seq<nat>) returns (mean: nat)
    ensures ds == [] ==> mean == 0
    ensures ds != [] ==> mean == Total(ds, |ds|) / |ds|
  {
    if ds == [] { return 0; }
    var total := 0;
    for k := 0 to |ds|
      invariant total == Total(ds, k)
    {
      total := total + ds[k];
    }
    mean := total / |ds|;
  }

  /** Some active edge's defect has size d. */
  ghost predicate Attains(es: seq<Entry>, x: Offsets, d: nat) {
    exists k :: 0 <= k < |es| && Active(es[k], x) && Abs(Defect(es[k], x)) == d
  }

  lemma MaxBounds(es: seq<Entry>, x: Offsets, ids: seq<NodeId>, ds: seq<nat>, max: nat)
    requires Lists(ids, x.Keys) && ds == AllSeen(es, x, ids, |ids|)
    requires (forall d :: d in ds ==> d <= max) && (ds != [] ==> max in ds) && (ds == [] ==> max == 0)
    ensures Bounds(es, |es|, x, max) && (max == 0 || Attains(es, x, max))
  {
    AllSeenShows(es, x, ids, |ids|);
    forall k | 0 <= k < |es| && Active(es[k], x)
      ensures 0 - max <= Defect(es[k], x) <= max
    {
      var j :| 0 <= j < |ids| && ids[j] == es[k].lo;
      assert Covered(es, x, ids[j], ds) && Touches(es[k], x, ids[j]);
    }
    if ds != [] {
      var i, k :| Shows(es, x, i, k, max);
    }
  }

  // ----- The mean -----

  /** Each active edge's size, to both its ends. */
  ghost function SizeDues(es: seq<Entry>, x: Offsets): (g: Dues)
    ensures |g| == |es| && forall k :: 0 <= k < |es| ==> g[k] == BothEnds(es[k], x, SizeAt(es[k], x))
  {
    seq(|es|, k requires 0 <= k < |es| => BothEnds(es[k], x, SizeAt(es[k], x)))
  }

  /** One for each active edge, to both its ends. */
  ghost function OneDues(es: seq<Entry>, x: Offsets): (g: Dues)
    ensures |g| == |es| && forall k :: 0 <= k < |es| ==> g[k] == BothEnds(es[k], x, 1)
  {
    seq(|es|, k requires 0 <= k < |es| => BothEnds(es[k], x, 1))
  }

  ghost function SizeAt(e: Entry, x: Offsets): nat {
    if Active(e, x) then Abs(Defect(e, x)) else 0
  }

  ghost function BothEnds(e: Entry, x: Offsets, d: int): map<NodeId, int> {
    if Active(e, x) then map[e.lo := d, e.hi := d] else map[]
  }

  /** The sizes of the active edges' defects, and their number. */
  ghost function SizeSum(es: seq<Entry>, t: nat, x: Offsets): nat
    requires t <= |es|
  {
    if t == 0 then 0 else SizeSum(es, t - 1, x) + SizeAt(es[t - 1], x)
  }

  ghost function ActiveCount(es: seq<Entry>, t: nat, x: Offsets): nat
    requires t <= |es|
  {
    if t == 0 then 0 else ActiveCount(es, t - 1, x) + if Active(es[t - 1], x) then 1 else 0
  }

  /** The mean size of the active edges' defects, rounded down. */
  ghost function MeanDefect(es: seq<Entry>, x: Offsets): nat {
    var n := ActiveCount(es, |es|, x);
    if n == 0 then 0 else SizeSum(es, |es|, x) / n
  }

  lemma {:induction false} TotalConcat(a: seq<nat>, b: seq<nat>, k: nat)
    requires k <= |b|
    ensures Total(a + b, |a| + k) == Total(a, |a|) + Total(b, k)
  {
    if k == 0 { TotalPrefix(a, b, |a|); } else { TotalConcat(a, b, k - 1); }
  }

  lemma {:induction false} TotalPrefix(a: seq<nat>, b: seq<nat>, k: nat)
    requires k <= |a|
    ensures Total(a + b, k) == Total(a, k)
  {
    if k > 0 { TotalPrefix(a, b, k - 1); }
  }

  lemma {:induction false} SeenSums(es: seq<Entry>, t: nat, x: Offsets, i: NodeId, g: Dues, h: Dues)
    requires t <= |es| && g == SizeDues(es, x) && h == OneDues(es, x)
    ensures Total(SizesSeen(es, t, x, i), |SizesSeen(es, t, x, i)|) == ByNode(g, t, i)
    ensures |SizesSeen(es, t, x, i)| == ByNode(h, t, i)
  {
    if t > 0 {
      SeenSums(es, t - 1, x, i, g, h);
      var e, before := es[t - 1], SizesSeen(es, t - 1, x, i);
      if Touches(e, x, i) { OneMore(before, Abs(Defect(e, x))); } else { assert before + [] == before; }
    }
  }

  ghost predicate Sums(seen: seq<nat>, total: int, count: int) {
    Total(seen, |seen|) == total && |seen| == count
  }

  ghost predicate NodeSums(es: seq<Entry>, x: Offsets, i: NodeId, g: Dues, h: Dues)
    requires |g| == |es| == |h|
  {
    Sums(SizesSeen(es, |es|, x, i), ByNode(g, |es|, i), ByNode(h, |es|, i))
  }

  lemma {:induction false} AllSeenSums(es: seq<Entry>, x: Offsets, ids: seq<NodeId>, j: nat, g: Dues, h: Dues)
    requires j <= |ids| && |g| == |es| == |h| && forall k :: 0 <= k < |ids| ==> NodeSums(es, x, ids[k], g, h)
    ensures Sums(AllSeen(es, x, ids, j), ByNodes(g, |es|, ids, j), ByNodes(h, |es|, ids, j))
  {
    if j > 0 {
      AllSeenSums(es, x, ids, j - 1, g, h);
      var i := ids[j - 1];
      assert NodeSums(es, x, i, g, h);
      SumsJoin(AllSeen(es, x, ids, j - 1), ByNodes(g, |es|, ids, j - 1), ByNodes(h, |es|, ids, j - 1),
               SizesSeen(es, |es|, x, i), ByNode(g, |es|, i), ByNode(h, |es|, i));
    }
  }

  lemma SumsJoin(a: seq<nat>, total: int, count: int, b: seq<nat>, total': int, count': int)
    requires Sums(a, total, count) && Sums(b, total', count')
    ensures Sums(a + b, total + total', count + count')
  {
    TotalConcat(a, b, |b|);
  }

  lemma OneMore(before: seq<nat>, a: nat)
    ensures Total(before + [a], |before| + 1) == Total(before, |before|) + a
  {
    TotalConcat(before, [a], 1);
    assert Total([a], 1) == Total([a], 0) + [a][0];
  }

  /** Every active edge counts once from each end. */
  lemma {:induction false} EdgesCountTwice(es: seq<Entry>, t: nat, x: Offsets)
    requires t <= |es| && Loopless(es)
    ensures ByEdge(SizeDues(es, x), es, t) == 2 * SizeSum(es, t, x)
    ensures ByEdge(OneDues(es, x), es, t) == 2 * ActiveCount(es, t, x)
  {
    if t > 0 { EdgesCountTwice(es, t - 1, x); }
  }

  lemma DuesOwnEnds(es: seq<Entry>, x: Offsets)
    ensures OwnEnds(SizeDues(es, x), es, x) && OwnEnds(OneDues(es, x), es, x)
  {
  }

  lemma MeanIsDefect(es: seq<Entry>, x: Offsets, ids: seq<NodeId>, ds: seq<nat>)
    requires Loopless(es) && Lists(ids, x.Keys) && ds == AllSeen(es, x, ids, |ids|)
    ensures MeanDefect(es, x) == if ds == [] then 0 else Total(ds, |ds|) / |ds|
  {
    var g, h := SizeDues(es, x), OneDues(es, x);
    forall k | 0 <= k < |ids| ensures NodeSums(es, x, ids[k], g, h) {
      SeenSums(es, |es|, x, ids[k], g, h);
    }
    AllSeenSums(es, x, ids, |ids|, g, h);
    DuesOwnEnds(es, x);
    EdgesAreNodes(g, es, |es|, ids, x);
    EdgesAreNodes(h, es, |es|, ids, x);
    EdgesCountTwice(es, |es|, x);
    if ds != [] { HalvesDivide(SizeSum(es, |es|, x), ActiveCount(es, |es|, x)); }
  }

  lemma HalvesDivide(s: nat, n: nat)
    requires n > 0
    ensures (2 * s) / (2 * n) == s / n
  {
    var q, r := s / n, s % n;
    assert 2 * s == (2 * n) * q + 2 * r;
    QuotientUnique(2 * s, 2 * n, q, 2 * r);
  }
}
