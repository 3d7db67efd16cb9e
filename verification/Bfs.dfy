/** The component of the reference and its breadth-first tree, as `solve_frame` finds them. */
module Bfs {
  import opened Basics
  import opened Cholesky
  import opened Laplacian

  type Adjacency = seq<set<nat>>

  ghost predicate Graph(adj: Adjacency, n: nat) {
    && |adj| == n
    && (forall u, v :: 0 <= u < n && v in adj[u] ==> v < n)
    && (forall u, v :: 0 <= u < n && 0 <= v < n ==> (v in adj[u] <==> u in adj[v]))
    && (forall u :: 0 <= u < n ==> u !in adj[u])
  }

  /**
   * The visited nodes, in order of discovery, form a tree rooted at r whose depths never fall along
   * the order and which reaches across any edge by at most one level.
   */
  ghost predicate Tree(n: nat, r: nat, seen: seq<nat>, parent: seq<Option<nat>>, depth: seq<nat>, adj: Adjacency)
    requires Graph(adj, n)
  {
    && Listed(n, r, seen)
    && Parented(n, r, seen, parent, depth, adj)
    && Rising(seen, depth)
  }

  ghost predicate Listed(n: nat, r: nat, seen: seq<nat>) {
    && r < n && |seen| > 0 && seen[0] == r && Distinct(seen)
    && (forall i :: 0 <= i < |seen| ==> seen[i] < n)
  }

  /** Every visited node but the root has a visited parent, one level up, that it is measured against. */
  ghost predicate Parented(n: nat, r: nat, seen: seq<nat>, parent: seq<Option<nat>>, depth: seq<nat>, adj: Adjacency) {
    && |parent| == n && |depth| == n && r < n
    && parent[r] == None && depth[r] == 0
    && (forall u :: 0 <= u < n && u !in seen ==> parent[u] == None && depth[u] == 0)
    && (forall u :: 0 <= u < n && u in seen && u != r ==>
        parent[u].Some? && Child(u, parent[u].value, seen, depth, adj))
  }

  /** Depths never fall along the order. */
  ghost predicate Rising(seen: seq<nat>, depth: seq<nat>) {
    && (forall i :: 0 <= i < |seen| ==> seen[i] < |depth|)
    && (forall i, j :: 0 <= i < j < |seen| ==> depth[seen[i]] <= depth[seen[j]])
  }

  ghost predicate Child(u: nat, p: nat, seen: seq<nat>, depth: seq<nat>, adj: Adjacency) {
    && u < |depth| && p < |depth| && u < |adj| && p < |adj|
    && p in seen && u in adj[p] && depth[u] == depth[p] + 1
  }

  /** u's neighbours have all been visited, none more than one level below u. */
  ghost predicate Explored(u: nat, seen: seq<nat>, depth: seq<nat>, adj: Adjacency)
    requires u < |adj| && u < |depth|
  {
    forall v :: v in adj[u] ==> v in seen && v < |depth| && depth[v] <= depth[u] + 1
  }

  /** What the search leaves behind. */
  ghost predicate Layered(n: nat, r: nat, order: seq<nat>, parent: seq<Option<nat>>, depth: seq<nat>, adj: Adjacency)
    requires Graph(adj, n)
  {
    && Tree(n, r, order, parent, depth, adj)
    && (forall u :: u in order ==> Explored(u, order, depth, adj))
  }

  /** The nodes in order of discovery, and the node each was discovered from. */
  datatype Found = Found(seen: seq<nat>, parent: seq<Option<nat>>)

  function NoParents(n: nat): seq<Option<nat>> {
    seq(n, _ => None)
  }

  /** What is found after looking at u's neighbours below v, in ascending order. */
  ghost function Visited(adj: Adjacency, u: nat, s: Found, v: nat): Found
    requires u < |adj|
  {
    if v == 0 then s else Looked(adj, u, Visited(adj, u, s, v - 1), v - 1)
  }

  /** What is found after looking from u at v. */
  ghost function Looked(adj: Adjacency, u: nat, s: Found, v: nat): Found
    requires u < |adj|
  {
    if v in adj[u] && v !in s.seen && v < |s.parent| then Found(s.seen + [v], s.parent[v := Some(u)]) else s
  }

  /** What is found after the first k nodes in order of discovery have been visited. */
  ghost function Breadth(adj: Adjacency, r: nat, k: nat): Found {
    if k == 0 then Found([r], NoParents(|adj|)) else
      var s := Breadth(adj, r, k - 1);
      if k - 1 < |s.seen| && s.seen[k - 1] < |adj| then Visited(adj, s.seen[k - 1], s, |adj|) else s
  }

  /** Once every node found has been visited, nothing more is found. */
  lemma {:induction false} BreadthEnds(adj: Adjacency, r: nat, m: nat, k: nat)
    requires |Breadth(adj, r, m).seen| == m <= k
    ensures Breadth(adj, r, k) == Breadth(adj, r, m)
    decreases k
  {
    if m < k { BreadthEnds(adj, r, m, k - 1); }
  }

  /** The search is a function of the graph and the root. */
  lemma OneSearch(adj: Adjacency, r: nat, s: Found, t: Found)
    requires s == Breadth(adj, r, |s.seen|) && t == Breadth(adj, r, |t.seen|)
    ensures s == t
  {
    if |s.seen| <= |t.seen| {
      BreadthEnds(adj, r, |s.seen|, |t.seen|);
    } else {
      BreadthEnds(adj, r, |t.seen|, |s.seen|);
    }
  }

  ghost function Range(n: nat): (s: set<nat>)
    ensures |s| == n && forall i: nat :: i in s <==> i < n
  {
    if n == 0 then {} else Range(n - 1) + {n - 1}
  }

  lemma {:induction false} SubsetSize(a: set<nat>, b: set<nat>)
    requires a <= b
    ensures |a| <= |b|
  {
    if a != {} {
      var x :| x in a;
      SubsetSize(a - {x}, b - {x});
    }
  }

  lemma {:induction false} DistinctSize(s: seq<nat>)
    requires Distinct(s)
    ensures |(set x: nat | x in s)| == |s|
  {
    if |s| > 0 {
      var t := s[..|s| - 1];
      DistinctSize(t);
      assert (set x: nat | x in s) == (set x: nat | x in t) + {s[|s| - 1]};
    }
  }

  lemma DistinctBound(s: seq<nat>, n: nat)
    requires Distinct(s) && forall i :: 0 <= i < |s| ==> s[i] < n
    ensures |s| <= n
  {
    DistinctSize(s);
    SubsetSize((set x: nat | x in s), Range(n));
  }

  lemma RisingExtends(seen: seq<nat>, depth: seq<nat>, v: nat, d: nat)
    requires Rising(seen, depth) && |seen| > 0 && v !in seen && v < |depth|
    requires depth[seen[|seen| - 1]] <= d
    ensures Rising(seen + [v], depth[v := d])
  {
    var seen', depth' := seen + [v], depth[v := d];
    forall i, j | 0 <= i < j < |seen'|
      ensures depth'[seen'[i]] <= depth'[seen'[j]]
    {
      assert seen[i] in seen && seen'[i] == seen[i];
      if j == |seen| {
        LevelBound(seen, depth, seen[i]);
      } else {
        assert seen[j] in seen && seen'[j] == seen[j];
      }
    }
  }

  lemma ParentedExtends(n: nat, r: nat, seen: seq<nat>, parent: seq<Option<nat>>, depth: seq<nat>, adj: Adjacency,
                        u: nat, v: nat)
    requires Graph(adj, n) && Parented(n, r, seen, parent, depth, adj) && r in seen
    requires u in seen && u < n && v < n && v in adj[u] && v !in seen
    ensures Parented(n, r, seen + [v], parent[v := Some(u)], depth[v := depth[u] + 1], adj)
  {
    var parent', depth' := parent[v := Some(u)], depth[v := depth[u] + 1];
    forall w | 0 <= w < n && w in seen + [v] && w != r
      ensures parent'[w].Some? && Child(w, parent'[w].value, seen + [v], depth', adj)
    {
      if w != v {
        assert Child(w, parent[w].value, seen, depth, adj);
      }
    }
  }

  /** Discovering v from u keeps the tree. */
  lemma Discover(n: nat, r: nat, seen: seq<nat>, parent: seq<Option<nat>>, depth: seq<nat>, adj: Adjacency, u: nat,
                 v: nat)
    requires Graph(adj, n) && Tree(n, r, seen, parent, depth, adj)
    requires u in seen && u < n && v < n && v in adj[u] && v !in seen
    requires depth[seen[|seen| - 1]] <= depth[u] + 1
    ensures Tree(n, r, seen + [v], parent[v := Some(u)], depth[v := depth[u] + 1], adj)
  {
    assert Listed(n, r, seen + [v]);
    RisingExtends(seen, depth, v, depth[u] + 1);
    ParentedExtends(n, r, seen, parent, depth, adj, u, v);
  }

  /** The search so far: the tree of everything seen, and the nodes already explored. */
  ghost predicate Searched(n: nat, r: nat, seen: seq<nat>, done: seq<nat>, parent: seq<Option<nat>>, depth: seq<nat>,
                           adj: Adjacency)
    requires Graph(adj, n)
  {
    && Tree(n, r, seen, parent, depth, adj)
    && (forall w :: w in done ==> w in seen && w < n && Explored(w, seen, depth, adj))
  }

  lemma SearchedExtends(n: nat, r: nat, seen: seq<nat>, done: seq<nat>, parent: seq<Option<nat>>, depth: seq<nat>,
                        adj: Adjacency, u: nat, v: nat)
    requires Graph(adj, n) && Searched(n, r, seen, done, parent, depth, adj)
    requires u in seen && u < n && v < n && v in adj[u] && v !in seen
    requires depth[seen[|seen| - 1]] <= depth[u] + 1
    ensures Searched(n, r, seen + [v], done, parent[v := Some(u)], depth[v := depth[u] + 1], adj)
  {
    Discover(n, r, seen, parent, depth, adj, u, v);
    forall w | w in done
      ensures w in seen + [v] && w < n && Explored(w, seen + [v], depth[v := depth[u] + 1], adj)
    {
      assert Explored(w, seen, depth, adj);
    }
  }

  /** Of u's neighbours, those below v are seen and at most one level below it; so is the last node seen. */
  ghost predicate Reaching(u: nat, v: nat, seen: seq<nat>, members: set<nat>, depth: seq<nat>, adj: Adjacency)
    requires u < |adj|
  {
    && (forall w :: w in members <==> w in seen)
    && u in seen && u < |depth| && |seen| > 0 && seen[|seen| - 1] < |depth|
    && depth[seen[|seen| - 1]] <= depth[u] + 1
    && (forall w :: w in adj[u] && w < v ==> w in seen && w < |depth| && depth[w] <= depth[u] + 1)
  }

  lemma ReachNew(u: nat, v: nat, seen: seq<nat>, members: set<nat>, depth: seq<nat>, adj: Adjacency)
    requires u < |adj| && Reaching(u, v, seen, members, depth, adj) && v !in seen && v < |depth|
    ensures Reaching(u, v + 1, seen + [v], members + {v}, depth[v := depth[u] + 1], adj)
  {
  }

  lemma ReachOld(u: nat, v: nat, seen: seq<nat>, members: set<nat>, depth: seq<nat>, adj: Adjacency)
    requires u < |adj| && Reaching(u, v, seen, members, depth, adj)
    requires v in adj[u] ==> v in seen && Rising(seen, depth)
    ensures Reaching(u, v + 1, seen, members, depth, adj)
  {
    if v in adj[u] { LevelBound(seen, depth, v); }
  }

  /** Look from u at v: if it is a neighbour not seen yet, it joins the queue. */
  method Look(n: nat, r: nat, u: nat, v: nat, adj: Adjacency, queue: seq<nat>, members: set<nat>,
              parent: seq<Option<nat>>,
              ghost seen: seq<nat>, ghost done: seq<nat>, ghost depth: seq<nat>)
    returns (queue': seq<nat>, members': set<nat>, parent': seq<Option<nat>>,
             ghost seen': seq<nat>, ghost depth': seq<nat>)
    requires Graph(adj, n) && u < n && v < n && Searched(n, r, seen, done, parent, depth, adj)
    requires Reaching(u, v, seen, members, depth, adj) && done + [u] + queue == seen
    ensures Searched(n, r, seen', done, parent', depth', adj)
    ensures Reaching(u, v + 1, seen', members', depth', adj) && done + [u] + queue' == seen'
    ensures Found(seen', parent') == Looked(adj, u, Found(seen, parent), v)
  {
    if v in adj[u] && v !in members {
      SearchedExtends(n, r, seen, done, parent, depth, adj, u, v);
      ReachNew(u, v, seen, members, depth, adj);
      PushBack(done + [u], queue, v);
      queue', members' := queue + [v], members + {v};
      parent', depth' := parent[v := Some(u)], depth[v := depth[u] + 1];
      seen' := seen + [v];
    } else {
      ReachOld(u, v, seen, members, depth, adj);
      queue', members', parent', seen', depth' := queue, members, parent, seen, depth;
    }
  }

  /** Take u off the queue: its unseen neighbours join the queue in ascending order. */
  method Expand(n: nat, r: nat, u: nat, adj: Adjacency, queue: seq<nat>, members: set<nat>, parent: seq<Option<nat>>,
                ghost seen: seq<nat>, ghost done: seq<nat>, ghost depth: seq<nat>)
    returns (queue': seq<nat>, members': set<nat>, parent': seq<Option<nat>>,
             ghost seen': seq<nat>, ghost depth': seq<nat>)
    requires Graph(adj, n) && u < n && Searched(n, r, seen, done, parent, depth, adj)
    requires Reaching(u, 0, seen, members, depth, adj) && done + [u] + queue == seen
    ensures Searched(n, r, seen', done + [u], parent', depth', adj)
    ensures Reaching(u, n, seen', members', depth', adj) && done + [u] + queue' == seen'
    ensures Found(seen', parent') == Visited(adj, u, Found(seen, parent), n)
  {
    queue', members', parent', seen', depth' := queue, members, parent, seen, depth;
    for v: nat := 0 to n
      invariant Searched(n, r, seen', done, parent', depth', adj)
      invariant Reaching(u, v, seen', members', depth', adj)
      invariant done + [u] + queue' == seen'
      invariant Found(seen', parent') == Visited(adj, u, Found(seen, parent), v)
    {
      queue', members', parent', seen', depth' :=
        Look(n, r, u, v, adj, queue', members', parent', seen', done, depth');
    }
    ExpandDone(n, r, u, seen', done, members', parent', depth', adj);
  }

  lemma ExpandDone(n: nat, r: nat, u: nat, seen: seq<nat>, done: seq<nat>, members: set<nat>, parent: seq<Option<nat>>,
                   depth: seq<nat>, adj: Adjacency)
    requires Graph(adj, n) && u < n && Searched(n, r, seen, done, parent, depth, adj)
    requires Reaching(u, n, seen, members, depth, adj)
    ensures Searched(n, r, seen, done + [u], parent, depth, adj)
  {
    assert Explored(u, seen, depth, adj);
  }

  lemma PopFront<T>(done: seq<T>, queue: seq<T>)
    requires queue != []
    ensures done + [queue[0]] + queue[1..] == done + queue
  {
  }

  lemma PushBack<T>(done: seq<T>, queue: seq<T>, v: T)
    ensures done + (queue + [v]) == (done + queue) + [v]
  {
  }

  /** Breadth-first search from r. */
  method Search(n: nat, r: nat, adj: Adjacency)
    returns (order: seq<nat>, parent: seq<Option<nat>>, ghost depth: seq<nat>)
    requires Graph(adj, n) && r < n
    ensures Layered(n, r, order, parent, depth, adj)
    ensures Found(order, parent) == Breadth(adj, r, |order|)
  {
    var members: set<nat> := {r};
    var queue: seq<nat> := [r];
    ghost var seen: seq<nat> := [r];
    parent, depth := NoParents(n), seq(n, _ => 0);
    order := [];
    while queue != []
      invariant Searched(n, r, seen, order, parent, depth, adj)
      invariant seen == order + queue
      invariant queue != [] ==> queue[0] < n && Reaching(queue[0], 0, seen, members, depth, adj)
      invariant Found(seen, parent) == Breadth(adj, r, |order|)
      decreases n - |order|
    {
      var u := queue[0];
      DistinctBound(seen, n);
      PopFront(order, queue);
      queue, members, parent, seen, depth := Expand(n, r, u, adj, queue[1..], members, parent, seen, order, depth);
      order := order + [u];
      if queue != [] {
        ReachNext(n, u, |order|, seen, members, depth, adj);
      }
    }
    assert seen == order;
  }

  lemma ReachNext(n: nat, u: nat, i: nat, seen: seq<nat>, members: set<nat>, depth: seq<nat>, adj: Adjacency)
    requires |adj| == n && u < n && Reaching(u, n, seen, members, depth, adj) && Rising(seen, depth)
    requires 0 < i < |seen| && seen[i - 1] == u && seen[i] < n
    ensures Reaching(seen[i], 0, seen, members, depth, adj)
  {
  }

  lemma LevelBound(seen: seq<nat>, depth: seq<nat>, v: nat)
    requires v in seen && Rising(seen, depth)
    ensures v < |depth| && depth[v] <= depth[seen[|seen| - 1]]
  {
    var i :| 0 <= i < |seen| && seen[i] == v;
  }
}
