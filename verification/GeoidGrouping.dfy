/** The grouping of a layer's regions is determined by their centroids, their order and the threshold. */
module GeoidGrouping {
  import opened Basics
  import opened Partition
  import opened Geoid

  /** A grouping at the threshold, as the greedy sweep leaves it. */
  ghost predicate Greedy(rs: seq<Region>, groups: seq<seq<nat>>, threshold: real, dist: Distance) {
    Partitions(groups, |rs|) && LeadersApart(rs, groups, threshold, dist)
  }

  ghost predicate InFirst(groups: seq<seq<nat>>, a: nat, j: nat) {
    exists c :: 0 <= c < a <= |groups| && j in groups[c]
  }

  /** A region outside the first a groups is in a later one, and no earlier than its leader. */
  lemma InLater(rs: seq<Region>, groups: seq<seq<nat>>, threshold: real, dist: Distance, a: nat, j: nat)
    returns (b: nat)
    requires Greedy(rs, groups, threshold, dist) && a <= |groups| && j < |rs| && !InFirst(groups, a, j)
    ensures a <= b < |groups| && j in groups[b] && groups[b][0] <= j
  {
    FlatHolds(groups, j);
    b :| 0 <= b < |groups| && j in groups[b];
    var k :| 0 <= k < |groups[b]| && groups[b][k] == j;
    assert Led(rs, groups[b], threshold, dist);
  }

  /** Group a leads from the first region the groups before it left, and holds exactly what they left near it. */
  lemma GroupIs(rs: seq<Region>, groups: seq<seq<nat>>, threshold: real, dist: Distance, a: nat, j: nat)
    requires Greedy(rs, groups, threshold, dist) && a < |groups| && j < |rs| && groups[a] != []
    ensures groups[a][0] < |rs| && !InFirst(groups, a, groups[a][0])
    ensures !InFirst(groups, a, j) ==> groups[a][0] <= j
    ensures j in groups[a] <==>
            !InFirst(groups, a, j) && (j == groups[a][0] || dist(rs[groups[a][0]].centroid, rs[j].centroid) < threshold)
  {
    var l := groups[a][0];
    assert Led(rs, groups[a], threshold, dist) && l in groups[a];
    Earlier(rs, groups, a, l);
    if j in groups[a] { Earlier(rs, groups, a, j); }
    if !InFirst(groups, a, j) {
      var b := InLater(rs, groups, threshold, dist, a, j);
      if a < b {
        assert Apart(rs, groups[a], groups[b], threshold, dist);
        GroupsDisjoint(groups, a, b, l);
        var k :| 0 <= k < |groups[b]| && groups[b][k] == j;
      }
    }
  }

  lemma Earlier(rs: seq<Region>, groups: seq<seq<nat>>, a: nat, j: nat)
    requires Distinct(Flat(groups)) && a < |groups| && j in groups[a]
    ensures !InFirst(groups, a, j)
  {
    if c :| 0 <= c < a && j in groups[c] { GroupsDisjoint(groups, c, a, j); }
  }

  lemma {:induction false} SameGroups(rs: seq<Region>, groups: seq<seq<nat>>, others: seq<seq<nat>>, threshold: real,
                                      dist: Distance, a: nat)
    requires Greedy(rs, groups, threshold, dist) && Greedy(rs, others, threshold, dist) && a <= |groups|
    ensures a <= |others| && forall c :: 0 <= c < a ==> groups[c] == others[c]
  {
    if a > 0 {
      SameGroups(rs, groups, others, threshold, dist, a - 1);
      SameNext(rs, groups, others, threshold, dist, a - 1);
    }
  }

  lemma SameNext(rs: seq<Region>, groups: seq<seq<nat>>, others: seq<seq<nat>>, threshold: real, dist: Distance, a: nat)
    requires Greedy(rs, groups, threshold, dist) && Greedy(rs, others, threshold, dist)
    requires a < |groups| && a <= |others| && forall c :: 0 <= c < a ==> groups[c] == others[c]
    ensures a < |others| && groups[a] == others[a]
  {
    forall j: nat ensures InFirst(groups, a, j) <==> InFirst(others, a, j) {
      if c :| 0 <= c < a && j in groups[c] { assert j in others[c]; }
      if c :| 0 <= c < a && j in others[c] { assert j in groups[c]; }
    }
    assert groups[a] != [];
    var l := groups[a][0];
    assert Led(rs, groups[a], threshold, dist);
    GroupIs(rs, groups, threshold, dist, a, l);
    var b := InLater(rs, others, threshold, dist, a, l);
    var m := others[a][0];
    assert Led(rs, others[a], threshold, dist);
    GroupIs(rs, others, threshold, dist, a, m);
    GroupIs(rs, others, threshold, dist, a, l);
    GroupIs(rs, groups, threshold, dist, a, m);
    forall j: nat ensures j in groups[a] <==> j in others[a] {
      if j < |rs| {
        GroupIs(rs, groups, threshold, dist, a, j);
        GroupIs(rs, others, threshold, dist, a, j);
      }
    }
    OneAscending<nat>(groups[a], others[a], (x, y) => x < y);
  }

  /** There is only one such grouping. */
  lemma OneGrouping(rs: seq<Region>, groups: seq<seq<nat>>, others: seq<seq<nat>>, threshold: real, dist: Distance)
    requires Greedy(rs, groups, threshold, dist) && Greedy(rs, others, threshold, dist)
    ensures groups == others
  {
    SameGroups(rs, groups, others, threshold, dist, |groups|);
    SameGroups(rs, others, groups, threshold, dist, |others|);
  }
}
