/** Density clustering of error records (compiler/src/j1_pattern_learning.rs), over any symmetric neighbour relation. */
module Dbscan {
  import opened Chains

  /** `near(i, j)` stands for a cosine distance below `eps` between embeddings `i` and `j`. */
  datatype Points = Points(n: nat, near: (nat, nat) -> bool, minPoints: nat)

  ghost predicate SymmetricNear(s: Points) {
    forall i: nat, j: nat :: s.near(i, j) == s.near(j, i)
  }

  /** The indices near `i`, in ascending order. */
  function Neighbors(s: Points, i: nat): (r: seq<nat>)
    ensures forall j: nat :: j in r <==> j < s.n && j != i && s.near(i, j)
  {
    NeighborsFrom(s, i, 0)
  }

  function NeighborsFrom(s: Points, i: nat, from: nat): (r: seq<nat>)
    requires from <= s.n
    ensures forall j: nat :: j in r <==> from <= j < s.n && j != i && s.near(i, j)
    decreases s.n - from
  {
    if from == s.n then []
    else (if from != i && s.near(i, from) then [from] else []) + NeighborsFrom(s, i, from + 1)
  }

  predicate Core(s: Points, i: nat) {
    |Neighbors(s, i)| >= s.minPoints - 1
  }

  /** The links between distinct neighbouring core points. */
  function CoreEdges(s: Points): (es: set<(nat, nat)>)
    ensures forall i: nat, j: nat :: (i, j) in es <==> i < s.n && Core(s, i) && Core(s, j) && j in Neighbors(s, i)
  {
    set i: nat, j: nat | i < s.n && j < s.n && Core(s, i) && Core(s, j) && j in Neighbors(s, i) :: (i, j)
  }

  lemma CoreEdgesSymmetric(s: Points)
    requires SymmetricNear(s)
    ensures Symmetric(CoreEdges(s))
  {
  }

  /** A core point of `members` has `q` as a neighbour. */
  ghost predicate Touched(s: Points, members: seq<nat>, q: nat) {
    exists k: nat :: k in members && Core(s, k) && q in Neighbors(s, k)
  }

  /** Every member is a point, and a core point or the neighbour of a core member. */
  ghost predicate Anchored(s: Points, c: seq<nat>) {
    forall q: nat :: q in c ==> q < s.n && (Core(s, q) || Touched(s, c, q))
  }

  /** A cluster around the core point `seed`. */
  ghost predicate Cluster(s: Points, c: seq<nat>, seed: nat) {
    && Distinct(c) && seed in c && Core(s, seed)
    && forall q: nat :: q in c ==>
         q < s.n && if Core(s, q) then Reaches(CoreEdges(s), seed, q) else Touched(s, c, q)
  }

  /** The neighbours of every core point of `v` are in `v`. */
  ghost predicate Saturated(s: Points, v: set<nat>) {
    forall q: nat :: q in v && Core(s, q) ==> Elems(Neighbors(s, q)) <= v
  }

  ghost predicate Together(clusters: seq<seq<nat>>, a: nat, b: nat) {
    exists k: nat :: 0 <= k < |clusters| && a in clusters[k] && b in clusters[k]
  }

  /** A cluster of at least two points, all of them in `v`. */
  ghost predicate Listed(s: Points, c: seq<nat>, v: set<nat>) {
    |c| >= 2 && Elems(c) <= v && exists seed: nat :: Cluster(s, c, seed)
  }

  /** Linked core points of `v` are in one cluster. */
  ghost predicate LinkedTogether(s: Points, clusters: seq<seq<nat>>, v: set<nat>) {
    forall a: nat, b: nat :: a in v && b in v && a != b && Core(s, a) && Core(s, b) && Reaches(CoreEdges(s), a, b) ==>
      Together(clusters, a, b)
  }

  /** Some cluster holds the point `q`. */
  ghost predicate InSome(clusters: seq<seq<nat>>, q: nat) {
    exists k: nat :: 0 <= k < |clusters| && q in clusters[k]
  }

  /** A chain of core points that begins before `q` in index order ends next to `q`. */
  ghost predicate Pulled(s: Points, q: nat) {
    exists a: nat, c: nat :: a < q && Core(s, a) && Core(s, c) && Reaches(CoreEdges(s), a, c) && q in Neighbors(s, c)
  }

  /** Which points of `v` that are not core points belong to a cluster. */
  ghost predicate BordersSettled(s: Points, clusters: seq<seq<nat>>, v: set<nat>) {
    forall q: nat :: q in v && !Core(s, q) ==> (InSome(clusters, q) <==> Pulled(s, q))
  }

  /** The clusters found among the visited points `v`. */
  ghost predicate Clustering(s: Points, clusters: seq<seq<nat>>, v: set<nat>) {
    && (forall k :: 0 <= k < |clusters| ==> Listed(s, clusters[k], v))
    && (forall k, l :: 0 <= k < l < |clusters| ==> Elems(clusters[k]) !! Elems(clusters[l]))
    && LinkedTogether(s, clusters, v)
    && BordersSettled(s, clusters, v)
  }

  lemma SaturatedReach(s: Points, v: set<nat>, a: nat, b: nat)
    requires Saturated(s, v) && a in v && Reaches(CoreEdges(s), a, b)
    ensures b in v
  {
    forall x: nat, y: nat | (x, y) in CoreEdges(s) && x in v ensures y in v {
      assert y in Elems(Neighbors(s, x));
    }
    ReachesInside(CoreEdges(s), v, a, b);
  }

  /** Everything a finished expansion adds is new, so linked core points always end up in one cluster. */
  lemma LinksAdded(s: Points, clusters: seq<seq<nat>>, v: set<nat>, c: seq<nat>)
    requires SymmetricNear(s) && LinkedTogether(s, clusters, v) && Saturated(s, v) && Elems(c) !! v
    ensures LinkedTogether(s, if |c| >= 2 then clusters + [c] else clusters, v + Elems(c))
  {
    hide Core, Neighbors, CoreEdges, Reaches, Saturated;
    var es := CoreEdges(s);
    var all := if |c| >= 2 then clusters + [c] else clusters;
    CoreEdgesSymmetric(s);
    forall a: nat, b: nat | a in v + Elems(c) && b in v + Elems(c) && a != b && Core(s, a) && Core(s, b) && Reaches(es, a, b)
      ensures Together(all, a, b)
    {
      Flip(es, a, b);
      if a in v {
        SaturatedReach(s, v, a, b);
        assert Together(clusters, a, b);
        var k: nat :| 0 <= k < |clusters| && a in clusters[k] && b in clusters[k];
        assert all[k] == clusters[k];
      } else {
        if b in v {
          SaturatedReach(s, v, b, a);
        }
        assert a in c && b in c;
        TwoMembers(c, a, b);
        assert all[|clusters|] == c;
      }
    }
  }

  /** The points before the seed are all visited, so whatever a new cluster touches comes after its seed. */
  lemma BordersAdded(s: Points, clusters: seq<seq<nat>>, v: set<nat>, c: seq<nat>, seed: nat)
    requires BordersSettled(s, clusters, v) && Cluster(s, c, seed) && Elems(c) !! v
    requires forall q: nat :: 0 <= q < seed ==> q in v
    ensures BordersSettled(s, if |c| >= 2 then clusters + [c] else clusters, v + Elems(c))
  {
    hide Core, Neighbors, CoreEdges, Reaches;
    var all := if |c| >= 2 then clusters + [c] else clusters;
    forall q: nat | q in v + Elems(c) && !Core(s, q) ensures InSome(all, q) <==> Pulled(s, q) {
      if q in c {
        var k: nat :| k in c && Core(s, k) && q in Neighbors(s, k);
        TwoMembers(c, k, q);
        assert all[|clusters|] == c;
        assert seed < q && Pulled(s, q);
      } else {
        StillInSome(clusters, c, q);
      }
    }
  }

  lemma StillInSome(clusters: seq<seq<nat>>, c: seq<nat>, q: nat)
    requires q !in c
    ensures InSome(clusters + [c], q) <==> InSome(clusters, q)
  {
    if InSome(clusters, q) {
      var k: nat :| 0 <= k < |clusters| && q in clusters[k];
      assert (clusters + [c])[k] == clusters[k];
    }
  }

  lemma ClusterAdded(s: Points, clusters: seq<seq<nat>>, v: set<nat>, c: seq<nat>, seed: nat)
    requires SymmetricNear(s) && Clustering(s, clusters, v) && Saturated(s, v)
    requires Cluster(s, c, seed) && Elems(c) !! v && forall q: nat :: 0 <= q < seed ==> q in v
    ensures Clustering(s, if |c| >= 2 then clusters + [c] else clusters, v + Elems(c))
  {
    hide Core, Saturated, Cluster, LinkedTogether, BordersSettled;
    LinksAdded(s, clusters, v, c);
    BordersAdded(s, clusters, v, c, seed);
    var all := if |c| >= 2 then clusters + [c] else clusters;
    forall k | 0 <= k < |all| ensures Listed(s, all[k], v + Elems(c)) {
      if k < |clusters| {
        assert Listed(s, clusters[k], v);
      }
    }
    forall k, l | 0 <= k < l < |all| ensures Elems(all[k]) !! Elems(all[l]) {
      assert Listed(s, clusters[k], v);
    }
  }

  lemma TwoMembers(c: seq<nat>, a: nat, b: nat)
    requires a in c && b in c && a != b
    ensures |c| >= 2
  {
  }

  lemma NoiseAdded(s: Points, clusters: seq<seq<nat>>, v: set<nat>, i: nat)
    requires Clustering(s, clusters, v) && Saturated(s, v) && !Core(s, i)
    requires i !in v && forall q: nat :: 0 <= q < i ==> q in v
    ensures Clustering(s, clusters, v + {i}) && Saturated(s, v + {i})
  {
    hide Core, Neighbors, CoreEdges, Reaches, Cluster, Together, Pulled;
    var w := v + {i};
    forall q: nat | q in w && Core(s, q) ensures Elems(Neighbors(s, q)) <= w {
      assert Elems(Neighbors(s, q)) <= v;
    }
    forall k | 0 <= k < |clusters| ensures Listed(s, clusters[k], w) {
      assert Listed(s, clusters[k], v);
    }
    NotPulled(s, v, i);
    assert !InSome(clusters, i) by {
      forall k: nat | k < |clusters| ensures i !in clusters[k] {
        assert Listed(s, clusters[k], v);
      }
    }
    forall a: nat, b: nat | a in w && b in w && a != b && Core(s, a) && Core(s, b) && Reaches(CoreEdges(s), a, b)
      ensures Together(clusters, a, b)
    {
      assert a in v && b in v;
    }
  }

  lemma NotPulled(s: Points, v: set<nat>, i: nat)
    requires Saturated(s, v) && i !in v && forall q: nat :: 0 <= q < i ==> q in v
    ensures !Pulled(s, i)
  {
    forall a: nat, c: nat | a < i && Core(s, a) && Core(s, c) && Reaches(CoreEdges(s), a, c) ensures i !in Neighbors(s, c) {
      SaturatedReach(s, v, a, c);
      assert Elems(Neighbors(s, c)) <= v;
    }
  }

  /** Exactly the points of `v` are marked, in both arrays. */
  ghost predicate Marked(s: Points, visited: array<bool>, claimed: array<bool>, v: set<nat>)
    reads visited, claimed
  {
    && visited.Length == s.n == claimed.Length
    && (forall q: nat :: q in v ==> q < s.n)
    && (forall q: nat :: 0 <= q < s.n ==> visited[q] == (q in v) && claimed[q] == (q in v))
  }

  /** `min_points - 1` underflows for zero, so the source asks for at least one. */
  method Dbscan(s: Points) returns (clusters: seq<seq<nat>>)
    requires s.minPoints >= 1 && SymmetricNear(s)
    ensures forall k :: 0 <= k < |clusters| ==> |clusters[k]| >= 2 && Distinct(clusters[k])
    ensures forall k, l :: 0 <= k < l < |clusters| ==> Elems(clusters[k]) !! Elems(clusters[l])
    ensures forall a: nat, b: nat :: a < s.n && b < s.n && a != b && Core(s, a) && Core(s, b) ==>
              (Together(clusters, a, b) <==> Reaches(CoreEdges(s), a, b))
    ensures forall k :: 0 <= k < |clusters| ==> Anchored(s, clusters[k])
    ensures forall q: nat :: q < s.n && !Core(s, q) ==> (InSome(clusters, q) <==> Pulled(s, q))
  {
    hide InSome, Pulled;
    hide Core, Neighbors, CoreEdges, Reaches, Clustering, Saturated, Cluster, Together, Anchored;
    var visited := new bool[s.n](_ => false);
    var claimed := new bool[s.n](_ => false);
    clusters := [];
    ghost var v: set<nat> := {};
    NothingClustered(s);
    var i: nat := 0;
    while i < s.n
      invariant 0 <= i <= s.n
      invariant fresh(visited) && fresh(claimed) && visited != claimed
      invariant Marked(s, visited, claimed, v) && forall q: nat :: 0 <= q < i ==> q in v
      invariant Clustering(s, clusters, v) && Saturated(s, v)
    {
      if !visited[i] {
        visited[i] := true;
        var neighbors := Neighbors(s, i);
        if |neighbors| < s.minPoints - 1 {
          claimed[i] := true;
          assert !Core(s, i) by {
            CoreMeans(s, i);
          }
          NoiseAdded(s, clusters, v, i);
          v := v + {i};
        } else {
          assert Core(s, i) by {
            CoreMeans(s, i);
          }
          var cluster := Expand(s, i, neighbors, visited, claimed, v);
          ClusterAdded(s, clusters, v, cluster, i);
          v := v + Elems(cluster);
          if |cluster| >= 2 {
            clusters := clusters + [cluster];
          }
        }
      }
      i := i + 1;
    }
    Conclude(s, clusters, v);
  }

  /** Three points in a row, each near the next, with three points needed for a core. */
  const ROW := Points(3, (i: nat, j: nat) => i == j + 1 || j == i + 1, 3)

  lemma RowFacts()
    ensures SymmetricNear(ROW)
    ensures Core(ROW, 1) && !Core(ROW, 0) && !Core(ROW, 2)
    ensures 0 in Neighbors(ROW, 1) && 2 in Neighbors(ROW, 1)
  {
    assert Neighbors(ROW, 1) == [0, 2];
    assert Neighbors(ROW, 0) == [1];
    assert Neighbors(ROW, 2) == [1];
  }

  /** The middle point is a core point and both others are near it, but only the one behind it joins its cluster: the
      first point has had its turn, and was taken for noise. */
  method LosesFirstPoint() returns (clusters: seq<seq<nat>>)
    ensures SymmetricNear(ROW) && Core(ROW, 1) && 0 in Neighbors(ROW, 1) && 2 in Neighbors(ROW, 1)
    ensures !InSome(clusters, 0) && InSome(clusters, 2)
  {
    RowFacts();
    hide Core, Neighbors, InSome, Reaches, Together, Anchored;
    assert !Pulled(ROW, 0);
    Refl(CoreEdges(ROW), 1);
    assert Pulled(ROW, 2);
    clusters := Dbscan(ROW);
  }

  lemma CoreMeans(s: Points, i: nat)
    ensures Core(s, i) <==> |Neighbors(s, i)| >= s.minPoints - 1
  {
  }

  lemma NothingClustered(s: Points)
    ensures Clustering(s, [], {}) && Saturated(s, {})
  {
  }

  lemma Conclude(s: Points, clusters: seq<seq<nat>>, v: set<nat>)
    requires SymmetricNear(s) && Clustering(s, clusters, v) && forall q: nat :: 0 <= q < s.n ==> q in v
    ensures forall k :: 0 <= k < |clusters| ==> |clusters[k]| >= 2 && Distinct(clusters[k])
    ensures forall k, l :: 0 <= k < l < |clusters| ==> Elems(clusters[k]) !! Elems(clusters[l])
    ensures forall a: nat, b: nat :: a < s.n && b < s.n && a != b && Core(s, a) && Core(s, b) ==>
              (Together(clusters, a, b) <==> Reaches(CoreEdges(s), a, b))
    ensures forall k :: 0 <= k < |clusters| ==> Anchored(s, clusters[k])
    ensures forall q: nat :: q < s.n && !Core(s, q) ==> (InSome(clusters, q) <==> Pulled(s, q))
  {
    hide Core, Neighbors, CoreEdges, Reaches, InSome, Pulled;
    forall k | 0 <= k < |clusters| ensures |clusters[k]| >= 2 {
      assert Listed(s, clusters[k], v);
    }
    forall k | 0 <= k < |clusters|
      ensures Distinct(clusters[k])
      ensures Anchored(s, clusters[k])
    {
      assert Listed(s, clusters[k], v);
      var seed: nat :| Cluster(s, clusters[k], seed);
    }
    forall a: nat, b: nat | a < s.n && b < s.n && a != b && Core(s, a) && Core(s, b) && Together(clusters, a, b)
      ensures Reaches(CoreEdges(s), a, b)
    {
      var k: nat :| 0 <= k < |clusters| && a in clusters[k] && b in clusters[k];
      assert Listed(s, clusters[k], v);
      var seed: nat :| Cluster(s, clusters[k], seed);
      CoreEdgesSymmetric(s);
      Flip(CoreEdges(s), seed, a);
      Trans(CoreEdges(s), a, seed, b);
    }
  }

  /** What the queue of an expansion still owes: neighbours of collected core points wait in `queue[qi..]`. */
  ghost predicate Expanding(s: Points, i: nat, cluster: seq<nat>, queue: seq<nat>, qi: nat, v: set<nat>)
    requires qi <= |queue|
  {
    && Cluster(s, cluster, i) && Elems(cluster) !! v
    && (forall q: nat :: q in queue ==> q < s.n && Touched(s, cluster, q))
    && (forall k: nat, q: nat :: k in cluster && Core(s, k) && q in Neighbors(s, k) ==> q in v || q in cluster || q in queue[qi..])
  }

  /** The cluster of the core point `i`: everything its chains of core points touch that was not visited yet. */
  method Expand(s: Points, i: nat, neighbors: seq<nat>, visited: array<bool>, claimed: array<bool>, ghost v: set<nat>)
    returns (cluster: seq<nat>)
    requires i < s.n && Core(s, i) && neighbors == Neighbors(s, i) && i !in v
    requires visited != claimed && visited.Length == s.n == claimed.Length && visited[i] && !claimed[i]
    requires forall q: nat :: q in v ==> q < s.n
    requires forall q: nat :: 0 <= q < s.n && q != i ==> visited[q] == (q in v) && claimed[q] == (q in v)
    requires Saturated(s, v)
    modifies visited, claimed
    ensures Cluster(s, cluster, i) && i in cluster && Elems(cluster) !! v
    ensures Marked(s, visited, claimed, v + Elems(cluster)) && Saturated(s, v + Elems(cluster))
  {
    hide Core, Neighbors, CoreEdges, Reaches, Saturated, Cluster, Touched, Expanding;
    cluster := [i];
    claimed[i] := true;
    var queue := neighbors;
    var qi: nat := 0;
    StartExpanding(s, i, v);
    ghost var unvisited := set q: nat | q < s.n && q !in v + Elems(cluster);
    while qi < |queue|
      invariant 0 <= qi <= |queue|
      invariant Marked(s, visited, claimed, v + Elems(cluster))
      invariant Expanding(s, i, cluster, queue, qi, v)
      invariant forall q: nat :: q in unvisited <==> q < s.n && q !in v + Elems(cluster)
      decreases unvisited, |queue| - qi
    {
      var q := queue[qi];
      qi := qi + 1;
      ghost var before := v + Elems(cluster);
      QueuedPoint(s, i, cluster, queue, qi - 1, v);
      assert Elems(cluster + [q]) == Elems(cluster) + {q};
      if visited[q] {
        SkipVisited(s, i, cluster, queue, qi - 1, v);
      } else {
        Collect(s, i, cluster, queue, qi - 1, v);
        unvisited := unvisited - {q};
      }
      if !visited[q] {
        visited[q] := true;
        var qNeighbors := Neighbors(s, q);
        CoreMeans(s, q);
        if |qNeighbors| >= s.minPoints - 1 {
          queue := queue + qNeighbors;
        }
      }
      if !claimed[q] {
        claimed[q] := true;
        cluster := cluster + [q];
      }
      assert v + Elems(cluster) == before + {q};
    }
    Exhausted(s, i, cluster, queue, v);
  }

  lemma StartExpanding(s: Points, i: nat, v: set<nat>)
    requires i < s.n && Core(s, i) && i !in v
    ensures Expanding(s, i, [i], Neighbors(s, i), 0, v)
  {
    hide Core, Reaches;
    Refl(CoreEdges(s), i);
    assert i in [i];
  }

  lemma QueuedPoint(s: Points, i: nat, cluster: seq<nat>, queue: seq<nat>, qi: nat, v: set<nat>)
    requires qi < |queue| && Expanding(s, i, cluster, queue, qi, v)
    ensures queue[qi] < s.n
  {
    assert queue[qi] in queue;
  }

  lemma SkipVisited(s: Points, i: nat, cluster: seq<nat>, queue: seq<nat>, qi: nat, v: set<nat>)
    requires qi < |queue| && Expanding(s, i, cluster, queue, qi, v)
    requires queue[qi] in v + Elems(cluster)
    ensures Expanding(s, i, cluster, queue, qi + 1, v)
  {
    hide Core, Neighbors, Cluster, Touched;
    assert queue[qi..] == [queue[qi]] + queue[qi + 1..];
  }

  /** A new point joins: linked to the seed if it is a core point, touched by the cluster otherwise. */
  lemma Collect(s: Points, i: nat, cluster: seq<nat>, queue: seq<nat>, qi: nat, v: set<nat>)
    requires qi < |queue| && Expanding(s, i, cluster, queue, qi, v)
    requires queue[qi] !in v + Elems(cluster)
    ensures var q := queue[qi];
            Expanding(s, i, cluster + [q], if Core(s, q) then queue + Neighbors(s, q) else queue, qi + 1, v)
  {
    hide Core, Neighbors, CoreEdges, Reaches;
    var q := queue[qi];
    var grown := cluster + [q];
    var waiting := if Core(s, q) then queue + Neighbors(s, q) else queue;
    assert queue[qi..] == [q] + queue[qi + 1..];
    assert waiting[qi + 1..] == queue[qi + 1..] + if Core(s, q) then Neighbors(s, q) else [];
    assert q !in cluster;
    assert forall x: nat :: Touched(s, cluster, x) ==> Touched(s, grown, x) by {
      forall x: nat | Touched(s, cluster, x) ensures Touched(s, grown, x) {
        var k: nat :| k in cluster && Core(s, k) && x in Neighbors(s, k);
        assert k in grown;
      }
    }
    assert q in queue;
    if Core(s, q) {
      var k: nat :| k in cluster && Core(s, k) && q in Neighbors(s, k);
      Extend(CoreEdges(s), i, k, q);
      assert q in grown && forall x: nat :: x in Neighbors(s, q) ==> Touched(s, grown, x);
    }
  }

  lemma Exhausted(s: Points, i: nat, cluster: seq<nat>, queue: seq<nat>, v: set<nat>)
    requires Expanding(s, i, cluster, queue, |queue|, v) && Saturated(s, v)
    ensures Cluster(s, cluster, i) && i in cluster && Elems(cluster) !! v && Saturated(s, v + Elems(cluster))
  {
    assert i in cluster;
    hide Core, Neighbors, Cluster, Touched;
  }
}
