/** Chains, reachability and cycles of a finite relation given by its edges. */
module Chains {

  predicate Chain<T(==)>(edges: set<(T, T)>, p: seq<T>) {
    p != [] && forall i :: 0 <= i < |p| - 1 ==> (p[i], p[i + 1]) in edges
  }

  ghost predicate Reaches<T(!new)>(edges: set<(T, T)>, a: T, b: T) {
    exists p :: Chain(edges, p) && p[0] == a && p[|p| - 1] == b
  }

  ghost predicate Cyclic<T(!new)>(edges: set<(T, T)>) {
    exists p :: Chain(edges, p) && |p| >= 2 && p[0] == p[|p| - 1]
  }

  ghost predicate OnCycle<T(!new)>(edges: set<(T, T)>, a: T) {
    exists p :: Chain(edges, p) && |p| >= 2 && p[0] == a == p[|p| - 1]
  }

  function Elems<T>(s: seq<T>): set<T> {
    set x | x in s
  }

  predicate Distinct<T(==)>(s: seq<T>) {
    forall i, j :: 0 <= i < j < |s| ==> s[i] != s[j]
  }

  lemma Refl<T(!new)>(edges: set<(T, T)>, a: T)
    ensures Reaches(edges, a, a)
  {
    assert Chain(edges, [a]);
  }

  lemma Extend<T(!new)>(edges: set<(T, T)>, a: T, b: T, c: T)
    requires Reaches(edges, a, b) && (b, c) in edges
    ensures Reaches(edges, a, c)
  {
    var p :| Chain(edges, p) && p[0] == a && p[|p| - 1] == b;
    var q := p + [c];
    assert Chain(edges, q) && q[0] == a && q[|q| - 1] == c;
  }

  lemma Trans<T(!new)>(edges: set<(T, T)>, a: T, b: T, c: T)
    requires Reaches(edges, a, b) && Reaches(edges, b, c)
    ensures Reaches(edges, a, c)
  {
    var p :| Chain(edges, p) && p[0] == a && p[|p| - 1] == b;
    var q :| Chain(edges, q) && q[0] == b && q[|q| - 1] == c;
    var r := p + q[1..];
    assert Chain(edges, r) && r[0] == a && r[|r| - 1] == c;
  }

  ghost predicate Symmetric<T(!new)>(edges: set<(T, T)>) {
    forall a, b :: (a, b) in edges ==> (b, a) in edges
  }

  lemma {:induction false} Reverse<T(!new)>(edges: set<(T, T)>, p: seq<T>)
    requires Symmetric(edges) && Chain(edges, p)
    ensures Reaches(edges, p[|p| - 1], p[0])
    decreases |p|
  {
    Refl(edges, p[0]);
    if |p| > 1 {
      Reverse(edges, p[1..]);
      Extend(edges, p[|p| - 1], p[1], p[0]);
    }
  }

  lemma Flip<T(!new)>(edges: set<(T, T)>, a: T, b: T)
    requires Symmetric(edges) && Reaches(edges, a, b)
    ensures Reaches(edges, b, a)
  {
    var p :| Chain(edges, p) && p[0] == a && p[|p| - 1] == b;
    Reverse(edges, p);
  }

  /** No edge leaves `s`. */
  ghost predicate ClosedUnder<T(!new)>(edges: set<(T, T)>, s: set<T>) {
    forall a, b :: (a, b) in edges && a in s ==> b in s
  }

  lemma {:induction false} StaysInside<T(!new)>(edges: set<(T, T)>, s: set<T>, p: seq<T>)
    requires ClosedUnder(edges, s) && Chain(edges, p) && p[0] in s
    ensures p[|p| - 1] in s
    decreases |p|
  {
    if |p| > 1 {
      assert (p[0], p[1]) in edges;
      StaysInside(edges, s, p[1..]);
    }
  }

  lemma ReachesInside<T(!new)>(edges: set<(T, T)>, s: set<T>, a: T, b: T)
    requires ClosedUnder(edges, s) && a in s && Reaches(edges, a, b)
    ensures b in s
  {
    var p :| Chain(edges, p) && p[0] == a && p[|p| - 1] == b;
    StaysInside(edges, s, p);
  }

  // ----- orders exclude cycles -----

  /** Every edge that leaves a member of `order` goes to an earlier member. */
  ghost predicate Layered<T(!new)>(edges: set<(T, T)>, order: seq<T>) {
    forall i, b :: 0 <= i < |order| && (order[i], b) in edges ==> b in order[..i]
  }

  lemma LayeredSnoc<T(!new)>(edges: set<(T, T)>, order: seq<T>, x: T)
    requires Layered(edges, order)
    requires forall b :: (x, b) in edges ==> b in order
    ensures Layered(edges, order + [x])
  {
    var all := order + [x];
    forall i, b | 0 <= i < |all| && (all[i], b) in edges ensures b in all[..i] {
      assert i < |order| ==> all[..i] == order[..i];
      assert i == |order| ==> all[..i] == order;
    }
  }

  function First<T(==)>(order: seq<T>, x: T): (i: nat)
    requires x in order
    ensures i < |order| && order[i] == x && x !in order[..i]
  {
    if order[0] == x then 0
    else
      assert x in order[1..];
      1 + First(order[1..], x)
  }

  lemma EdgeDescends<T(!new)>(edges: set<(T, T)>, order: seq<T>, a: T, b: T)
    requires Layered(edges, order) && (a, b) in edges && a in order
    ensures b in order && First(order, b) < First(order, a)
  {
    var i := First(order, a);
    assert b in order[..i];
    var j :| 0 <= j < i && order[j] == b;
    FirstIsFirst(order, j);
  }

  lemma FirstIsFirst<T>(order: seq<T>, j: nat)
    requires j < |order|
    ensures First(order, order[j]) <= j
  {
    var i := First(order, order[j]);
    assert forall k :: 0 <= k < i ==> order[k] in order[..i];
  }

  lemma {:induction false} ChainDescends<T(!new)>(edges: set<(T, T)>, order: seq<T>, p: seq<T>)
    requires Layered(edges, order) && Chain(edges, p) && p[0] in order
    ensures p[|p| - 1] in order && First(order, p[|p| - 1]) + |p| - 1 <= First(order, p[0])
    decreases |p|
  {
    if |p| > 1 {
      assert (p[0], p[1]) in edges;
      EdgeDescends(edges, order, p[0], p[1]);
      ChainDescends(edges, order, p[1..]);
    }
  }

  lemma LayeredIsAcyclic<T(!new)>(edges: set<(T, T)>, order: seq<T>)
    requires Layered(edges, order) && forall a, b :: (a, b) in edges ==> a in order
    ensures !Cyclic(edges)
  {
    if Cyclic(edges) {
      var p :| Chain(edges, p) && |p| >= 2 && p[0] == p[|p| - 1];
      assert (p[0], p[1]) in edges;
      ChainDescends(edges, order, p);
    }
  }

  // ----- a finite set nothing can leave for good holds a cycle -----

  ghost predicate HasSuccessor<T(!new)>(edges: set<(T, T)>, s: set<T>, a: T) {
    exists b :: b in s && (a, b) in edges
  }

  lemma {:induction false} WalkCloses<T(!new)>(edges: set<(T, T)>, s: set<T>, p: seq<T>)
    requires Chain(edges, p) && Elems(p) <= s
    requires forall a :: a in s ==> HasSuccessor(edges, s, a)
    ensures Cyclic(edges)
    decreases s - Elems(p)
  {
    var last := p[|p| - 1];
    assert last in Elems(p) && HasSuccessor(edges, s, last);
    var b :| b in s && (last, b) in edges;
    if b in p {
      var i :| 0 <= i < |p| && p[i] == b;
      var loop := p[i..] + [b];
      assert Chain(edges, loop) && |loop| >= 2 && loop[0] == loop[|loop| - 1];
    } else {
      assert b !in Elems(p) && b in Elems(p + [b]);
      assert Elems(p + [b]) == Elems(p) + {b};
      WalkCloses(edges, s, p + [b]);
    }
  }

  lemma NoSinkIsCyclic<T(!new)>(edges: set<(T, T)>, s: set<T>)
    requires s != {}
    requires forall a :: a in s ==> HasSuccessor(edges, s, a)
    ensures Cyclic(edges)
  {
    var a :| a in s;
    assert Elems([a]) == {a};
    WalkCloses(edges, s, [a]);
  }

  /** A cycle of some edges, all inside `s`, is a cycle of more edges, and starts in `s`. */
  lemma CycleStart<T(!new)>(inner: set<(T, T)>, edges: set<(T, T)>, s: set<T>) returns (a: T)
    requires Cyclic(inner) && inner <= edges && forall x, y :: (x, y) in inner ==> x in s
    ensures a in s && OnCycle(edges, a)
  {
    var p :| Chain(inner, p) && |p| >= 2 && p[0] == p[|p| - 1];
    a := p[0];
    assert (p[0], p[1]) in inner;
    assert Chain(edges, p);
  }

  // ----- counting -----

  lemma {:induction false} DistinctCount<T>(s: seq<T>)
    requires Distinct(s)
    ensures |Elems(s)| == |s|
  {
    if s != [] {
      DistinctCount(s[1..]);
      assert Elems(s) == {s[0]} + Elems(s[1..]);
    }
  }

  lemma {:induction false} ElemsCount<T>(s: seq<T>)
    ensures |Elems(s)| <= |s|
    ensures |Elems(s)| == |s| ==> Distinct(s)
  {
    if s != [] {
      ElemsCount(s[1..]);
      assert Elems(s) == {s[0]} + Elems(s[1..]);
    }
  }

  lemma SubsetCount<T>(a: set<T>, b: set<T>)
    requires a <= b
    ensures |a| <= |b|
    ensures |a| == |b| ==> a == b
  {
    assert b == a + (b - a);
  }

  lemma EmptyDifference<T>(a: set<T>, b: set<T>)
    requires a - b == {}
    ensures a <= b
  {
    forall x | x in a ensures x in b {
      assert x in b || x in a - b;
    }
  }

  lemma SplitCounts<T>(all: set<T>, keys: set<T>, some: set<T>)
    requires keys <= all && all - keys <= some <= all
    ensures |some| == |all - keys| + |keys * some|
    ensures |keys| == |keys - some| + |keys * some|
  {
    assert some == (all - keys) + (keys * some);
    assert keys == (keys - some) + (keys * some);
  }
}
