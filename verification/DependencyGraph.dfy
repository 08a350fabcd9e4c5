/** The dependency graph of compiler/src/module.rs: its cycle search and its topological sort. */
module DependencyGraph {
  import opened Prelude
  import opened Chains

  type Modules = map<string, seq<string>>

  /** Module to dependency, registered or not. */
  function Edges(g: Modules): (es: set<(string, string)>)
    ensures forall a, b :: (a, b) in es <==> a in g && b in g[a]
  {
    set a, b | a in g && b in g[a] :: (a, b)
  }

  function Nodes(g: Modules): (s: set<string>)
    ensures forall a :: a in g ==> a in s
    ensures forall a, b :: a in g && b in g[a] ==> b in s
  {
    g.Keys + set a, b | a in g && b in g[a] :: b
  }

  // ----- Kahn's algorithm, as a function of the graph -----

  /** The counter of a node once the nodes of `done` have been emitted. */
  function InDegree(g: Modules, n: string, done: set<string>): nat {
    if n in g then
      ElemsCount(g[n]);
      SubsetCount(Elems(g[n]) * done, Elems(g[n]));
      |g[n]| - |Elems(g[n]) * done|
    else 0
  }

  function Ready(g: Modules, done: set<string>): set<string> {
    set n | n in Nodes(g) && n !in done && InDegree(g, n, done) == 0
  }

  ghost predicate IsLargest(s: set<string>, x: string) {
    x in s && forall y :: y in s ==> y == x || TextLess(y, x)
  }

  lemma {:induction false} LargestExists(s: set<string>)
    requires s != {}
    ensures exists x :: IsLargest(s, x)
    decreases |s|
  {
    var y :| y in s;
    if s == {y} {
      assert IsLargest(s, y);
    } else {
      var rest := s - {y};
      LargestExists(rest);
      var x :| IsLargest(rest, x);
      TextLessTotal(x, y);
      if TextLess(x, y) {
        forall z | z in s ensures z == y || TextLess(z, y) {
          if z != y && z != x {
            TextLessTransitive(z, x, y);
          }
        }
        assert IsLargest(s, y);
      } else {
        assert IsLargest(s, x);
      }
    }
  }

  lemma LargestUnique(s: set<string>, x: string, y: string)
    requires IsLargest(s, x) && IsLargest(s, y)
    ensures x == y
  {
    if x != y {
      TextLessAsymmetric(x, y);
    }
  }

  ghost function Largest(s: set<string>): (x: string)
    requires s != {}
    ensures IsLargest(s, x)
  {
    LargestExists(s);
    var x :| IsLargest(s, x);
    x
  }

  /** The nodes in the order they are emitted: always the largest ready name, whatever order hash maps iterate in. */
  ghost function Emission(g: Modules, done: seq<string>): seq<string>
    decreases Nodes(g) - Elems(done)
  {
    var ready := Ready(g, Elems(done));
    if ready == {} then done
    else
      var x := Largest(ready);
      assert x in Elems(done + [x]);
      Emission(g, done + [x])
  }

  lemma InDegreeStep(g: Modules, n: string, done: set<string>, x: string)
    requires n in g && x !in done
    ensures InDegree(g, n, done + {x}) == InDegree(g, n, done) - if x in g[n] then 1 else 0
  {
    var deps := Elems(g[n]);
    if x in g[n] {
      assert deps * (done + {x}) == deps * done + {x};
    } else {
      assert deps * (done + {x}) == deps * done;
    }
  }

  // ----- sorted queues -----

  predicate Ascending(s: seq<string>) {
    forall i, j :: 0 <= i < j < |s| ==> s[i] == s[j] || TextLess(s[i], s[j])
  }

  predicate AtMost(x: string, s: seq<string>) {
    forall j :: 0 <= j < |s| ==> s[j] == x || TextLess(x, s[j])
  }

  lemma AtMostHead(x: string, s: seq<string>)
    requires Ascending(s) && (s != [] ==> !TextLess(s[0], x))
    ensures AtMost(x, s)
  {
    forall j | 0 <= j < |s| ensures s[j] == x || TextLess(x, s[j]) {
      TextLessTotal(s[0], x);
      if x != s[0] && s[0] != s[j] {
        TextLessTransitive(x, s[0], s[j]);
      }
    }
  }

  function Insert(x: string, s: seq<string>): (r: seq<string>)
    requires Ascending(s)
    ensures Ascending(r) && |r| == |s| + 1 && Elems(r) == Elems(s) + {x}
  {
    if s == [] || !TextLess(s[0], x) then
      AtMostHead(x, s);
      assert Elems([x] + s) == {x} + Elems(s);
      [x] + s
    else
      var rest := Insert(x, s[1..]);
      InsertedBehind(s[0], x, s[1..], rest);
      assert Elems(s) == {s[0]} + Elems(s[1..]);
      [s[0]] + rest
  }

  lemma InsertedBehind(head: string, x: string, tail: seq<string>, rest: seq<string>)
    requires AtMost(head, tail) && TextLess(head, x)
    requires Ascending(rest) && Elems(rest) == Elems(tail) + {x}
    ensures Ascending([head] + rest) && Elems([head] + rest) == {head} + Elems(rest)
  {
    forall j | 0 <= j < |rest| ensures rest[j] == head || TextLess(head, rest[j]) {
      assert rest[j] in Elems(rest);
      assert rest[j] != x ==> rest[j] in tail;
    }
  }

  /** `sort` on a vector of names. */
  function Sorted(s: seq<string>): (r: seq<string>)
    ensures Ascending(r) && |r| == |s| && Elems(r) == Elems(s)
  {
    if s == [] then []
    else
      assert Elems(s) == {s[0]} + Elems(s[1..]);
      Insert(s[0], Sorted(s[1..]))
  }

  lemma LastIsLargest(s: seq<string>)
    requires s != [] && Ascending(s) && |Elems(s)| == |s|
    ensures IsLargest(Elems(s), s[|s| - 1])
    ensures Elems(s[..|s| - 1]) == Elems(s) - {s[|s| - 1]} && |Elems(s[..|s| - 1])| == |s| - 1
    ensures Ascending(s[..|s| - 1])
  {
    ElemsCount(s);
  }

  // ----- what Kahn's algorithm emits -----

  /** Every emitted node was the largest ready one when it was emitted. */
  ghost predicate Greedy(g: Modules, done: seq<string>) {
    forall i :: 0 <= i < |done| ==> IsLargest(Ready(g, Elems(done[..i])), done[i])
  }

  lemma {:induction false} EmissionIsGreedy(g: Modules, done: seq<string>)
    requires Greedy(g, done)
    ensures var e := Emission(g, done);
            Greedy(g, e) && done <= e && Ready(g, Elems(e)) == {}
    decreases Nodes(g) - Elems(done)
  {
    hide Ready, IsLargest, Nodes;
    var ready := Ready(g, Elems(done));
    if ready != {} {
      var x := Largest(ready);
      var next := done + [x];
      assert x in Nodes(g) && x !in Elems(done) && x in Elems(next) by {
        LargestIsReady(g, Elems(done), x);
      }
      forall i | 0 <= i < |next| ensures IsLargest(Ready(g, Elems(next[..i])), next[i]) {
        assert next[..i] == if i < |done| then done[..i] else done;
      }
      EmissionIsGreedy(g, next);
    }
  }

  lemma LargestIsReady(g: Modules, done: set<string>, x: string)
    requires IsLargest(Ready(g, done), x)
    ensures x in Nodes(g) && x !in done && InDegree(g, x, done) == 0
  {
  }

  /** A counter at zero means: no dependency is listed twice and all of them are emitted. */
  lemma ZeroInDegree(g: Modules, n: string, done: set<string>)
    requires n in g
    ensures InDegree(g, n, done) == 0 <==> Distinct(g[n]) && Elems(g[n]) <= done
  {
    var deps := Elems(g[n]);
    ElemsCount(g[n]);
    SubsetCount(deps * done, deps);
    if Distinct(g[n]) {
      DistinctCount(g[n]);
    }
    if deps <= done {
      assert deps * done == deps;
    }
  }

  /** On every graph: no node is emitted twice, and all dependencies of a node are emitted before it. */
  lemma GreedyIsOrdered(g: Modules, e: seq<string>)
    requires Greedy(g, e)
    ensures Distinct(e) && Elems(e) <= Nodes(g) && Layered(Edges(g), e)
  {
    hide Ready, IsLargest, InDegree, Nodes, Edges;
    forall i | 0 <= i < |e| ensures e[i] in Nodes(g) && e[i] !in e[..i] {
      LargestIsReady(g, Elems(e[..i]), e[i]);
      assert forall y :: y in e[..i] ==> y in Elems(e[..i]);
    }
    assert forall i, j :: 0 <= i < j < |e| ==> e[i] in e[..j];
    forall i, b | 0 <= i < |e| && (e[i], b) in Edges(g) ensures b in e[..i] {
      LargestIsReady(g, Elems(e[..i]), e[i]);
      ZeroInDegree(g, e[i], Elems(e[..i]));
      assert b in Elems(g[e[i]]);
    }
  }

  lemma EmissionFacts(g: Modules)
    ensures var e := Emission(g, []);
            Greedy(g, e) && Ready(g, Elems(e)) == {}
            && Distinct(e) && |Elems(e)| == |e| && Elems(e) <= Nodes(g) && Layered(Edges(g), e)
  {
    assert Greedy(g, []);
    hide *;
    EmissionIsGreedy(g, []);
    GreedyIsOrdered(g, Emission(g, []));
    DistinctCount(Emission(g, []));
  }

  lemma EmittedEarlier(g: Modules, e: seq<string>, n: string)
    requires Greedy(g, e) && n in e && n in g
    ensures Distinct(g[n]) && Elems(g[n]) <= Elems(e)
  {
    hide Ready, IsLargest, InDegree, Nodes;
    var i :| 0 <= i < |e| && e[i] == n;
    LargestIsReady(g, Elems(e[..i]), n);
    ZeroInDegree(g, n, Elems(e[..i]));
    assert Elems(e[..i]) <= Elems(e);
  }

  /** Emission has come to an end: a node is out exactly if it is unregistered, or lists each dependency once and all of
      them are out. */
  lemma EmittedExactly(g: Modules, n: string)
    requires n in Nodes(g)
    ensures var e := Elems(Emission(g, []));
            n in e <==> (n in g ==> Distinct(g[n]) && Elems(g[n]) <= e)
  {
    hide Emission, Nodes, Edges, Greedy, Layered;
    var e := Emission(g, []);
    EmissionFacts(g);
    if n in g {
      ZeroInDegree(g, n, Elems(e));
      if n in e {
        EmittedEarlier(g, e, n);
      }
    }
    assert n !in Ready(g, Elems(e));
  }

  predicate NoDuplicates(g: Modules) {
    forall m :: m in g ==> Distinct(g[m])
  }

  lemma EmitsAllIffAcyclic(g: Modules)
    requires NoDuplicates(g)
    ensures Elems(Emission(g, [])) == Nodes(g) <==> !Cyclic(Edges(g))
  {
    hide Emission, Nodes, Edges, Greedy, Layered, Ready, InDegree, Cyclic;
    var e := Emission(g, []);
    EmissionFacts(g);
    if Elems(e) == Nodes(g) {
      assert forall a, b :: (a, b) in Edges(g) ==> a in Elems(e);
      LayeredIsAcyclic(Edges(g), e);
    } else {
      var stuck := Nodes(g) - Elems(e);
      if stuck == {} {
        EmptyDifference(Nodes(g), Elems(e));
      }
      forall a | a in stuck ensures HasSuccessor(Edges(g), stuck, a) {
        EmittedExactly(g, a);
        var b :| b in Elems(g[a]) && b !in Elems(e);
        assert b in stuck && (a, b) in Edges(g);
      }
      NoSinkIsCyclic(Edges(g), stuck);
    }
  }

  /** The result of `topological_sort`. */
  ghost function SortResult(g: Modules): Result<seq<string>, string> {
    var e := Emission(g, []);
    if |e| != |g| then Err("Circular dependency detected!") else Ok(e)
  }

  /** Registered dependencies, none listed twice: the sort fails exactly on a cycle, else orders every module. */
  lemma SortFailsIffCyclic(g: Modules)
    requires NoDuplicates(g) && Nodes(g) == g.Keys
    ensures SortResult(g).Err? <==> Cyclic(Edges(g))
    ensures SortResult(g).Ok? ==>
              var e := SortResult(g).value;
              Distinct(e) && Elems(e) == g.Keys && Layered(Edges(g), e)
  {
    hide Emission, Nodes, Edges, Greedy, Layered, Ready, InDegree, Cyclic;
    var e := Emission(g, []);
    EmissionFacts(g);
    EmitsAllIffAcyclic(g);
    SubsetCount(Elems(e), Nodes(g));
  }

  /** A module that can never be emitted: it lists a dependency twice or lies on a cycle. */
  ghost predicate Blocked(g: Modules, m: string) {
    m in g && (!Distinct(g[m]) || OnCycle(Edges(g), m))
  }

  /** A module that depends, at any distance, on a blocked one. */
  ghost predicate Stuck(g: Modules, n: string) {
    exists m :: Reaches(Edges(g), n, m) && Blocked(g, m)
  }

  lemma BlockedIsNotEmitted(g: Modules, m: string)
    requires Blocked(g, m)
    ensures m !in Emission(g, [])
  {
    hide Emission, Nodes, Edges, Ready, InDegree, Layered, Greedy;
    var e := Emission(g, []);
    EmissionFacts(g);
    if m in e {
      EmittedEarlier(g, e, m);
      var p :| Chain(Edges(g), p) && |p| >= 2 && p[0] == m == p[|p| - 1];
      ChainDescends(Edges(g), e, p);
    }
  }

  lemma StuckIsNotEmitted(g: Modules, n: string)
    requires Stuck(g, n)
    ensures n !in Emission(g, [])
  {
    hide Emission, Nodes, Ready, InDegree, Greedy, Blocked;
    var e := Emission(g, []);
    EmissionFacts(g);
    var m :| Reaches(Edges(g), n, m) && Blocked(g, m);
    BlockedIsNotEmitted(g, m);
    if n in e {
      forall a, b | (a, b) in Edges(g) && a in Elems(e) ensures b in Elems(e) {
        EdgeDescends(Edges(g), e, a, b);
      }
      ReachesInside(Edges(g), Elems(e), n, m);
    }
  }

  /** From a node that is not emitted, following dependencies that are not emitted either ends at a blocked module. */
  lemma NotEmittedIsStuck(g: Modules, n: string)
    requires n in Nodes(g) && n !in Emission(g, [])
    ensures Stuck(g, n)
  {
    hide Emission, Nodes, Edges, Ready, InDegree, Layered, Greedy, Reaches, Distinct, Cyclic, OnCycle;
    var es, e := Edges(g), Elems(Emission(g, []));
    var left := set x | x in Nodes(g) - e && Reaches(es, n, x);
    Refl(es, n);
    if m :| m in left && m in g && !Distinct(g[m]) {
      assert Blocked(g, m);
    } else {
      var inner := set a, b | a in left && b in left && (a, b) in es :: (a, b);
      forall a | a in left ensures HasSuccessor(inner, left, a) {
        EmittedExactly(g, a);
        var b :| b in Elems(g[a]) && b !in e;
        Extend(es, n, a, b);
        assert b in left && (a, b) in inner;
      }
      assert n in left;
      NoSinkIsCyclic(inner, left);
      var m := CycleStart(inner, es, left);
      assert Blocked(g, m);
    }
  }

  /** What the sort emits, in terms of the graph alone. */
  lemma EmittedIffNotStuck(g: Modules, n: string)
    requires n in Nodes(g)
    ensures n in Emission(g, []) <==> !Stuck(g, n)
  {
    hide Emission, Nodes, Stuck;
    if Stuck(g, n) {
      StuckIsNotEmitted(g, n);
    } else if n !in Emission(g, []) {
      NotEmittedIsStuck(g, n);
    }
  }

  /** On any graph the sort succeeds exactly if as many nodes are unregistered as modules are stuck. */
  lemma SortSucceedsIff(g: Modules)
    ensures SortResult(g).Ok? <==> |Nodes(g) - g.Keys| == |set n | n in g.Keys && Stuck(g, n)|
  {
    hide Emission, Nodes, Stuck;
    SortCounts(g);
    forall n | n in g.Keys ensures n in Nodes(g) && (n in Emission(g, []) <==> !Stuck(g, n)) {
      KeysAreNodes(g);
      EmittedIffNotStuck(g, n);
    }
    assert (set n | n in g.Keys && Stuck(g, n)) == g.Keys - Elems(Emission(g, []));
  }

  lemma KeysAreNodes(g: Modules)
    ensures g.Keys <= Nodes(g)
  {
  }

  /** With every dependency registered the sort fails exactly on a cycle or a dependency listed twice. */
  lemma RegisteredSortFailsIff(g: Modules)
    requires Nodes(g) == g.Keys
    ensures SortResult(g).Err? <==> Cyclic(Edges(g)) || !NoDuplicates(g)
  {
    hide Emission, Nodes, Edges, Distinct;
    SortSucceedsIff(g);
    var stuck := set n | n in g.Keys && Stuck(g, n);
    if n :| n in stuck {
      assert stuck != {};
      var m :| Reaches(Edges(g), n, m) && Blocked(g, m);
      assert OnCycle(Edges(g), m) ==> Cyclic(Edges(g));
    } else {
      assert stuck == {};
      forall m | m in g ensures !Blocked(g, m) {
        Refl(Edges(g), m);
        assert m in g.Keys && !Stuck(g, m);
      }
      forall p | Chain(Edges(g), p) && |p| >= 2 ensures p[0] != p[|p| - 1] {
        assert (p[0], p[1]) in Edges(g);
        assert !Blocked(g, p[0]);
      }
    }
  }

  /** So a dependency listed twice fakes a cycle: `a` lists `b` twice, and the sort reports a circular dependency. */
  lemma DuplicateFakesCycle()
    ensures var g: Modules := map["a" := ["b", "b"], "b" := []];
            !Cyclic(Edges(g)) && SortResult(g).Err?
  {
    var g: Modules := map["a" := ["b", "b"], "b" := []];
    assert g.Keys == {"a", "b"} && g["b"] == [] && g["a"] == ["b", "b"];
    assert "a" in g && g["a"][0] == g["a"][1];
    assert Nodes(g) == g.Keys;
    RegisteredSortFailsIff(g);
    hide Nodes;
    assert Layered(Edges(g), ["b", "a"]) by {
      assert ["b", "a"][..1] == ["b"];
    }
    LayeredIsAcyclic(Edges(g), ["b", "a"]);
  }

  lemma SortCounts(g: Modules)
    ensures var e := Emission(g, []);
            && |e| == |Nodes(g) - g.Keys| + |g.Keys * Elems(e)|
            && |g| == |g.Keys - Elems(e)| + |g.Keys * Elems(e)|
  {
    hide Emission, Nodes, Greedy, Layered, Ready, InDegree, Distinct, Elems, Edges;
    var e := Emission(g, []);
    EmissionFacts(g);
    forall n | n in Nodes(g) - g.Keys ensures n in Elems(e) {
      EmittedExactly(g, n);
    }
    SplitCounts(Nodes(g), g.Keys, Elems(e));
  }

  /** And on an acyclic graph an unregistered dependency makes it report a cycle there is not. */
  lemma AcyclicSortSucceedsIff(g: Modules)
    requires NoDuplicates(g) && !Cyclic(Edges(g))
    ensures SortResult(g).Ok? <==> Nodes(g) == g.Keys
  {
    hide Emission, Nodes, Edges, Greedy, Layered, Ready, InDegree, Cyclic;
    EmitsAllIffAcyclic(g);
    SortCounts(g);
    assert g.Keys - Elems(Emission(g, [])) == {};
  }

  /** `a` depends on `x`, which is not registered: there is no cycle, and the sort reports a circular dependency. */
  lemma UnregisteredFakesCycle()
    ensures var g: Modules := map["a" := ["x"]];
            !Cyclic(Edges(g)) && SortResult(g).Err?
  {
    var g: Modules := map["a" := ["x"]];
    assert g.Keys == {"a"} && g["a"] == ["x"];
    assert "x" in g["a"] && "x" in Nodes(g);
    hide Nodes;
    assert Layered(Edges(g), ["x", "a"]) by {
      assert ["x", "a"][..1] == ["x"];
    }
    LayeredIsAcyclic(Edges(g), ["x", "a"]);
    AcyclicSortSucceedsIff(g);
  }

  /** While an unregistered dependency can hide a cycle: here `b` depends on itself and the sort still succeeds. */
  lemma HiddenCycle()
    ensures var g: Modules := map["a" := ["x"], "b" := ["b"]];
            Cyclic(Edges(g)) && SortResult(g).Ok?
  {
    var g: Modules := map["a" := ["x"], "b" := ["b"]];
    assert g.Keys == {"a", "b"} && g["b"] == ["b"] && g["a"] == ["x"];
    ExampleSorts(g);
  }

  lemma ExampleSorts(g: Modules)
    requires g.Keys == {"a", "b"} && g["a"] == ["x"] && g["b"] == ["b"]
    ensures Cyclic(Edges(g)) && SortResult(g).Ok?
  {
    assert "b" in g["b"];
    assert Chain(Edges(g), ["b", "b"]);
    hide Emission, Nodes, Edges, Chain;
    EmissionFacts(g);
    ExampleEmission(g);
    assert |{"x", "a"}| == |{"a", "b"}| == |g|;
  }

  lemma ExampleEmission(g: Modules)
    requires g.Keys == {"a", "b"} && g["a"] == ["x"] && g["b"] == ["b"]
    ensures Elems(Emission(g, [])) == {"x", "a"}
  {
    hide Emission, Nodes, Edges, Greedy, Layered, Ready, InDegree;
    var e := Emission(g, []);
    EmissionFacts(g);
    assert "x" in g["a"] && "b" in g["b"];
    EmittedExactly(g, "x");
    EmittedExactly(g, "a");
    if "b" in e {
      EdgeDescends(Edges(g), e, "b", "b");
    }
    forall n | n in e ensures n in {"x", "a"} {
      ExampleNodes(g, n);
    }
  }

  lemma ExampleNodes(g: Modules, n: string)
    requires g.Keys == {"a", "b"} && g["a"] == ["x"] && g["b"] == ["b"] && n in Nodes(g)
    ensures n in {"a", "b", "x"}
  {
  }

  lemma EmissionStep(g: Modules, done: seq<string>, x: string)
    requires IsLargest(Ready(g, Elems(done)), x)
    ensures Emission(g, done) == Emission(g, done + [x])
  {
    LargestUnique(Ready(g, Elems(done)), x, Largest(Ready(g, Elems(done))));
  }

  lemma EmissionEnd(g: Modules, done: seq<string>)
    requires Ready(g, Elems(done)) == {}
    ensures Emission(g, done) == done
  {
  }

  class DependencyGraph {
    var modules: Modules

    constructor ()
      ensures modules == map[]
    {
      modules := map[];
    }

    method AddModule(name: string, deps: seq<string>)
      modifies this
      ensures modules == old(modules)[name := deps]
    {
      modules := modules[name := deps];
    }

    /** Decides, on any graph, whether it has a cycle. */
    method HasCycle() returns (r: bool)
      ensures r <==> Cyclic(Edges(modules))
    {
      hide Layered;
      var visited: set<string>, recStack: set<string> := {}, {};
      ghost var order: seq<string> := [];
      var todo := modules.Keys;
      NothingFinished();
      while todo != {}
        invariant todo <= modules.Keys
        invariant Search(visited, recStack, [], order)
        invariant forall m :: m in modules && m !in todo ==> m in order
      {
        var name :| name in todo;
        todo := todo - {name};
        r, visited, recStack, order := HasCycleUtil(name, visited, recStack, [], order);
        if r {
          return;
        }
      }
      LayeredIsAcyclic(Edges(modules), order);
      r := false;
    }

    /** The search: `stack` is the path being explored, `order` the finished nodes, dependencies first. */
    ghost predicate Search(visited: set<string>, recStack: set<string>, stack: seq<string>, order: seq<string>)
      reads this
    {
      && recStack == Elems(stack)
      && visited == Elems(stack) + Elems(order)
      && Layered(Edges(modules), order)
      && (stack != [] ==> Chain(Edges(modules), stack))
    }

    lemma NothingFinished()
      ensures Search({}, {}, [], [])
    {
    }

    method HasCycleUtil(name: string, visited0: set<string>, recStack0: set<string>, ghost stack: seq<string>, ghost order0: seq<string>)
      returns (r: bool, visited: set<string>, recStack: set<string>, ghost order: seq<string>)
      requires Search(visited0, recStack0, stack, order0)
      requires name !in recStack0 && (name in visited0 ==> name in order0)
      requires stack != [] ==> (stack[|stack| - 1], name) in Edges(modules)
      ensures r ==> Cyclic(Edges(modules))
      ensures !r ==> Search(visited, recStack, stack, order) && recStack == recStack0
      ensures !r ==> order0 <= order && name in order
      decreases (Nodes(modules) + {name}) - visited0, if name in order0 then 0 else 1
    {
      hide Layered;
      visited := visited0 + {name};
      recStack := recStack0 + {name};
      order := order0;
      ghost var path := stack + [name];
      assert Chain(Edges(modules), path);
      assert Elems(path) == Elems(stack) + {name};
      if name in modules {
        var deps := modules[name];
        var i := 0;
        while i < |deps|
          invariant 0 <= i <= |deps|
          invariant Search(visited, recStack, path, order)
          invariant visited0 + {name} <= visited && order0 <= order
          invariant forall j :: 0 <= j < i ==> deps[j] in order
        {
          var dep := deps[i];
          assert (name, dep) in Edges(modules);
          if dep !in visited {
            FinishedDependency(order0, name, dep);
            r, visited, recStack, order := HasCycleUtil(dep, visited, recStack, path, order);
            if r {
              return;
            }
          } else if dep in recStack {
            BackEdge(path, name, dep);
            return true, visited, recStack, order;
          }
          i := i + 1;
        }
      }
      LayeredSnoc(Edges(modules), order, name);
      recStack := recStack - {name};
      assert recStack == Elems(stack);
      order := order + [name];
      r := false;
    }

    lemma FinishedDependency(order: seq<string>, name: string, dep: string)
      requires Layered(Edges(modules), order) && (name, dep) in Edges(modules)
      ensures name in order ==> dep in order
    {
      if name in order {
        EdgeDescends(Edges(modules), order, name, dep);
      }
    }

    lemma BackEdge(path: seq<string>, name: string, dep: string)
      requires Chain(Edges(modules), path) && path[|path| - 1] == name && dep in path
      requires (name, dep) in Edges(modules)
      ensures Cyclic(Edges(modules))
    {
      var i :| 0 <= i < |path| && path[i] == dep;
      var loop := path[i..] + [dep];
      assert Chain(Edges(modules), loop) && |loop| >= 2 && loop[0] == loop[|loop| - 1];
    }

    /** Computes `SortResult`: the counters stay natural numbers, and hash-map order does not matter. */
    method TopologicalSort() returns (r: Result<seq<string>, string>)
      ensures r == SortResult(modules)
    {
      hide Nodes, InDegree, Ascending, IsLargest, Emission, Zeros, Ready;
      var inDegree := InitialInDegrees();
      var queue := InitialQueue(inDegree);
      var result: seq<string> := [];
      assert Elems(result) == {};
      while queue != []
        invariant Counted(inDegree, Elems(result))
        invariant Queued(queue, inDegree, Elems(result)) && Elems(queue) == Ready(modules, Elems(result))
        invariant Emission(modules, result) == Emission(modules, [])
        decreases Nodes(modules) - Elems(result)
      {
        ghost var done := Elems(result);
        LastIsLargest(queue);
        var node := queue[|queue| - 1];
        queue := queue[..|queue| - 1];
        LargestIsReady(modules, done, node);
        EmissionStep(modules, result, node);
        result := result + [node];
        assert Elems(result) == done + {node};
        ZerosWithout(inDegree, done, node);
        inDegree, queue := EmitNode(node, inDegree, queue, done);
        ZerosAreReady(inDegree, Elems(result));
      }
      EmissionEnd(modules, result);
      if |result| != |modules| {
        r := Err("Circular dependency detected!");
      } else {
        r := Ok(result);
      }
    }

    /** The counters are those of the nodes left after `done`. */
    ghost predicate Counted(inDegree: map<string, nat>, done: set<string>)
      reads this
    {
      && inDegree.Keys == Nodes(modules)
      && (forall n :: n in inDegree ==> inDegree[n] == InDegree(modules, n, done))
      && (forall n :: n in inDegree && n in done ==> inDegree[n] == 0)
    }

    lemma ZerosWithout(inDegree: map<string, nat>, done: set<string>, node: string)
      ensures Zeros(inDegree, done + {node}) == Zeros(inDegree, done) - {node}
    {
    }

    lemma ZerosAreReady(inDegree: map<string, nat>, done: set<string>)
      requires Counted(inDegree, done)
      ensures Zeros(inDegree, done) == Ready(modules, done)
    {
      hide InDegree, Nodes;
    }

    ghost function Zeros(inDegree: map<string, nat>, done: set<string>): set<string> {
      set n | n in inDegree && n !in done && inDegree[n] == 0
    }

    lemma NothingEmitted(inDegree: map<string, nat>)
      requires modules.Keys <= inDegree.Keys <= Nodes(modules)
      requires forall m, d :: m in modules && d in modules[m] ==> d in inDegree
      requires forall n :: n in inDegree ==> inDegree[n] == if n in modules then |modules[n]| else 0
      ensures Counted(inDegree, {}) && Zeros(inDegree, {}) == Ready(modules, {})
    {
      assert inDegree.Keys == Nodes(modules);
      hide Nodes;
      forall n | n in modules ensures InDegree(modules, n, {}) == |modules[n]| {
        assert Elems(modules[n]) * {} == {};
      }
      ZerosAreReady(inDegree, {});
    }

    method InitialInDegrees() returns (inDegree: map<string, nat>)
      ensures Counted(inDegree, {}) && Zeros(inDegree, {}) == Ready(modules, {})
    {
      hide InDegree, Counted, Zeros, Ready, Nodes;
      inDegree := map m | m in modules :: 0;
      var todo := modules.Keys;
      while todo != {}
        invariant todo <= modules.Keys <= inDegree.Keys <= Nodes(modules)
        invariant forall m, d :: m in modules && m !in todo && d in modules[m] ==> d in inDegree
        invariant forall n :: n in inDegree ==>
                    inDegree[n] == if n in modules && n !in todo then |modules[n]| else 0
      {
        var m :| m in todo;
        todo := todo - {m};
        var deps := modules[m];
        var i := 0;
        while i < |deps|
          invariant 0 <= i <= |deps|
          invariant modules.Keys <= inDegree.Keys <= Nodes(modules)
          invariant forall m', d :: m' in modules && m' !in todo && m' != m && d in modules[m'] ==> d in inDegree
          invariant forall d :: d in deps[..i] ==> d in inDegree
          invariant forall n :: n in inDegree ==>
                      inDegree[n] == if n == m then i else if n in modules && n !in todo then |modules[n]| else 0
        {
          inDegree := inDegree[m := inDegree[m] + 1];
          if deps[i] !in inDegree {
            inDegree := inDegree[deps[i] := 0];
          }
          i := i + 1;
        }
      }
      NothingEmitted(inDegree);
    }

    method InitialQueue(inDegree: map<string, nat>) returns (queue: seq<string>)
      ensures Queued(queue, inDegree, {})
    {
      queue := [];
      var todo := inDegree.Keys;
      while todo != {}
        invariant todo <= inDegree.Keys
        invariant |Elems(queue)| == |queue|
        invariant Elems(queue) == Zeros(inDegree, todo)
      {
        var n :| n in todo;
        todo := todo - {n};
        if inDegree[n] == 0 {
          assert Elems(queue + [n]) == Elems(queue) + {n};
          queue := queue + [n];
        }
      }
      queue := Sorted(queue);
    }

    /** The queue holds, sorted and once each, the nodes outside `done` whose counter is zero. */
    ghost predicate Queued(queue: seq<string>, inDegree: map<string, nat>, done: set<string>) {
      Ascending(queue) && |Elems(queue)| == |queue| && Elems(queue) == Zeros(inDegree, done)
    }

    /** Takes `node` out: every module that lists it loses one from its counter and is queued when that was the last. */
    method EmitNode(node: string, inDegree0: map<string, nat>, queue0: seq<string>, ghost done: set<string>)
      returns (inDegree: map<string, nat>, queue: seq<string>)
      requires Counted(inDegree0, done) && node in Zeros(inDegree0, done)
      requires Queued(queue0, inDegree0, done + {node})
      ensures Counted(inDegree, done + {node})
      ensures Queued(queue, inDegree, done + {node})
    {
      assert forall n :: n !in modules ==> InDegree(modules, n, done) == InDegree(modules, n, done + {node});
      hide Nodes, Queued, InDegree;
      inDegree, queue := inDegree0, queue0;
      var todo := modules.Keys;
      while todo != {}
        invariant todo <= modules.Keys && inDegree.Keys == Nodes(modules)
        invariant forall n :: n in inDegree ==>
                    inDegree[n] == InDegree(modules, n, if n in todo then done else done + {node})
        invariant forall n :: n in inDegree && n in done + {node} ==> inDegree[n] == 0
        invariant Queued(queue, inDegree, done + {node})
      {
        var m :| m in todo;
        todo := todo - {m};
        InDegreeStep(modules, m, done, node);
        if node in modules[m] && m in inDegree {
          inDegree, queue := Decrement(m, inDegree, queue, done + {node});
        }
      }
    }

    method Decrement(m: string, inDegree0: map<string, nat>, queue0: seq<string>, ghost done: set<string>)
      returns (inDegree: map<string, nat>, queue: seq<string>)
      requires Queued(queue0, inDegree0, done)
      requires m in inDegree0 && m !in done && inDegree0[m] > 0
      ensures inDegree == inDegree0[m := inDegree0[m] - 1]
      ensures Queued(queue, inDegree, done)
    {
      inDegree, queue := inDegree0[m := inDegree0[m] - 1], queue0;
      if inDegree[m] == 0 {
        assert Zeros(inDegree, done) == Zeros(inDegree0, done) + {m};
        assert Elems(queue + [m]) == Elems(queue) + {m};
        queue := Sorted(queue + [m]);
      } else {
        assert Zeros(inDegree, done) == Zeros(inDegree0, done);
      }
    }
  }
}
