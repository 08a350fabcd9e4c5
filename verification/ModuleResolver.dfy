/** Recursive module resolution (compiler/src/module.rs). */
module ModuleResolver {
  import opened Chains

  datatype ModuleDecl = ModuleDecl(name: string, isPublic: bool, isInline: bool, items: seq<ModuleItem>)

  /** Only sub-modules matter to resolution; every other kind of item is an `OtherItem`. */
  datatype ModuleItem = SubModule(decl: ModuleDecl) | OtherItem(name: string)

  type Loaded = map<string, ModuleDecl>

  function SubNames(items: seq<ModuleItem>): seq<string> {
    if items == [] then []
    else (if items[0].SubModule? then [items[0].decl.name] else []) + SubNames(items[1..])
  }

  /** Module to sub-module, loaded or not. */
  function Edges(loaded: Loaded): (es: set<(string, string)>)
    ensures forall a, b :: (a, b) in es <==> a in loaded && b in SubNames(loaded[a].items)
  {
    set a, b | a in loaded && b in SubNames(loaded[a].items) :: (a, b)
  }

  /** A module that is not loaded is stood in for by an empty one. */
  function Placeholder(name: string): ModuleDecl {
    ModuleDecl(name, false, false, [])
  }

  /** The later module table: the modules of `names` that were missing are placeholders now. */
  ghost predicate Filled(before: Loaded, after: Loaded, names: set<string>) {
    && after.Keys == before.Keys + names
    && forall n :: n in after ==> after[n] == if n in before then before[n] else Placeholder(n)
  }

  lemma FilledKeepsEdges(before: Loaded, after: Loaded, names: set<string>)
    requires Filled(before, after, names)
    ensures Edges(after) == Edges(before)
  {
    forall a, b ensures (a, b) in Edges(after) <==> (a, b) in Edges(before) {
    }
  }

  lemma FilledMore(first: Loaded, before: Loaded, after: Loaded, a: set<string>, b: set<string>)
    requires Filled(first, before, a) && Filled(before, after, b)
    ensures Filled(first, after, a + b)
  {
  }

  /** A cycle lies behind `root`. */
  ghost predicate CycleBehind(es: set<(string, string)>, root: string) {
    exists m :: Reaches(es, root, m) && OnCycle(es, m)
  }

  /** An order of everything behind `root`, sub-modules first, leaves no room for a cycle there. */
  lemma OrderedMeansNoCycle(es: set<(string, string)>, root: string, order: seq<string>)
    requires forall m :: Reaches(es, root, m) ==> m in order
    requires Layered(es, order)
    ensures !CycleBehind(es, root)
  {
    forall m | Reaches(es, root, m) ensures !OnCycle(es, m) {
      forall p | Chain(es, p) && |p| >= 2 && p[0] == m ensures p[|p| - 1] != m {
        ChainDescends(es, order, p);
      }
    }
  }

  class ModuleResolver {
    var loadedModules: Loaded

    constructor ()
      ensures loadedModules == map[]
    {
      loadedModules := map[];
    }

    method Resolve(name: string) returns (decl: ModuleDecl)
      modifies this
      ensures Filled(old(loadedModules), loadedModules, {name})
      ensures name in loadedModules && decl == loadedModules[name]
    {
      if name in loadedModules {
        return loadedModules[name];
      }
      decl := Placeholder(name);
      loadedModules := loadedModules[name := decl];
    }

    /** Lists every module reachable from `name` exactly once, `name` last; sub-modules first exactly if no cycle lies behind `name`. */
    method ResolveAll(name: string) returns (order: seq<string>)
      modifies this
      ensures forall m :: m in order <==> Reaches(Edges(old(loadedModules)), name, m)
      ensures Distinct(order) && order != [] && order[|order| - 1] == name
      ensures Layered(Edges(old(loadedModules)), order) <==> !CycleBehind(Edges(old(loadedModules)), name)
      ensures Filled(old(loadedModules), loadedModules, Elems(order))
    {
      ghost var es := Edges(loadedModules);
      ghost var universe := {name} + set e | e in es :: e.1;
      order := [];
      var visited: set<string> := {};
      assert Filled(loadedModules, loadedModules, {});
      Refl(es, name);
      order, visited := ResolveRecursive(name, order, visited, loadedModules, name, [], universe);
      assert Elems([]) + Elems(order) == Elems(order);
      forall m | Reaches(es, name, m) ensures m in order {
        ReachesInside(es, visited, name, m);
      }
      if Layered(es, order) {
        OrderedMeansNoCycle(es, name, order);
      }
    }

    /** The walk: `path` are the modules being resolved, `order` the resolved ones. */
    static ghost predicate Walk(es: set<(string, string)>, root: string, path: seq<string>, order: seq<string>, visited: set<string>) {
      && visited == Elems(path) + Elems(order) && Elems(path) !! Elems(order)
      && Distinct(order) && Distinct(path)
      && (path != [] ==> Chain(es, path))
      && (forall m :: m in visited ==> Reaches(es, root, m))
      && (forall a, b :: a in order && (a, b) in es ==> b in visited)
      && (!CycleBehind(es, root) ==> Layered(es, order))
    }

    method ResolveRecursive(name: string, order0: seq<string>, visited0: set<string>,
                            ghost first: Loaded, ghost root: string, ghost path: seq<string>, ghost universe: set<string>)
      returns (order: seq<string>, visited: set<string>)
      requires Filled(first, loadedModules, visited0)
      requires Walk(Edges(first), root, path, order0, visited0)
      requires Reaches(Edges(first), root, name) && (path != [] ==> (path[|path| - 1], name) in Edges(first))
      requires name in universe && forall a, b :: (a, b) in Edges(first) ==> b in universe
      modifies this
      ensures Filled(first, loadedModules, visited)
      ensures Walk(Edges(first), root, path, order, visited)
      ensures visited0 <= visited && name in visited && order0 <= order
      ensures name !in visited0 ==> order != [] && order[|order| - 1] == name
      decreases universe - visited0
    {
      hide CycleBehind, Reaches, Layered, Edges, Walk, Filled, Chain;
      order, visited := order0, visited0;
      if name in visited {
        return;
      }
      Enter(Edges(first), root, path, name, order, visited);
      visited := visited + {name};
      ghost var before := loadedModules;
      var decl := Resolve(name);
      FilledMore(first, before, loadedModules, visited0, {name});
      ghost var inner := path + [name];
      var subs := SubNames(decl.items);
      assert forall s :: s in subs <==> (name, s) in Edges(first) by {
        FilledKeepsEdges(first, loadedModules, visited);
      }
      var i := 0;
      while i < |subs|
        invariant 0 <= i <= |subs|
        invariant Filled(first, loadedModules, visited)
        invariant Walk(Edges(first), root, inner, order, visited)
        invariant visited0 + {name} <= visited && order0 <= order
        invariant forall j :: 0 <= j < i ==> subs[j] in visited
      {
        Extend(Edges(first), root, name, subs[i]);
        order, visited := ResolveRecursive(subs[i], order, visited, first, root, inner, universe);
        i := i + 1;
      }
      Finish(Edges(first), root, path, name, order, visited);
      order := order + [name];
    }

    static lemma Enter(es: set<(string, string)>, root: string, path: seq<string>, name: string, order: seq<string>, visited: set<string>)
      requires Walk(es, root, path, order, visited) && name !in visited
      requires Reaches(es, root, name) && (path != [] ==> (path[|path| - 1], name) in es)
      ensures Walk(es, root, path + [name], order, visited + {name})
    {
      hide Reaches, Layered, CycleBehind;
      var inner := path + [name];
      assert Elems(inner) == Elems(path) + {name};
      assert Distinct(inner) by {
        assert forall x :: x in path ==> x in Elems(path);
      }
    }

    /** All sub-modules of `name` are visited: it can be listed, and without cycles they are all listed already. */
    static lemma Finish(es: set<(string, string)>, root: string, path: seq<string>, name: string, order: seq<string>, visited: set<string>)
      requires Walk(es, root, path + [name], order, visited)
      requires forall b :: (name, b) in es ==> b in visited
      ensures Walk(es, root, path, order + [name], visited)
    {
      hide Reaches, Layered, OnCycle;
      var inner, all := path + [name], order + [name];
      assert Elems(inner) == Elems(path) + {name} && Elems(all) == Elems(order) + {name};
      assert inner[|path|] == name && forall i :: 0 <= i < |path| ==> inner[i] == path[i];
      assert forall x :: x in path ==> x != name;
      assert path != [] ==> Chain(es, path);
      assert Distinct(all) by {
        assert forall x :: x in order ==> x in Elems(order);
      }
      if !CycleBehind(es, root) {
        forall b | (name, b) in es ensures b in order {
          if b in inner {
            ClosesLoop(es, inner, b);
          }
          assert b in visited && b !in Elems(inner);
        }
        LayeredSnoc(es, order, name);
      }
    }

    static lemma ClosesLoop(es: set<(string, string)>, path: seq<string>, b: string)
      requires Chain(es, path) && b in path && (path[|path| - 1], b) in es
      ensures OnCycle(es, b)
    {
      var i :| 0 <= i < |path| && path[i] == b;
      var loop := path[i..] + [b];
      assert Chain(es, loop) && |loop| >= 2 && loop[0] == loop[|loop| - 1];
    }
  }
}
