/** The two cycle detectors of the migration engine: `findCycle` of the execution plan builder
    (migration-execution-plan.ts) and `validateGraph` (operation-graph.ts). */
module CycleSearches {
  import opened DependencyGraphs
  import opened Options

  /** `finished` lists the nodes whose call returned, dependencies first; the others seen so far are
      the calls in progress, which form `path`. */
  ghost predicate Explored<T(!new)>(
    g: Graph<T>, visited: set<T>, recStack: set<T>, path: seq<T>, finished: seq<T>)
  {
    && DepsFirst(g, finished)
    && visited == Elements(finished) + recStack
    && recStack == Elements(path)
    && NoDuplicates(path)
  }

  lemma EnterCall<T(!new)>(
    g: Graph<T>, visited: set<T>, recStack: set<T>, path: seq<T>, finished: seq<T>, n: T)
    requires Explored(g, visited, recStack, path, finished) && n !in visited
    ensures Explored(g, visited + {n}, recStack + {n}, path + [n], finished)
  {
    assert n !in Elements(path);
  }

  lemma LeaveCall<T(!new)>(
    g: Graph<T>, visited: set<T>, recStack: set<T>, path: seq<T>, finished: seq<T>, n: T)
    requires Explored(g, visited, recStack, path, finished)
    requires path != [] && path[|path| - 1] == n
    requires Settled(g, n, Elements(finished))
    ensures Explored(g, visited, recStack - {n}, path[..|path| - 1], finished + [n])
    ensures Elements(finished + [n]) == Elements(finished) + {n}
  {
    var rest := path[..|path| - 1];
    assert path == rest + [n];
    assert n !in Elements(rest);
    ExtendOrder(g, finished, n);
  }

  lemma CallOnStack<T(!new)>(
    g: Graph<T>, visited: set<T>, recStack: set<T>, path: seq<T>, finished: seq<T>, n: T)
    requires Explored(g, visited, recStack, path, finished) && IsPath(g, path + [n])
    ensures n in recStack ==>
              n in path && IsCycle(g, path[IndexOf(path, n)..]) && NoDuplicates(path[IndexOf(path, n)..])
    ensures n !in recStack && n in visited ==> n in Elements(finished)
  {
    if n in recStack {
      StackClosesCycle(g, path, n);
    }
  }

  lemma DepsAreNodes<T(!new)>(g: Graph<T>, n: T)
    ensures Elements(Deps(g, n)) <= Nodes(g)
  {
  }

  lemma PrefixElements<T(!new)>(s: seq<T>, i: nat)
    requires i < |s|
    ensures Elements(s[..i + 1]) == Elements(s[..i]) + {s[i]}
  {
    assert s[..i + 1] == s[..i] + [s[i]];
  }

  /** The variables that the nested function `dfs` of `findCycle` shares with its caller. */
  class PlanSearch<T(==, !new)> {
    const dependencies: Graph<T>
    var visited: set<T>
    var recStack: set<T>
    var path: seq<T>
    ghost var finished: seq<T>

    constructor (dependencies: Graph<T>)
      ensures this.dependencies == dependencies
      ensures Valid() && visited == {} && path == [] && finished == []
    {
      this.dependencies := dependencies;
      visited, recStack, path, finished := {}, {}, [], [];
    }

    ghost predicate Valid()
      reads this
    {
      Explored(dependencies, visited, recStack, path, finished)
    }

    method Dfs(node: T) returns (cycle: Option<seq<T>>)
      requires Valid() && node in Nodes(dependencies) && IsPath(dependencies, path + [node])
      modifies this
      ensures cycle.None? ==> Valid() && path == old(path)
      ensures cycle.None? ==> Elements(old(finished)) + {node} <= Elements(finished)
      ensures cycle.None? ==> old(visited) <= visited
      ensures cycle.Some? ==> IsCycle(dependencies, cycle.value) && NoDuplicates(cycle.value)
      decreases Nodes(dependencies) - visited
    {
      hide Explored;
      CallOnStack(dependencies, visited, recStack, path, finished, node);
      if node in recStack {
        var cycleStart := IndexOf(path, node);
        return Some(path[cycleStart..]);
      }
      if node in visited {
        return None;
      }
      EnterCall(dependencies, visited, recStack, path, finished, node);
      visited := visited + {node};
      recStack := recStack + {node};
      path := path + [node];
      var deps := Deps(dependencies, node);
      DepsAreNodes(dependencies, node);
      for i := 0 to |deps|
        invariant Valid() && path == old(path) + [node]
        invariant old(visited) + {node} <= visited
        invariant Elements(old(finished)) + Elements(deps[..i]) <= Elements(finished)
      {
        PrefixElements(deps, i);
        ExtendPath(dependencies, path, deps[i]);
        assert deps[i] in Elements(deps);
        var inner := Dfs(deps[i]);
        if inner.Some? {
          return inner;
        }
      }
      assert deps[..|deps|] == deps;
      LeaveCall(dependencies, visited, recStack, path, finished, node);
      assert path[..|path| - 1] == old(path);
      path := path[..|path| - 1];
      recStack := recStack - {node};
      finished := finished + [node];
      return None;
    }
  }

  /** Returns null exactly when the graph has no cycle; whatever else it returns is a genuine cycle
      that repeats no node. `keys` is the iteration order of the map. */
  method FindCycle<T(==, !new)>(dependencies: Graph<T>, keys: seq<T>) returns (cycle: Option<seq<T>>)
    requires Elements(keys) == dependencies.Keys
    ensures cycle.None? <==> !Cyclic(dependencies)
    ensures cycle.Some? ==> IsCycle(dependencies, cycle.value) && NoDuplicates(cycle.value)
  {
    hide Explored;
    var search := new PlanSearch(dependencies);
    for i := 0 to |keys|
      invariant search.Valid() && search.path == []
      invariant Elements(keys[..i]) <= Elements(search.finished)
    {
      PrefixElements(keys, i);
      assert keys[i] in Elements(keys);
      var inner := search.Dfs(keys[i]);
      if inner.Some? {
        return inner;
      }
    }
    assert keys[..|keys|] == keys;
    FinishedGraph(dependencies, dependencies.Keys, search.visited, search.recStack, search.finished);
    AllKeysAreRoots(dependencies);
    return None;
  }

  /** The variables that the nested function `dfs` of `validateGraph` shares with its caller; `path` is
      the list each root passes down. */
  class GraphSearch<T(==, !new)> {
    const edges: Graph<T>
    var visited: set<T>
    var recursionStack: set<T>
    var cycles: seq<seq<T>>
    var path: seq<T>
    ghost var finished: seq<T>

    constructor (edges: Graph<T>)
      ensures this.edges == edges
      ensures Valid() && visited == {} && path == [] && finished == [] && cycles == []
    {
      this.edges := edges;
      visited, recursionStack, cycles, path, finished := {}, {}, [], [], [];
    }

    ghost predicate Valid()
      reads this
    {
      Explored(edges, visited, recursionStack, path, finished)
    }

    method Dfs(nodeId: T, ghost universe: set<T>) returns (ok: bool)
      requires Valid() && nodeId in universe && Nodes(edges) <= universe
      requires IsPath(edges, path + [nodeId])
      modifies this
      ensures ok ==> Valid() && path == old(path) && cycles == old(cycles)
      ensures ok ==> Elements(old(finished)) + {nodeId} <= Elements(finished)
      ensures ok ==> old(visited) <= visited
      ensures !ok ==> exists c :: cycles == old(cycles) + [c] && IsCycle(edges, c) && NoDuplicates(c) &&
                                  Reachable(edges, {old((path + [nodeId])[0])}, c[0])
      decreases universe - visited
    {
      hide Explored;
      CallOnStack(edges, visited, recursionStack, path, finished, nodeId);
      if nodeId in recursionStack {
        var cycleStart := IndexOf(path, nodeId);
        cycles := cycles + [path[cycleStart..]];
        assert IsPath(edges, path + [nodeId]);
        return false;
      }
      if nodeId in visited {
        return true;
      }
      EnterCall(edges, visited, recursionStack, path, finished, nodeId);
      visited := visited + {nodeId};
      recursionStack := recursionStack + {nodeId};
      path := path + [nodeId];
      var dependencies := Deps(edges, nodeId);
      DepsAreNodes(edges, nodeId);
      for i := 0 to |dependencies|
        invariant Valid() && path == old(path) + [nodeId] && cycles == old(cycles)
        invariant old(visited) + {nodeId} <= visited
        invariant Elements(old(finished)) + Elements(dependencies[..i]) <= Elements(finished)
      {
        PrefixElements(dependencies, i);
        ExtendPath(edges, path, dependencies[i]);
        assert dependencies[i] in Elements(dependencies);
        var inner := Dfs(dependencies[i], universe);
        if !inner {
          return false;
        }
      }
      assert dependencies[..|dependencies|] == dependencies;
      LeaveCall(edges, visited, recursionStack, path, finished, nodeId);
      assert path[..|path| - 1] == old(path);
      path := path[..|path| - 1];
      recursionStack := recursionStack - {nodeId};
      finished := finished + [nodeId];
      return true;
    }
  }

  /** Invalid exactly when some listed node can reach a cycle, and then the one reported list is such a
      cycle. `nodes` is the iteration order of the node map, which need not match the edge map. */
  method ValidateGraph<T(==, !new)>(nodes: seq<T>, edges: Graph<T>) returns (isValid: bool, cycles: seq<seq<T>>)
    ensures isValid <==> !ReachableCycle(edges, Elements(nodes))
    ensures isValid ==> cycles == []
    ensures !isValid ==> |cycles| == 1 && IsCycle(edges, cycles[0]) && NoDuplicates(cycles[0]) &&
                         Reachable(edges, Elements(nodes), cycles[0][0])
  {
    hide Explored;
    var search := new GraphSearch(edges);
    for i := 0 to |nodes|
      invariant search.Valid() && search.path == [] && search.cycles == []
      invariant Elements(nodes[..i]) <= Elements(search.finished)
    {
      PrefixElements(nodes, i);
      CallOnStack(edges, search.visited, search.recursionStack, search.path, search.finished, nodes[i]);
      if nodes[i] !in search.visited {
        assert nodes[i] in Elements(nodes);
        var inner := search.Dfs(nodes[i], Nodes(edges) + Elements(nodes));
        if !inner {
          MoreRoots(edges, nodes[i], Elements(nodes), search.cycles[0][0]);
          return false, search.cycles;
        }
      }
    }
    assert nodes[..|nodes|] == nodes;
    FinishedGraph(edges, Elements(nodes), search.visited, search.recursionStack, search.finished);
    return true, [];
  }

  lemma MoreRoots<T(!new)>(g: Graph<T>, root: T, roots: set<T>, n: T)
    requires Reachable(g, {root}, n) && root in roots
    ensures Reachable(g, roots, n)
  {
    var p: seq<T> :| IsPath(g, p) && p[0] in {root} && p[|p| - 1] == n;
    assert p[0] in roots;
  }

  /** When every root is finished no root reaches a cycle. */
  lemma FinishedGraph<T(!new)>(
    g: Graph<T>, roots: set<T>, visited: set<T>, recStack: set<T>, finished: seq<T>)
    requires Explored(g, visited, recStack, [], finished) && roots <= Elements(finished)
    ensures !ReachableCycle(g, roots)
  {
    forall c: seq<T> | IsCycle(g, c) ensures !Reachable(g, roots, c[0]) {
      FinishedRoots(g, roots, finished, c);
    }
  }

  lemma FinishedRoots<T(!new)>(g: Graph<T>, roots: set<T>, finished: seq<T>, c: seq<T>)
    requires DepsFirst(g, finished) && roots <= Elements(finished) && IsCycle(g, c)
    ensures !Reachable(g, roots, c[0])
  {
    OrderAvoidsCycles(g, finished, c);
    forall p: seq<T> | IsPath(g, p) && p[0] in roots ensures p[|p| - 1] != c[0] {
      PathDescends(g, finished, p, |p| - 1);
    }
  }

  /** Every cycle lies on keys of the map, so with all keys as roots nothing is missed. */
  lemma AllKeysAreRoots<T(!new)>(g: Graph<T>)
    ensures Cyclic(g) <==> ReachableCycle(g, g.Keys)
  {
    forall c: seq<T> | IsCycle(g, c) ensures Reachable(g, g.Keys, c[0]) {
      var next := if |c| > 1 then c[1] else c[0];
      assert next in Deps(g, c[0]);
      assert IsPath(g, [c[0]]);
    }
  }

  /** The three searches agree: on a graph whose node list holds every key of the edge map (as
      `buildOperationGraph` guarantees) `validateGraph` rejects exactly what `findCycle` reports, and when
      every node is listed exactly that makes the topological sort throw. */
  lemma SearchesAgree<T(!new)>(g: Graph<T>, nodes: seq<T>, ops: seq<T>)
    requires g.Keys <= Elements(nodes)
    requires forall n :: n in Nodes(g) ==> n in ops
    ensures ReachableCycle(g, Elements(nodes)) <==> Cyclic(g)
    ensures Cyclic(Induced(g, ops)) <==> Cyclic(g)
  {
    AllKeysAreRoots(g);
    InducedOnAllNodes(g, ops);
    forall n | Reachable(g, g.Keys, n) ensures Reachable(g, Elements(nodes), n) {
      var p: seq<T> :| IsPath(g, p) && p[0] in g.Keys && p[|p| - 1] == n;
      assert p[0] in Elements(nodes);
    }
  }
}
