/** The planner's depth-first topological sort (execution-planner.ts). */
module TopologicalSorting {
  import opened DependencyGraphs

  /** `Circular` stands for the "Circular dependency detected" error, with the node it names. */
  datatype SortResult<T> = Sorted(order: seq<T>) | Circular(at: T)

  datatype Visited<T> = Done | Thrown(at: T)

  /** What a successful sort of `ops` promises. */
  ghost predicate IsTopologicalOrder<T(!new)>(g: Graph<T>, ops: seq<T>, order: seq<T>) {
    && NoDuplicates(order)
    && Elements(order) == Elements(ops)
    && DepsFirst(Induced(g, ops), order)
  }

  /** The sort's invariant: `result` is a dependencies-first list of the finished nodes. */
  ghost predicate Consistent<T(!new)>(g: Graph<T>, visited: set<T>, visiting: set<T>, result: seq<T>) {
    && NoDuplicates(result)
    && Elements(result) == visited
    && visited !! visiting
    && DepsFirst(g, result)
  }

  lemma EnterNode<T(!new)>(g: Graph<T>, visited: set<T>, visiting: set<T>, result: seq<T>, n: T)
    requires Consistent(g, visited, visiting, result) && n !in visited
    ensures Consistent(g, visited, visiting + {n}, result)
  {
  }

  lemma LeaveNode<T(!new)>(g: Graph<T>, visited: set<T>, visiting: set<T>, result: seq<T>, n: T)
    requires Consistent(g, visited, visiting, result) && n in visiting
    requires Settled(g, n, visited)
    ensures Consistent(g, visited + {n}, visiting - {n}, result + [n])
  {
    assert n !in Elements(result);
    ExtendOrder(g, result, n);
  }

  lemma CallElements<T(!new)>(operations: seq<T>, stack: seq<T>, node: T)
    requires node in operations
    ensures node in Elements(operations) && Elements(stack + [node]) == Elements(stack) + {node}
    ensures node in Elements(stack) ==> node in stack
  {
  }

  lemma {:induction false} KeptElement<T(!new)>(deps: seq<T>, operations: seq<T>, i: nat)
    requires i < |deps| && deps[i] in operations
    ensures deps[i] in Elements(Keep(deps, operations))
  {
    if i > 0 {
      KeptElement(deps[1..], operations, i - 1);
    }
    assert deps[i] in Keep(deps, operations);
  }

  lemma NothingKept<T(!new)>(deps: seq<T>, operations: seq<T>)
    ensures Elements(Keep(deps[..0], operations)) == {}
  {
  }

  /** The variables that the nested function `visit` shares with its caller. */
  class Search<T(==, !new)> {
    const dependencies: Graph<T>
    const operations: seq<T>
    ghost const graph: Graph<T>
    var visited: set<T>
    var visiting: set<T>
    var result: seq<T>

    constructor (dependencies: Graph<T>, operations: seq<T>)
      ensures this.dependencies == dependencies && this.operations == operations
      ensures graph == Induced(dependencies, operations)
      ensures visited == {} && visiting == {} && result == [] && Valid()
    {
      this.dependencies := dependencies;
      this.operations := operations;
      graph := Induced(dependencies, operations);
      visited, visiting, result := {}, {}, [];
    }

    ghost predicate Valid()
      reads this
    {
      Consistent(graph, visited, visiting, result) && visited <= Elements(operations)
    }

    /** `stack` lists the calls in progress: a path of the graph whose nodes are those in `visiting`. */
    method Visit(node: T, ghost stack: seq<T>) returns (r: Visited<T>)
      requires graph == Induced(dependencies, operations)
      requires Valid() && node in operations
      requires Elements(stack) == visiting && IsPath(graph, stack + [node])
      modifies this
      ensures r.Done? ==> Valid() && visiting == old(visiting)
      ensures r.Done? ==> old(visited) + {node} <= visited
      ensures r.Done? && Settled(graph, node, old(visited)) && node !in old(visited) ==>
                result == old(result) + [node] && visited == old(visited) + {node}
      ensures r.Done? && node in old(visited) ==> result == old(result) && visited == old(visited)
      ensures r.Thrown? ==> OnCycle(graph, r.at)
      decreases Elements(operations) - visiting
    {
      hide Consistent, Induced, Keep, Elements, IsCycle;
      InducedDeps(dependencies, operations, node);
      CallElements(operations, stack, node);
      if node in visiting {
        StackClosesCycle(graph, stack, node);
        return Thrown(node);
      }
      if node in visited {
        return Done;
      }
      ghost var after := stack + [node];
      EnterNode(graph, visited, visiting, result, node);
      visiting := visiting + {node};
      var deps := Deps(dependencies, node);
      NothingKept(deps, operations);
      for i := 0 to |deps|
        invariant Valid() && visiting == old(visiting) + {node} && old(visited) <= visited
        invariant Elements(Keep(deps[..i], operations)) <= visited
        invariant Settled(graph, node, old(visited)) ==> result == old(result) && visited == old(visited)
      {
        KeepStep(deps, operations, i);
        if deps[i] in operations {
          CallElements(operations, after, deps[i]);
          KeptElement(deps, operations, i);
          ExtendPath(graph, after, deps[i]);
          var inner := Visit(deps[i], after);
          if inner.Thrown? {
            return inner;
          }
        }
      }
      assert deps[..|deps|] == deps;
      LeaveNode(graph, visited, visiting, result, node);
      visiting := visiting - {node};
      visited := visited + {node};
      result := result + [node];
      return Done;
    }
  }

  /** Throws exactly on a cycle of the listed operations, names a node of one, and otherwise returns
      each listed operation once, after every listed dependency of it; a list that is already in order
      is only freed of repetitions. */
  method TopologicalSort<T(==, !new)>(dependencies: Graph<T>, operations: seq<T>) returns (r: SortResult<T>)
    ensures r.Circular? <==> Cyclic(Induced(dependencies, operations))
    ensures r.Circular? ==> OnCycle(Induced(dependencies, operations), r.at)
    ensures r.Sorted? ==> IsTopologicalOrder(dependencies, operations, r.order)
    ensures DepsFirst(Induced(dependencies, operations), operations) ==> r == Sorted(FirstOccurrences(operations))
  {
    hide Consistent, Induced;
    var search := new Search(dependencies, operations);
    ghost var g := search.graph;
    for i := 0 to |operations|
      invariant search.Valid() && search.visiting == {}
      invariant Elements(operations[..i]) <= search.visited
      invariant DepsFirst(g, operations) ==> search.visited == Elements(operations[..i])
      invariant DepsFirst(g, operations) ==> search.result == FirstOccurrences(operations[..i])
    {
      NextInOrder(g, operations, i);
      if operations[i] !in search.visited {
        var visit := search.Visit(operations[i], []);
        if visit.Thrown? {
          InOrderMeansAcyclic(dependencies, operations, operations);
          return Circular(visit.at);
        }
      }
    }
    assert operations[..|operations|] == operations;
    ResultIsOrder(dependencies, operations, search.visited, search.result);
    return Sorted(search.result);
  }

  lemma NextInOrder<T(!new)>(g: Graph<T>, ops: seq<T>, i: nat)
    requires i < |ops|
    ensures Elements(ops[..i + 1]) == Elements(ops[..i]) + {ops[i]}
    ensures FirstOccurrences(ops[..i + 1]) ==
            FirstOccurrences(ops[..i]) + if ops[i] in ops[..i] then [] else [ops[i]]
    ensures DepsFirst(g, ops) ==> Settled(g, ops[i], Elements(ops[..i]))
  {
    assert ops[..i + 1][..i] == ops[..i];
    assert ops[..i + 1] == ops[..i] + [ops[i]];
  }

  /** An order that covers the listed operations and puts dependencies first leaves no cycle. */
  lemma InOrderMeansAcyclic<T(!new)>(g: Graph<T>, ops: seq<T>, order: seq<T>)
    requires Elements(ops) <= Elements(order)
    ensures DepsFirst(Induced(g, ops), order) ==> !Cyclic(Induced(g, ops))
  {
    var h := Induced(g, ops);
    if DepsFirst(h, order) {
      forall c: seq<T> ensures !IsCycle(h, c) {
        if IsCycle(h, c) {
          OrderAvoidsCycles(h, order, c);
          InducedDeps(g, ops, c[0]);
        }
      }
    }
  }

  lemma ResultIsOrder<T(!new)>(g: Graph<T>, ops: seq<T>, visited: set<T>, result: seq<T>)
    requires Consistent(Induced(g, ops), visited, {}, result) && visited == Elements(ops)
    ensures IsTopologicalOrder(g, ops, result) && !Cyclic(Induced(g, ops))
  {
    InOrderMeansAcyclic(g, ops, result);
  }
}
