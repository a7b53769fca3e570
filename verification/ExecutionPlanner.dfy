/** Plans made of phases: the plan builder and its validation (migration-execution-plan.ts) and the order
    in which the planner executes a plan (execution-planner.ts). A statement's identity is its text `T`. */
module ExecutionPlanner {
  import opened DependencyGraphs
  import opened Options
  import CycleSearches
  import TopologicalSorting

  datatype PhaseName = EXPAND | DATA | CONTRACT | FIX

  datatype Operation<T> = Operation(sql: T, dependencies: seq<T>)

  datatype Phase<T> = Phase(name: PhaseName, operations: seq<Operation<T>>, order: seq<T>)

  datatype Plan<T> = Plan(
    operations: seq<Operation<T>>,
    phases: seq<Phase<T>>,
    executionOrder: seq<T>,
    dependencies: Graph<T>)

  datatype Resolution<T> =
    | Resolved(phases: seq<PhaseName>, operations: seq<T>, dependencies: Graph<T>)
    | Circular(at: T)

  // --- specification of the dependency graph ---

  function ExplicitDependencies<T(==, !new)>(operations: seq<Operation<T>>): Graph<T> {
    if operations == [] then map[]
    else
      var last := operations[|operations| - 1];
      ExplicitDependencies(operations[..|operations| - 1])[last.sql := last.dependencies]
  }

  /** Every operation of a phase also depends on everything in the phase before it. */
  function LinkOperations<T(==, !new)>(g: Graph<T>, current: seq<Operation<T>>, previous: seq<T>): Graph<T> {
    if current == [] then g
    else
      var h := LinkOperations(g, current[..|current| - 1], previous);
      var sql := current[|current| - 1].sql;
      h[sql := Deps(h, sql) + previous]
  }

  function LinkPhases<T(==, !new)>(g: Graph<T>, phases: seq<Phase<T>>): Graph<T> {
    if |phases| <= 1 then g
    else
      var n := |phases| - 1;
      LinkOperations(LinkPhases(g, phases[..n]), phases[n].operations, phases[n - 1].order)
  }

  function Sqls<T>(operations: seq<Operation<T>>): (r: seq<T>)
    ensures |r| == |operations| && forall i :: 0 <= i < |r| ==> r[i] == operations[i].sql
  {
    if operations == [] then [] else [operations[0].sql] + Sqls(operations[1..])
  }

  function AllOperations<T>(phases: seq<Phase<T>>): seq<Operation<T>> {
    if phases == [] then [] else AllOperations(phases[..|phases| - 1]) + phases[|phases| - 1].operations
  }

  /** The phase orders one after another. */
  function Concatenation<T>(phases: seq<Phase<T>>): seq<T> {
    if phases == [] then [] else Concatenation(phases[..|phases| - 1]) + phases[|phases| - 1].order
  }

  // --- the loops of the source ---

  method SetExplicit<T(==, !new)>(operations: seq<Operation<T>>) returns (dependencies: Graph<T>)
    ensures dependencies == ExplicitDependencies(operations)
    ensures forall a, d :: d in Deps(dependencies, a) <==> LastListed(operations, a, d)
  {
    dependencies := map[];
    for i := 0 to |operations|
      invariant dependencies == ExplicitDependencies(operations[..i])
    {
      assert operations[..i + 1][..i] == operations[..i];
      dependencies := dependencies[operations[i].sql := operations[i].dependencies];
    }
    assert operations[..|operations|] == operations;
    forall a, d ensures d in Deps(dependencies, a) <==> LastListed(operations, a, d) {
      LastOneCounts(operations, a, d);
    }
  }

  method AddPhaseDependencies<T(==, !new)>(start: Graph<T>, phases: seq<Phase<T>>) returns (dependencies: Graph<T>)
    ensures dependencies == LinkPhases(start, phases)
    ensures forall a, d :: d in Deps(dependencies, a) <==> d in Deps(start, a) || PhaseBefore(phases, a, d)
  {
    dependencies := start;
    var i := 1;
    while i < |phases|
      invariant 1 <= i && (i <= |phases| || phases == [])
      invariant dependencies == LinkPhases(start, if i <= |phases| then phases[..i] else [])
    {
      var current, previous := phases[i].operations, phases[i - 1].order;
      ghost var before := dependencies;
      for k := 0 to |current|
        invariant dependencies == LinkOperations(before, current[..k], previous)
      {
        assert current[..k + 1][..k] == current[..k];
        var sql := current[k].sql;
        dependencies := dependencies[sql := Deps(dependencies, sql) + previous];
      }
      assert current[..|current|] == current;
      assert phases[..i + 1][..i] == phases[..i];
      i := i + 1;
    }
    assert phases != [] ==> phases[..|phases|] == phases;
    forall a, d ensures d in Deps(dependencies, a) <==> d in Deps(start, a) || PhaseBefore(phases, a, d) {
      LinksArePhaseBefore(start, phases, a, d);
    }
  }

  /** The plan builder: its graph takes the explicit dependencies from the phases' own operations. */
  method BuildFromPhases<T(==, !new)>(phases: seq<Phase<T>>, operations: seq<Operation<T>>) returns (plan: Plan<T>)
    ensures plan == BuiltPlan(phases, operations)
    ensures plan.operations == operations && plan.phases == phases
    ensures forall a, d :: d in Deps(plan.dependencies, a) <==>
              LastListed(AllOperations(phases), a, d) || PhaseBefore(phases, a, d)
  {
    var executionOrder: seq<T> := [];
    for i := 0 to |phases|
      invariant executionOrder == Concatenation(phases[..i])
    {
      assert phases[..i + 1][..i] == phases[..i];
      executionOrder := executionOrder + phases[i].order;
    }
    assert phases[..|phases|] == phases;
    var explicit := SetExplicit(AllOperations(phases));
    var dependencies := AddPhaseDependencies(explicit, phases);
    plan := Plan(operations, phases, executionOrder, dependencies);
  }

  function BuiltPlan<T(==, !new)>(phases: seq<Phase<T>>, operations: seq<Operation<T>>): Plan<T> {
    Plan(operations, phases, Concatenation(phases), LinkPhases(ExplicitDependencies(AllOperations(phases)), phases))
  }

  /** The graph the planner sorts: explicit dependencies come from the plan's operation list. */
  function PlannerGraph<T(==, !new)>(plan: Plan<T>): Graph<T> {
    LinkPhases(ExplicitDependencies(plan.operations), plan.phases)
  }

  /** Errors are the reported cycle and an execution order that is not the phase order; operations
      missing from the order are warnings only. `keys` is the iteration order of the dependency map. */
  method ValidatePlan<T(==, !new)>(plan: Plan<T>, keys: seq<T>)
    returns (isValid: bool, cycle: Option<seq<T>>, missing: seq<T>)
    requires Elements(keys) == plan.dependencies.Keys
    ensures isValid <==> !Cyclic(plan.dependencies) && plan.executionOrder == Concatenation(plan.phases)
    ensures cycle.Some? ==> IsCycle(plan.dependencies, cycle.value)
    ensures cycle.Some? <==> Cyclic(plan.dependencies)
    ensures missing == Without(FirstOccurrences(Sqls(plan.operations)), plan.executionOrder)
    ensures NoDuplicates(missing)
    ensures forall x :: x in missing <==> x in Sqls(plan.operations) && x !in plan.executionOrder
  {
    cycle := CycleSearches.FindCycle(plan.dependencies, keys);
    var built := BuildFromPhases(plan.phases, plan.operations);
    isValid := cycle.None? && plan.executionOrder == built.executionOrder;
    missing := [];
    var sqls := FirstOccurrences(Sqls(plan.operations));
    for i := 0 to |sqls|
      invariant missing == Without(sqls[..i], plan.executionOrder)
    {
      assert sqls[..i + 1][..i] == sqls[..i];
      if sqls[i] !in plan.executionOrder {
        missing := missing + [sqls[i]];
      }
    }
    assert sqls[..|sqls|] == sqls;
    WithoutListsTheRest(sqls, plan.executionOrder);
  }

  function Without<T(==)>(s: seq<T>, excluded: seq<T>): seq<T> {
    if s == [] then []
    else
      Without(s[..|s| - 1], excluded) + if s[|s| - 1] in excluded then [] else [s[|s| - 1]]
  }

  /** The names of the phases that have a statement in the order. */
  function PhasesPresent<T(==)>(phases: seq<Phase<T>>, order: seq<T>): seq<PhaseName> {
    if phases == [] then []
    else
      var last := phases[|phases| - 1];
      PhasesPresent(phases[..|phases| - 1], order) +
      if exists sql :: sql in order && sql in last.order then [last.name] else []
  }

  method GroupByPhases<T(==, !new)>(phases: seq<Phase<T>>, executionOrder: seq<T>) returns (phaseOrder: seq<PhaseName>)
    ensures phaseOrder == PhasesPresent(phases, executionOrder)
  {
    phaseOrder := [];
    for i := 0 to |phases|
      invariant phaseOrder == PhasesPresent(phases[..i], executionOrder)
    {
      assert phases[..i + 1][..i] == phases[..i];
      if exists sql :: sql in executionOrder && sql in phases[i].order {
        phaseOrder := phaseOrder + [phases[i].name];
      }
    }
    assert phases[..|phases|] == phases;
  }

  /** Refuses exactly the plans whose listed statements depend on each other in a cycle; otherwise each
      listed statement comes once, after whatever it depends on, explicitly or through its phase. */
  method ResolveExecutionOrder<T(==, !new)>(plan: Plan<T>) returns (r: Resolution<T>)
    ensures r.Circular? <==> exists c :: DependencyCycle(plan, c)
    ensures r.Circular? ==> exists c :: DependencyCycle(plan, c) && c[0] == r.at
    ensures r.Resolved? ==> InPlanOrder(plan, r.operations)
    ensures r.Resolved? ==> forall a, d :: d in Deps(r.dependencies, a) <==> DependsOn(plan, a, d)
    ensures r.Circular? <==> Cyclic(Induced(PlannerGraph(plan), plan.executionOrder))
    ensures r.Circular? ==> OnCycle(Induced(PlannerGraph(plan), plan.executionOrder), r.at)
    ensures r.Resolved? ==>
              && TopologicalSorting.IsTopologicalOrder(PlannerGraph(plan), plan.executionOrder, r.operations)
              && r.dependencies == PlannerGraph(plan)
              && r.phases == PhasesPresent(plan.phases, r.operations)
    ensures DepsFirst(Induced(PlannerGraph(plan), plan.executionOrder), plan.executionOrder) ==>
              r.Resolved? && r.operations == FirstOccurrences(plan.executionOrder)
  {
    var explicit := SetExplicit(plan.operations);
    var dependencies := AddPhaseDependencies(explicit, plan.phases);
    var sorted := TopologicalSorting.TopologicalSort(dependencies, plan.executionOrder);
    ResolutionInPlanTerms(plan, sorted);
    if sorted.Circular? {
      return Circular(sorted.at);
    }
    var phases := GroupByPhases(plan.phases, sorted.order);
    return Resolved(phases, sorted.order, dependencies);
  }

  // --- what the dependency graph contains, statement by statement ---

  /** The last operation with the statement `a` lists `d`. */
  ghost predicate LastListed<T(!new)>(operations: seq<Operation<T>>, a: T, d: T) {
    exists i :: 0 <= i < |operations| && IsLast(operations, i, a) && d in operations[i].dependencies
  }

  ghost predicate IsLast<T(!new)>(operations: seq<Operation<T>>, i: nat, a: T)
    requires i < |operations|
  {
    operations[i].sql == a && forall j :: i < j < |operations| ==> operations[j].sql != a
  }

  /** `a` is an operation of a phase and `d` is in the order of the phase right before it. */
  ghost predicate PhaseBefore<T(!new)>(phases: seq<Phase<T>>, a: T, d: T) {
    exists i :: 0 < i < |phases| && a in Sqls(phases[i].operations) && d in phases[i - 1].order
  }

  ghost predicate DependsOn<T(!new)>(plan: Plan<T>, a: T, d: T) {
    LastListed(plan.operations, a, d) || PhaseBefore(plan.phases, a, d)
  }

  /** Listed statements each of which depends on the next, and the last on the first. */
  ghost predicate DependencyCycle<T(!new)>(plan: Plan<T>, c: seq<T>) {
    && c != []
    && (forall i :: 0 <= i < |c| ==> c[i] in plan.executionOrder)
    && (forall i :: 0 <= i < |c| - 1 ==> DependsOn(plan, c[i], c[i + 1]))
    && DependsOn(plan, c[|c| - 1], c[0])
  }

  /** The later of two operations with the same statement replaces the dependencies of the earlier. */
  lemma {:induction false} LastOneCounts<T(!new)>(operations: seq<Operation<T>>, a: T, d: T)
    ensures d in Deps(ExplicitDependencies(operations), a) <==> LastListed(operations, a, d)
  {
    if operations != [] {
      LastOneCounts(operations[..|operations| - 1], a, d);
      LastOperationDecides(operations, a, d);
      hide LastListed;
    }
  }

  lemma LastOperationDecides<T(!new)>(operations: seq<Operation<T>>, a: T, d: T)
    requires operations != []
    ensures var n := |operations| - 1;
            LastListed(operations, a, d) <==>
            if operations[n].sql == a then d in operations[n].dependencies else LastListed(operations[..n], a, d)
  {
    var n := |operations| - 1;
    var init := operations[..n];
    if operations[n].sql == a {
      assert IsLast(operations, n, a);
    } else {
      forall i | 0 <= i < n ensures IsLast(operations, i, a) <==> IsLast(init, i, a) {
        assert forall j :: i < j < n ==> operations[j] == init[j];
      }
      assert forall i :: 0 <= i < n ==> operations[i] == init[i];
      hide IsLast;
    }
  }

  lemma {:induction false} LinksArePhaseBefore<T(!new)>(g: Graph<T>, phases: seq<Phase<T>>, a: T, d: T)
    ensures d in Deps(LinkPhases(g, phases), a) <==> d in Deps(g, a) || PhaseBefore(phases, a, d)
  {
    if |phases| > 1 {
      var n := |phases| - 1;
      LinksArePhaseBefore(g, phases[..n], a, d);
      LinkedDeps(LinkPhases(g, phases[..n]), phases[n].operations, phases[n - 1].order, a, d);
      LastPhaseBefore(phases, a, d);
    }
  }

  lemma LastPhaseBefore<T(!new)>(phases: seq<Phase<T>>, a: T, d: T)
    requires |phases| > 1
    ensures PhaseBefore(phases, a, d) <==>
            || PhaseBefore(phases[..|phases| - 1], a, d)
            || (a in Sqls(phases[|phases| - 1].operations) && d in phases[|phases| - 2].order)
  {
    var n := |phases| - 1;
    var init := phases[..n];
    hide Sqls;
    if PhaseBefore(init, a, d) {
      var i :| 0 < i < n && a in Sqls(init[i].operations) && d in init[i - 1].order;
      assert a in Sqls(phases[i].operations) && d in phases[i - 1].order;
    }
    if PhaseBefore(phases, a, d) {
      var i :| 0 < i < |phases| && a in Sqls(phases[i].operations) && d in phases[i - 1].order;
      assert i < n ==> a in Sqls(init[i].operations) && d in init[i - 1].order;
    }
  }

  /** The graph that is sorted has exactly the dependencies between listed statements. */
  lemma PlannerEdges<T(!new)>(plan: Plan<T>, a: T, d: T)
    ensures d in Deps(PlannerGraph(plan), a) <==> DependsOn(plan, a, d)
    ensures d in Deps(Induced(PlannerGraph(plan), plan.executionOrder), a) <==>
            a in plan.executionOrder && d in plan.executionOrder && DependsOn(plan, a, d)
  {
    InducedDeps(PlannerGraph(plan), plan.executionOrder, a);
    LinksArePhaseBefore(ExplicitDependencies(plan.operations), plan.phases, a, d);
    LastOneCounts(plan.operations, a, d);
  }

  lemma DependencyCycles<T(!new)>(plan: Plan<T>, c: seq<T>)
    ensures IsCycle(Induced(PlannerGraph(plan), plan.executionOrder), c) <==> DependencyCycle(plan, c)
  {
    hide Induced, PlannerGraph, DependsOn, Deps;
    var g := Induced(PlannerGraph(plan), plan.executionOrder);
    forall a, d ensures d in Deps(g, a) <==>
                        a in plan.executionOrder && d in plan.executionOrder && DependsOn(plan, a, d)
    {
      PlannerEdges(plan, a, d);
    }
    if IsCycle(g, c) {
      forall i | 0 <= i < |c| ensures c[i] in plan.executionOrder {
        PlannerEdges(plan, c[i], c[if i < |c| - 1 then i + 1 else 0]);
      }
    }
  }

  /** A topological order of the graph, said of the plan: nothing stands before what it depends on. */
  lemma OrderRespectsPlan<T(!new)>(plan: Plan<T>, order: seq<T>)
    ensures TopologicalSorting.IsTopologicalOrder(PlannerGraph(plan), plan.executionOrder, order) <==>
            InPlanOrder(plan, order)
  {
    hide Induced, PlannerGraph, DependsOn, Deps;
    var g := Induced(PlannerGraph(plan), plan.executionOrder);
    forall a, d ensures d in Deps(g, a) <==>
                        a in plan.executionOrder && d in plan.executionOrder && DependsOn(plan, a, d)
    {
      PlannerEdges(plan, a, d);
    }
    assert forall x :: x in order <==> x in Elements(order);
    assert forall x :: x in plan.executionOrder <==> x in Elements(plan.executionOrder);
    if Elements(order) == Elements(plan.executionOrder) && DepsFirst(g, order) {
      forall i, d | 0 <= i < |order| && d in plan.executionOrder && DependsOn(plan, order[i], d)
        ensures d in order[..i]
      {
        assert Settled(g, order[i], Elements(order[..i])) && d in Elements(Deps(g, order[i]));
      }
    }
    if InPlanOrder(plan, order) {
      forall i, d | 0 <= i < |order| && d in Deps(g, order[i]) ensures d in order[..i] {
        assert DependsOn(plan, order[i], d);
      }
      assert Elements(order) == Elements(plan.executionOrder);
    }
  }

  lemma ResolutionInPlanTerms<T(!new)>(plan: Plan<T>, r: TopologicalSorting.SortResult<T>)
    ensures Cyclic(Induced(PlannerGraph(plan), plan.executionOrder)) <==> exists c :: DependencyCycle(plan, c)
    ensures r.Circular? && OnCycle(Induced(PlannerGraph(plan), plan.executionOrder), r.at) ==>
              exists c :: DependencyCycle(plan, c) && c[0] == r.at
    ensures r.Sorted? ==>
              (TopologicalSorting.IsTopologicalOrder(PlannerGraph(plan), plan.executionOrder, r.order) <==>
               InPlanOrder(plan, r.order))
    ensures forall a, d :: d in Deps(PlannerGraph(plan), a) <==> DependsOn(plan, a, d)
  {
    hide Induced, PlannerGraph, DependsOn, Deps, IsCycle;
    forall c ensures IsCycle(Induced(PlannerGraph(plan), plan.executionOrder), c) <==> DependencyCycle(plan, c) {
      DependencyCycles(plan, c);
    }
    if r.Sorted? {
      OrderRespectsPlan(plan, r.order);
    }
    forall a, d ensures d in Deps(PlannerGraph(plan), a) <==> DependsOn(plan, a, d) {
      PlannerEdges(plan, a, d);
    }
  }

  /** Each listed statement once, and after every listed statement it depends on. */
  ghost predicate InPlanOrder<T(!new)>(plan: Plan<T>, order: seq<T>) {
    && (forall i, j :: 0 <= i < j < |order| ==> order[i] != order[j])
    && (forall x :: x in order <==> x in plan.executionOrder)
    && (forall i, d :: 0 <= i < |order| && d in plan.executionOrder && DependsOn(plan, order[i], d) ==>
          d in order[..i])
  }

  lemma {:induction false} WithoutListsTheRest<T(!new)>(s: seq<T>, excluded: seq<T>)
    ensures forall x :: x in Without(s, excluded) <==> x in s && x !in excluded
    ensures NoDuplicates(s) ==> NoDuplicates(Without(s, excluded))
  {
    if s != [] {
      var n := |s| - 1;
      WithoutListsTheRest(s[..n], excluded);
      assert s == s[..n] + [s[n]];
      assert NoDuplicates(s) ==> NoDuplicates(s[..n]) && s[n] !in s[..n];
    }
  }

  lemma {:induction false} PhasesPresentAppend<T(!new)>(a: seq<Phase<T>>, b: seq<Phase<T>>, order: seq<T>)
    ensures PhasesPresent(a + b, order) == PhasesPresent(a, order) + PhasesPresent(b, order)
    ensures |b| == 1 ==> PhasesPresent(b, order) ==
                         if exists sql :: sql in order && sql in b[0].order then [b[0].name] else []
  {
    if b == [] {
      assert a + b == a;
    } else {
      PhasesPresentAppend(a, b[..|b| - 1], order);
      assert (a + b)[..|a + b| - 1] == a + b[..|b| - 1];
    }
  }

  // --- plans whose only dependencies are those between phases ---

  /** What `split` produces: no empty phase, and each order lists the phase's own statements. */
  predicate WellFormedPhases<T(==)>(phases: seq<Phase<T>>) {
    forall i :: 0 <= i < |phases| ==> phases[i].order != [] && phases[i].order == Sqls(phases[i].operations)
  }

  predicate NoExplicitDependencies<T(==)>(operations: seq<Operation<T>>) {
    forall i :: 0 <= i < |operations| ==> operations[i].dependencies == []
  }

  ghost predicate SharedStatement<T(!new)>(phases: seq<Phase<T>>) {
    exists i, j, x :: 0 <= i < j < |phases| && x in phases[i].order && x in phases[j].order
  }

  ghost predicate PhaseEdge<T(!new)>(phases: seq<Phase<T>>, a: T, b: T) {
    exists i :: 1 <= i < |phases| && a in phases[i].order && b in phases[i - 1].order
  }

  lemma {:induction false} ExplicitEmpty<T(!new)>(operations: seq<Operation<T>>, n: T)
    requires NoExplicitDependencies(operations)
    ensures Deps(ExplicitDependencies(operations), n) == []
  {
    if operations != [] {
      ExplicitEmpty(operations[..|operations| - 1], n);
    }
  }

  lemma {:induction false} LinkedDeps<T(!new)>(
    g: Graph<T>, current: seq<Operation<T>>, previous: seq<T>, n: T, d: T)
    ensures d in Deps(LinkOperations(g, current, previous), n) <==>
            d in Deps(g, n) || (n in Sqls(current) && d in previous)
  {
    if current != [] {
      var init, last := current[..|current| - 1], current[|current| - 1];
      var h := LinkOperations(g, init, previous);
      LinkedDeps(g, init, previous, n, d);
      SqlsSnoc(init, last);
      assert current == init + [last];
      assert LinkOperations(g, current, previous) == h[last.sql := Deps(h, last.sql) + previous];
      hide LinkOperations, Sqls;
    }
  }

  lemma SqlsSnoc<T>(init: seq<Operation<T>>, last: Operation<T>)
    ensures Sqls(init + [last]) == Sqls(init) + [last.sql]
  {
    assert Sqls(init + [last]) == Sqls(init) + [last.sql];
  }

  /** The edges of a linked graph: the ones it started with and those from a phase to the one before. */
  lemma {:induction false} PhaseEdges<T(!new)>(g: Graph<T>, phases: seq<Phase<T>>, a: T, b: T)
    requires WellFormedPhases(phases)
    ensures b in Deps(LinkPhases(g, phases), a) <==> b in Deps(g, a) || PhaseEdge(phases, a, b)
  {
    if |phases| > 1 {
      var n := |phases| - 1;
      var init := phases[..n];
      PhaseEdges(g, init, a, b);
      LinkedDeps(LinkPhases(g, init), phases[n].operations, phases[n - 1].order, a, b);
      LastPhaseEdge(phases, a, b);
    }
  }

  lemma LastPhaseEdge<T(!new)>(phases: seq<Phase<T>>, a: T, b: T)
    requires |phases| > 1
    ensures PhaseEdge(phases, a, b) <==>
            || PhaseEdge(phases[..|phases| - 1], a, b)
            || (a in phases[|phases| - 1].order && b in phases[|phases| - 2].order)
  {
    var n := |phases| - 1;
    var init := phases[..n];
    if PhaseEdge(init, a, b) {
      var i :| 1 <= i < |init| && a in init[i].order && b in init[i - 1].order;
      assert a in phases[i].order && b in phases[i - 1].order;
    }
    if PhaseEdge(phases, a, b) {
      var i :| 1 <= i < |phases| && a in phases[i].order && b in phases[i - 1].order;
      assert i < n ==> a in init[i].order && b in init[i - 1].order;
    }
  }

  /** The plan that comes out of the builder when nothing depends on anything explicitly. */
  ghost predicate PhasedPlan<T(!new)>(plan: Plan<T>) {
    && WellFormedPhases(plan.phases)
    && plan.executionOrder == Concatenation(plan.phases)
    && NoExplicitDependencies(plan.operations)
  }

  lemma {:induction false} ConcatenationElements<T(!new)>(phases: seq<Phase<T>>, x: T)
    ensures x in Concatenation(phases) <==> exists i :: 0 <= i < |phases| && x in phases[i].order
  {
    if phases != [] {
      var init := phases[..|phases| - 1];
      ConcatenationElements(init, x);
      if i :| 0 <= i < |init| && x in init[i].order {
        assert x in phases[i].order;
      }
      if i :| 0 <= i < |phases| && x in phases[i].order {
        assert i < |init| ==> x in init[i].order;
      }
    }
  }

  /** The sorted graph of a phased plan has exactly the edges between neighbouring phases. */
  lemma PhasedEdges<T(!new)>(plan: Plan<T>, a: T, b: T)
    requires PhasedPlan(plan)
    ensures b in Deps(Induced(PlannerGraph(plan), plan.executionOrder), a) <==> PhaseEdge(plan.phases, a, b)
  {
    var g := PlannerGraph(plan);
    InducedDeps(g, plan.executionOrder, a);
    PhaseEdges(ExplicitDependencies(plan.operations), plan.phases, a, b);
    ExplicitEmpty(plan.operations, a);
    ConcatenationElements(plan.phases, a);
    ConcatenationElements(plan.phases, b);
  }

  /** A statement in phases `i` and `j` depends on itself through one statement of each phase between. */
  lemma SharedStatementCycle<T(!new)>(g: Graph<T>, phases: seq<Phase<T>>, i: nat, j: nat, x: T)
    requires WellFormedPhases(phases)
    requires forall a, b :: PhaseEdge(phases, a, b) ==> b in Deps(g, a)
    requires i < j < |phases| && x in phases[i].order && x in phases[j].order
    ensures Cyclic(g)
  {
    var c := Descent(phases, i, j, x);
    DescentIsPath(g, phases, i, j, x);
    NeighbourEdge(phases, i + 1, c[|c| - 1], x);
    assert IsCycle(g, c);
  }

  ghost function Descent<T>(phases: seq<Phase<T>>, i: nat, j: nat, x: T): seq<T>
    requires i < j < |phases| && forall k :: 0 <= k < |phases| ==> phases[k].order != []
  {
    if j == i + 1 then [x] else [x] + Descent(phases, i, j - 1, phases[j - 1].order[0])
  }

  lemma {:induction false} DescentIsPath<T(!new)>(g: Graph<T>, phases: seq<Phase<T>>, i: nat, j: nat, x: T)
    requires WellFormedPhases(phases) && i < j < |phases| && x in phases[j].order
    requires forall a, b :: PhaseEdge(phases, a, b) ==> b in Deps(g, a)
    ensures var c := Descent(phases, i, j, x); IsPath(g, c) && c[0] == x && c[|c| - 1] in phases[i + 1].order
  {
    hide IsPath, PhaseEdge;
    if j == i + 1 {
      SingletonPath(g, x);
    } else {
      var next := phases[j - 1].order[0];
      DescentIsPath(g, phases, i, j - 1, next);
      NeighbourEdge(phases, j, x, next);
      ConsPath(g, x, Descent(phases, i, j - 1, next));
    }
  }

  lemma SingletonPath<T(!new)>(g: Graph<T>, x: T)
    ensures IsPath(g, [x])
  {
  }

  lemma ConsPath<T(!new)>(g: Graph<T>, x: T, p: seq<T>)
    requires IsPath(g, p) && p[0] in Deps(g, x)
    ensures IsPath(g, [x] + p)
  {
  }

  lemma NeighbourEdge<T(!new)>(phases: seq<Phase<T>>, i: nat, a: T, b: T)
    requires 1 <= i < |phases| && a in phases[i].order && b in phases[i - 1].order
    ensures PhaseEdge(phases, a, b)
  {
  }

  /** Without a shared statement, an edge from a phase leads into the phases before it. */
  lemma EdgeLeadsBack<T(!new)>(phases: seq<Phase<T>>, n: nat, x: T, d: T)
    requires !SharedStatement(phases) && n < |phases| && x in phases[n].order && PhaseEdge(phases, x, d)
    ensures d in Concatenation(phases[..n])
  {
    var i :| 1 <= i < |phases| && x in phases[i].order && d in phases[i - 1].order;
    assert i == n;
    assert d in phases[..n][n - 1].order;
    ConcatenationElements(phases[..n], d);
  }

  /** Without a shared statement the concatenation already puts every dependency first. */
  lemma {:induction false} ConcatenationInOrder<T(!new)>(g: Graph<T>, phases: seq<Phase<T>>, n: nat)
    requires WellFormedPhases(phases) && !SharedStatement(phases) && n <= |phases|
    requires forall a, b :: b in Deps(g, a) ==> PhaseEdge(phases, a, b)
    ensures DepsFirst(g, Concatenation(phases[..n]))
  {
    if n > 0 {
      ConcatenationInOrder(g, phases, n - 1);
      var before, last := Concatenation(phases[..n - 1]), phases[n - 1].order;
      assert phases[..n][..n - 1] == phases[..n - 1];
      forall x, d | x in last && d in Deps(g, x) ensures d in before {
        EdgeLeadsBack(phases, n - 1, x, d);
      }
      AppendInOrder(g, before, last);
    }
  }

  lemma AppendInOrder<T(!new)>(g: Graph<T>, before: seq<T>, last: seq<T>)
    requires DepsFirst(g, before)
    requires forall x, d :: x in last && d in Deps(g, x) ==> d in before
    ensures DepsFirst(g, before + last)
  {
    hide Deps;
    var all := before + last;
    forall p | 0 <= p < |all| ensures Settled(g, all[p], Elements(all[..p])) {
      if p < |before| {
        assert all[..p] == before[..p];
      } else {
        assert all[p] in last && all[..p] == before + last[..p - |before|];
        assert forall d :: d in before ==> d in all[..p];
      }
    }
  }

  /** The planner refuses a phased plan exactly when some statement occurs in two phases; otherwise it
      executes the phases one after another, dropping repetitions. */
  lemma PhasedPlanResolution<T(!new)>(plan: Plan<T>)
    requires PhasedPlan(plan)
    ensures var g := Induced(PlannerGraph(plan), plan.executionOrder);
            && (Cyclic(g) <==> SharedStatement(plan.phases))
            && (!SharedStatement(plan.phases) ==> DepsFirst(g, plan.executionOrder))
  {
    var g := Induced(PlannerGraph(plan), plan.executionOrder);
    forall a, b ensures b in Deps(g, a) <==> PhaseEdge(plan.phases, a, b) {
      PhasedEdges(plan, a, b);
    }
    if i, j, x :| 0 <= i < j < |plan.phases| && x in plan.phases[i].order && x in plan.phases[j].order {
      SharedStatementCycle(g, plan.phases, i, j, x);
    } else {
      ConcatenationInOrder(g, plan.phases, |plan.phases|);
      assert plan.phases[..|plan.phases|] == plan.phases;
      TopologicalSorting.InOrderMeansAcyclic(PlannerGraph(plan), plan.executionOrder, plan.executionOrder);
    }
  }

  /** A plan built from phases is valid for `validatePlan` exactly when the planner can order it. */
  lemma ValidPlansAreTheOrderableOnes<T(!new)>(phases: seq<Phase<T>>, operations: seq<Operation<T>>)
    requires WellFormedPhases(phases)
    requires NoExplicitDependencies(operations) && NoExplicitDependencies(AllOperations(phases))
    ensures var plan := BuiltPlan(phases, operations);
            && plan.executionOrder == Concatenation(plan.phases)
            && (Cyclic(plan.dependencies) <==> SharedStatement(phases))
            && (Cyclic(plan.dependencies) <==> Cyclic(Induced(PlannerGraph(plan), plan.executionOrder)))
  {
    var plan := BuiltPlan(phases, operations);
    PhasedPlanResolution(plan);
    var g, h := plan.dependencies, Induced(PlannerGraph(plan), plan.executionOrder);
    forall a, b ensures b in Deps(g, a) <==> b in Deps(h, a) {
      PhasedEdges(plan, a, b);
      PhaseEdges(ExplicitDependencies(AllOperations(phases)), phases, a, b);
      ExplicitEmpty(AllOperations(phases), a);
    }
    SameEdgesSameCycles(g, h);
  }

  /** Whatever is executed of an earlier phase comes before whatever is executed of a later one, although
      only neighbouring phases are linked. */
  lemma PhasesStaySeparate<T(!new)>(phases: seq<Phase<T>>, i: nat, j: nat, x: T, y: T)
    requires i < j < |phases| && x in phases[i].order && y in phases[j].order
    requires !SharedStatement(phases)
    ensures var order := FirstOccurrences(Concatenation(phases));
            x in order && y in order && IndexOf(order, x) < IndexOf(order, y)
  {
    hide FirstOccurrences, Concatenation, IndexOf;
    var early, all := Concatenation(phases[..j]), Concatenation(phases);
    SeparatedElements(phases, i, j, x, y);
    ConcatenationPrefix(phases, j);
    assert all == early + all[|early|..];
    FirstOccurrencesPrefix(early, all[|early|..]);
    PrefixComesFirst(FirstOccurrences(early), FirstOccurrences(all), x, y);
  }

  /** What an earlier phase has stands before the later phase, and what the later one has does not. */
  lemma SeparatedElements<T(!new)>(phases: seq<Phase<T>>, i: nat, j: nat, x: T, y: T)
    requires i < j < |phases| && x in phases[i].order && y in phases[j].order
    requires !SharedStatement(phases)
    ensures x in FirstOccurrences(Concatenation(phases[..j])) && y !in FirstOccurrences(Concatenation(phases[..j]))
    ensures y in FirstOccurrences(Concatenation(phases))
  {
    var before := phases[..j];
    assert x in before[i].order;
    ConcatenationElements(phases, y);
    ConcatenationElements(before, x);
    ConcatenationElements(before, y);
    hide Concatenation, FirstOccurrences;
    FirstOccurrencesElements(Concatenation(before), x);
    FirstOccurrencesElements(Concatenation(before), y);
    FirstOccurrencesElements(Concatenation(phases), y);
  }

  lemma {:induction false} FirstOccurrencesElements<T(!new)>(s: seq<T>, x: T)
    ensures x in FirstOccurrences(s) <==> x in s
  {
    if s != [] {
      FirstOccurrencesElements(s[..|s| - 1], x);
    }
  }

  lemma PrefixComesFirst<T(!new)>(early: seq<T>, order: seq<T>, x: T, y: T)
    requires early <= order && x in early && y in order && y !in early
    ensures x in order && IndexOf(order, x) < IndexOf(order, y)
  {
    var i := IndexOf(early, x);
    assert order[i] == x;
  }

  lemma {:induction false} ConcatenationPrefix<T(!new)>(phases: seq<Phase<T>>, n: nat)
    requires n <= |phases|
    ensures Concatenation(phases[..n]) <= Concatenation(phases)
    decreases |phases|
  {
    if n == |phases| {
      assert phases[..n] == phases;
    } else {
      var init := phases[..|phases| - 1];
      assert init[..n] == phases[..n];
      ConcatenationPrefix(init, n);
    }
  }

  lemma {:induction false} FirstOccurrencesPrefix<T(!new)>(a: seq<T>, b: seq<T>)
    ensures FirstOccurrences(a) <= FirstOccurrences(a + b)
  {
    if b == [] {
      assert a + b == a;
    } else {
      FirstOccurrencesPrefix(a, b[..|b| - 1]);
      assert (a + b)[..|a + b| - 1] == a + b[..|b| - 1];
    }
  }

  lemma SameEdgesSameCycles<T(!new)>(g: Graph<T>, h: Graph<T>)
    requires forall a, b :: b in Deps(g, a) <==> b in Deps(h, a)
    ensures Cyclic(g) <==> Cyclic(h)
  {
    forall c: seq<T> ensures IsCycle(g, c) <==> IsCycle(h, c) {
    }
  }
}
