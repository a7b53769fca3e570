/** Directed dependency graphs as the migration planner stores them: a map from a node to the list of
    nodes it depends on. A node that is not a key has no dependencies. */
module DependencyGraphs {

  type Graph<T> = map<T, seq<T>>

  function Deps<T(==, !new)>(g: Graph<T>, n: T): seq<T> {
    if n in g then g[n] else []
  }

  function Nodes<T(==, !new)>(g: Graph<T>): set<T> {
    g.Keys + set k, d | k in g && d in g[k] :: d
  }

  predicate IsPath<T(==, !new)>(g: Graph<T>, p: seq<T>) {
    p != [] && forall i :: 0 <= i < |p| - 1 ==> p[i + 1] in Deps(g, p[i])
  }

  /** A closed path: every node depends on the next one and the last depends on the first. */
  predicate IsCycle<T(==, !new)>(g: Graph<T>, c: seq<T>) {
    IsPath(g, c) && c[0] in Deps(g, c[|c| - 1])
  }

  ghost predicate Cyclic<T(!new)>(g: Graph<T>) {
    exists c: seq<T> :: IsCycle(g, c)
  }

  ghost predicate OnCycle<T(!new)>(g: Graph<T>, n: T) {
    exists c: seq<T> :: IsCycle(g, c) && c[0] == n
  }

  ghost predicate Reachable<T(!new)>(g: Graph<T>, roots: set<T>, n: T) {
    exists p: seq<T> :: IsPath(g, p) && p[0] in roots && p[|p| - 1] == n
  }

  ghost predicate ReachableCycle<T(!new)>(g: Graph<T>, roots: set<T>) {
    exists c: seq<T> :: IsCycle(g, c) && Reachable(g, roots, c[0])
  }

  /** Every dependency of an element stands strictly before it. */
  predicate DepsFirst<T(==, !new)>(g: Graph<T>, order: seq<T>) {
    forall i :: 0 <= i < |order| ==> Settled(g, order[i], Elements(order[..i]))
  }

  /** All dependencies of `n` are among `done`. */
  predicate Settled<T(==, !new)>(g: Graph<T>, n: T, done: set<T>) {
    Elements(Deps(g, n)) <= done
  }

  predicate NoDuplicates<T(==, !new)>(s: seq<T>) {
    forall i, j :: 0 <= i < j < |s| ==> s[i] != s[j]
  }

  function Elements<T(==, !new)>(s: seq<T>): set<T> {
    set x | x in s
  }

  function Keep<T(==, !new)>(s: seq<T>, among: seq<T>): (r: seq<T>)
    ensures forall x :: x in r <==> x in s && x in among
  {
    if s == [] then []
    else (if s[0] in among then [s[0]] else []) + Keep(s[1..], among)
  }

  lemma KeepStep<T(!new)>(s: seq<T>, among: seq<T>, i: nat)
    requires i < |s|
    ensures Elements(Keep(s[..i + 1], among)) ==
            Elements(Keep(s[..i], among)) + if s[i] in among then {s[i]} else {}
  {
    assert s[..i + 1] == s[..i] + [s[i]];
  }

  /** The part of the graph that a sort of `ops` looks at: both ends of an edge are listed. */
  function Induced<T(==, !new)>(g: Graph<T>, ops: seq<T>): Graph<T> {
    map n | n in ops :: Keep(Deps(g, n), ops)
  }

  lemma InducedDeps<T(!new)>(g: Graph<T>, ops: seq<T>, n: T)
    ensures Deps(Induced(g, ops), n) == if n in ops then Keep(Deps(g, n), ops) else []
  {
  }

  /** The list with every later repetition removed. */
  function FirstOccurrences<T(==, !new)>(s: seq<T>): (r: seq<T>)
    ensures forall x :: x in r <==> x in s
    ensures NoDuplicates(r)
  {
    if s == [] then []
    else
      var last := |s| - 1;
      assert s == s[..last] + [s[last]];
      var r := FirstOccurrences(s[..last]);
      if s[last] in r then r else r + [s[last]]
  }

  function IndexOf<T(==, !new)>(s: seq<T>, x: T): (i: nat)
    requires x in s
    ensures i < |s| && s[i] == x && x !in s[..i]
  {
    if s[0] == x then 0 else 1 + IndexOf(s[1..], x)
  }

  // --- paths and orders ---

  /** Walking along a path moves strictly towards the front of a dependencies-first order. */
  lemma {:induction false} PathDescends<T(!new)>(g: Graph<T>, order: seq<T>, p: seq<T>, k: nat)
    requires DepsFirst(g, order) && IsPath(g, p) && k < |p| && p[0] in order
    ensures p[k] in order && IndexOf(order, p[k]) + k <= IndexOf(order, p[0])
  {
    if k > 0 {
      PathDescends(g, order, p, k - 1);
      DependencyIsEarlier(g, order, p[k - 1], p[k]);
    }
  }

  lemma DependencyIsEarlier<T(!new)>(g: Graph<T>, order: seq<T>, n: T, d: T)
    requires DepsFirst(g, order) && n in order && d in Deps(g, n)
    ensures d in order && IndexOf(order, d) < IndexOf(order, n)
  {
    var i := IndexOf(order, n);
    assert Settled(g, order[i], Elements(order[..i])) && d in Elements(Deps(g, n));
    var j :| 0 <= j < i && order[j] == d;
  }

  /** A dependencies-first order contains no node of a cycle: it certifies acyclicity. */
  lemma OrderAvoidsCycles<T(!new)>(g: Graph<T>, order: seq<T>, c: seq<T>)
    requires DepsFirst(g, order) && IsCycle(g, c)
    ensures c[0] !in order
  {
    if c[0] in order {
      PathDescends(g, order, c, |c| - 1);
      DependencyIsEarlier(g, order, c[|c| - 1], c[0]);
    }
  }

  /** If `stack` is a path into `n` and `n` is already on it, the tail from `n` is a cycle. */
  lemma StackClosesCycle<T(!new)>(g: Graph<T>, stack: seq<T>, n: T)
    requires IsPath(g, stack + [n]) && n in stack
    ensures IsCycle(g, stack[IndexOf(stack, n)..])
  {
    var i := IndexOf(stack, n);
    PathSuffix(g, stack + [n], i);
    assert (stack + [n])[i..] == stack[i..] + [n];
    SplitPath(g, stack[i..], n);
  }

  lemma PathSuffix<T(!new)>(g: Graph<T>, p: seq<T>, i: nat)
    requires IsPath(g, p) && i < |p|
    ensures IsPath(g, p[i..])
  {
    hide Deps;
  }

  lemma SplitPath<T(!new)>(g: Graph<T>, p: seq<T>, n: T)
    requires p != [] && IsPath(g, p + [n])
    ensures IsPath(g, p) && n in Deps(g, p[|p| - 1])
  {
    hide Deps;
    var all := p + [n];
    assert all[|p| - 1] == p[|p| - 1] && all[|p| - 1 + 1] == n;
    forall i | 0 <= i < |p| - 1 ensures p[i + 1] in Deps(g, p[i]) {
      assert all[i + 1] in Deps(g, all[i]);
    }
  }

  lemma ExtendPath<T(!new)>(g: Graph<T>, p: seq<T>, n: T)
    requires IsPath(g, p) && n in Deps(g, p[|p| - 1])
    ensures IsPath(g, p + [n])
  {
  }

  lemma ExtendOrder<T(!new)>(g: Graph<T>, order: seq<T>, n: T)
    requires DepsFirst(g, order)
    requires Settled(g, n, Elements(order))
    ensures DepsFirst(g, order + [n])
  {
    var next := order + [n];
    forall i | 0 <= i < |next| ensures Settled(g, next[i], Elements(next[..i])) {
      assert next[..i] == order[..i];
    }
  }

  /** Restricting a graph to a list that holds all its nodes changes no cycle. */
  lemma InducedOnAllNodes<T(!new)>(g: Graph<T>, ops: seq<T>)
    requires forall n :: n in Nodes(g) ==> n in ops
    ensures Cyclic(Induced(g, ops)) <==> Cyclic(g)
  {
    var h := Induced(g, ops);
    forall n, d ensures d in Deps(h, n) <==> d in Deps(g, n) {
      InducedDeps(g, ops, n);
      if d in Deps(g, n) {
        assert n in g && d in g[n];
      }
    }
    forall c: seq<T> ensures IsCycle(g, c) <==> IsCycle(h, c) {
    }
  }
}
