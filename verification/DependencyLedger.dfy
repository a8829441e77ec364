/** The dependency ledger's graph: a depth-first cycle finder and a worklist closure. */
module DependencyLedger {
  import opened Wrappers
  import opened Ordering

  type NodeId = string
  type Adjacency = map<NodeId, seq<NodeId>>

  // ---------------------------------------------------------- specification

  predicate Edge(g: Adjacency, a: NodeId, b: NodeId) {
    a in g && b in g[a]
  }

  /** Consecutive nodes are joined by edges. */
  predicate Walk(g: Adjacency, path: seq<NodeId>) {
    path != [] && forall i :: 0 <= i < |path| - 1 ==> Edge(g, path[i], path[i + 1])
  }

  predicate Cycle(g: Adjacency, path: seq<NodeId>) {
    |path| >= 2 && Walk(g, path) && path[0] == path[|path| - 1]
  }

  /** No node is repeated on the way round. */
  ghost predicate SimpleCycle(g: Adjacency, path: seq<NodeId>) { Cycle(g, path) && Distinct(path[..|path| - 1]) }

  ghost predicate Reaches(g: Adjacency, a: NodeId, b: NodeId) {
    exists path :: Walk(g, path) && path[0] == a && path[|path| - 1] == b
  }

  ghost predicate ReachableFrom(g: Adjacency, seeds: set<NodeId>, n: NodeId) {
    exists s :: s in seeds && Reaches(g, s, n)
  }

  ghost predicate Closed(g: Adjacency, nodes: set<NodeId>) {
    forall a, b :: a in nodes && Edge(g, a, b) ==> b in nodes
  }

  lemma {:induction false} WalkStays(g: Adjacency, nodes: set<NodeId>, path: seq<NodeId>)
    requires Closed(g, nodes) && Walk(g, path) && path[0] in nodes
    ensures forall i :: 0 <= i < |path| ==> path[i] in nodes
  {
    if |path| > 1 {
      assert Edge(g, path[0], path[1]);
      assert forall i :: 0 <= i < |path[1..]| - 1 ==> Edge(g, path[1..][i], path[1..][i + 1]) by {
        forall i | 0 <= i < |path[1..]| - 1
          ensures Edge(g, path[1..][i], path[1..][i + 1])
        {
          assert Edge(g, path[i + 1], path[i + 1 + 1]);
        }
      }
      WalkStays(g, nodes, path[1..]);
      forall i | 0 <= i < |path|
        ensures path[i] in nodes
      {
        if i > 0 {
          assert path[i] == path[1..][i - 1];
        }
      }
    }
  }

  lemma WalkExtends(g: Adjacency, path: seq<NodeId>, n: NodeId)
    requires Walk(g, path) && Edge(g, path[|path| - 1], n)
    ensures Walk(g, path + [n])
  {
    forall i | 0 <= i < |path + [n]| - 1
      ensures Edge(g, (path + [n])[i], (path + [n])[i + 1])
    {
      if i < |path| - 1 {
        assert Edge(g, path[i], path[i + 1]);
      }
    }
  }

  lemma WalkSuffix(g: Adjacency, path: seq<NodeId>, k: nat)
    requires Walk(g, path) && k < |path|
    ensures Walk(g, path[k..])
  {
    forall i | 0 <= i < |path[k..]| - 1
      ensures Edge(g, path[k..][i], path[k..][i + 1])
    {
      assert Edge(g, path[k + i], path[k + i + 1]);
    }
  }

  /** A walk reaches each of its nodes. */
  lemma WalkReaches(g: Adjacency, path: seq<NodeId>, k: nat)
    requires Walk(g, path) && k < |path|
    ensures Reaches(g, path[0], path[k])
  {
    var prefix := path[..k + 1];
    forall i | 0 <= i < |prefix| - 1
      ensures Edge(g, prefix[i], prefix[i + 1])
    {
      assert Edge(g, path[i], path[i + 1]);
    }
    assert Walk(g, prefix) && prefix[0] == path[0] && prefix[|prefix| - 1] == path[k];
  }

  // ------------------------------------------------------------ cycle finder

  /** Every node's successors finished before it: a reversed topological order. */
  ghost predicate Finished(g: Adjacency, order: seq<NodeId>) {
    forall i, b :: 0 <= i < |order| && Edge(g, order[i], b) ==> b in order[..i]
  }

  /** In such an order a walk only descends, so it never returns. */
  lemma {:induction false} FinishedDescends(g: Adjacency, order: seq<NodeId>, path: seq<NodeId>, i: nat)
    requires Finished(g, order) && Walk(g, path) && |path| >= 2
    requires i < |order| && path[0] == order[i]
    ensures path[|path| - 1] in order[..i]
    decreases |path|
  {
    assert Edge(g, path[0], path[1]);
    var j :| 0 <= j < i && order[..i][j] == path[1];
    if |path| > 2 {
      WalkSuffix(g, path, 1);
      FinishedDescends(g, order, path[1..], j);
      assert forall n :: n in order[..j] ==> n in order[..i];
    }
  }

  lemma FinishedAppend(g: Adjacency, order: seq<NodeId>, node: NodeId)
    requires Finished(g, order) && forall b :: Edge(g, node, b) ==> b in order
    ensures Finished(g, order + [node])
  {
    forall i, b | 0 <= i < |order + [node]| && Edge(g, (order + [node])[i], b)
      ensures b in (order + [node])[..i]
    {
      assert (order + [node])[..i] == order[..i];
    }
  }

  /** No cycle starts at a finished node. */
  lemma FinishedAcyclic(g: Adjacency, order: seq<NodeId>, path: seq<NodeId>)
    requires Finished(g, order) && Distinct(order) && Cycle(g, path)
    ensures path[0] !in order
  {
    if path[0] in order {
      var i :| 0 <= i < |order| && order[i] == path[0];
      FinishedDescends(g, order, path, i);
    }
  }

  class CycleFinder {
    const g: Adjacency
    var visiting: set<NodeId>
    var visited: set<NodeId>
    var stack: seq<NodeId>
    ghost const universe: set<NodeId>
    ghost var order: seq<NodeId>

    ghost predicate Valid()
      reads this
    {
      && Closed(g, universe) && visiting <= universe && visited <= universe && visiting !! visited
      && Distinct(stack) && (forall n :: n in stack <==> n in visiting)
      && (stack != [] ==> Walk(g, stack))
      && Distinct(order) && (forall n :: n in order <==> n in visited)
      && Finished(g, order)
    }

    constructor (g: Adjacency, ghost universe: set<NodeId>)
      requires Closed(g, universe)
      ensures Valid() && this.g == g && this.universe == universe
      ensures visiting == {} && visited == {} && stack == []
    {
      this.g, this.universe := g, universe;
      visiting, visited, stack, order := {}, {}, [], [];
    }

    method Visit(node: NodeId) returns (found: Option<seq<NodeId>>)
      requires Valid() && node in universe
      requires stack != [] ==> Edge(g, stack[|stack| - 1], node)
      modifies this
      decreases universe - visiting - visited
      ensures found.Some? ==>
                SimpleCycle(g, found.value) && Reaches(g, (old(stack) + [node])[0], found.value[0])
      ensures found.None? ==> Valid() && stack == old(stack) && visiting == old(visiting)
      ensures found.None? ==> node in visited && old(visited) <= visited
    {
      hide Finished, Distinct, Walk, Cycle, Reaches;
      if node in visiting {
        found := Close(node);
        return;
      }
      if node in visited {
        return None;
      }
      Enter(node);
      var targets := if node in g then g[node] else [];
      for i := 0 to |targets|
        invariant Valid() && stack == old(stack) + [node] && visiting == old(visiting) + {node}
        invariant old(visited) <= visited
        invariant forall k :: 0 <= k < i ==> targets[k] in visited
      {
        assert Edge(g, node, targets[i]);
        assert node in visiting && targets[i] in universe;
        assert universe - visiting - visited < universe - old(visiting) - old(visited) by {
          assert node in universe - old(visiting) - old(visited);
        }
        found := Visit(targets[i]);
        if found.Some? {
          return;
        }
      }
      Leave(node);
      found := None;
    }

    /** The node is on the stack: the stack from there on closes a cycle. */
    method Close(node: NodeId) returns (found: Option<seq<NodeId>>)
      requires Valid() && node in visiting && Edge(g, stack[|stack| - 1], node)
      ensures found.Some? && SimpleCycle(g, found.value) && Reaches(g, stack[0], found.value[0])
    {
      var start :| 0 <= start < |stack| && stack[start] == node;
      WalkReaches(g, stack, start);
      WalkExtends(g, stack, node);
      WalkSuffix(g, stack + [node], start);
      assert (stack + [node])[start..] == stack[start..] + [node];
      assert (stack[start..] + [node])[..|stack| - start] == stack[start..];
      return Some(stack[start..] + [node]);
    }

    method Enter(node: NodeId)
      requires Valid() && node in universe && node !in visiting && node !in visited
      requires stack != [] ==> Edge(g, stack[|stack| - 1], node)
      modifies this`visiting, this`stack
      ensures Valid() && stack == old(stack) + [node] && visiting == old(visiting) + {node}
    {
      if stack != [] {
        WalkExtends(g, stack, node);
      }
      visiting := visiting + {node};
      stack := stack + [node];
    }

    method Leave(node: NodeId)
      requires Valid() && stack != [] && stack[|stack| - 1] == node
      requires forall b :: Edge(g, node, b) ==> b in visited
      modifies this
      ensures Valid() && stack == old(stack)[..|old(stack)| - 1] && visiting == old(visiting) - {node}
      ensures visited == old(visited) + {node}
    {
      stack := stack[..|stack| - 1];
      visiting := visiting - {node};
      visited := visited + {node};
      FinishedAppend(g, order, node);
      order := order + [node];
    }
  }

  lemma Smaller(a: set<NodeId>, b: set<NodeId>, node: NodeId)
    requires b <= a && node in a && node !in b
    ensures |b| < |a|
  {
    SubsetSize(b, a - {node});
  }

  /** A cycle reachable from `nodes`, or none: then there is none to reach. */
  method FindCycle(nodes: set<NodeId>, g: Adjacency, ghost universe: set<NodeId>) returns (found: Option<seq<NodeId>>)
    requires nodes <= universe && Closed(g, universe)
    ensures found.Some? ==> SimpleCycle(g, found.value) && ReachableFrom(g, nodes, found.value[0])
    ensures found.None? ==> forall path :: Cycle(g, path) ==> !ReachableFrom(g, nodes, path[0])
  {
    var finder := new CycleFinder(g, universe);
    BeforeTotal();
    var ordered := SortedList(Before, nodes);
    for i := 0 to |ordered|
      invariant finder.Valid() && finder.stack == [] && finder.visiting == {}
      invariant forall k :: 0 <= k < i ==> ordered[k] in finder.visited
    {
      found := finder.Visit(ordered[i]);
      if found.Some? {
        assert ordered[i] in nodes && Reaches(g, ordered[i], found.value[0]);
        return;
      }
    }
    found := None;
    forall path | Cycle(g, path)
      ensures !ReachableFrom(g, nodes, path[0])
    {
      NoReachableCycle(g, nodes, finder.visited, finder.order, path);
    }
  }

  lemma NoReachableCycle(g: Adjacency, nodes: set<NodeId>, visited: set<NodeId>, order: seq<NodeId>, path: seq<NodeId>)
    requires nodes <= visited && Finished(g, order) && Distinct(order) && (forall n :: n in order <==> n in visited)
    requires Cycle(g, path)
    ensures !ReachableFrom(g, nodes, path[0])
  {
    FinishedAcyclic(g, order, path);
    forall a, b | a in visited && Edge(g, a, b)
      ensures b in visited
    {
      var i :| 0 <= i < |order| && order[i] == a;
      assert b in order[..i];
    }
    if s :| s in nodes && Reaches(g, s, path[0]) {
      var walk :| Walk(g, walk) && walk[0] == s && walk[|walk| - 1] == path[0];
      WalkStays(g, visited, walk);
    }
  }

  // ----------------------------------------------------------- whole graphs

  datatype Dependency = Dependency(source: NodeId, target: NodeId)

  datatype LedgerError = DuplicateNode | DuplicateEdge | SelfReference | Dangling | RequiresCycle

  predicate Joined(edges: seq<Dependency>, a: NodeId, b: NodeId) {
    Dependency(a, b) in edges
  }

  /** A directed cycle of the declared edges. */
  ghost predicate DeclaredCycle(edges: seq<Dependency>, path: seq<NodeId>) {
    && |path| >= 2 && path[0] == path[|path| - 1]
    && forall i :: 0 <= i < |path| - 1 ==> Joined(edges, path[i], path[i + 1])
  }

  /** The edge joins two different known nodes. */
  predicate Sound(nodes: seq<NodeId>, e: Dependency) {
    e.source != e.target && e.source in nodes && e.target in nodes
  }

  ghost predicate FirstBad(nodes: seq<NodeId>, edges: seq<Dependency>, n: int) {
    0 <= n < |edges| && !Sound(nodes, edges[n]) && forall k :: 0 <= k < n ==> Sound(nodes, edges[k])
  }

  /** The adjacency lists, built edge by edge. */
  method BuildAdjacency(edges: seq<Dependency>) returns (g: Adjacency)
    ensures forall a, b :: Edge(g, a, b) <==> Joined(edges, a, b)
    ensures forall a, i :: a in g && 0 <= i < |g[a]| ==> Dependency(a, g[a][i]) in edges
  {
    g := map[];
    for n := 0 to |edges|
      invariant forall a, b :: Edge(g, a, b) <==> Joined(edges[..n], a, b)
    {
      var e := edges[n];
      ghost var before := g;
      g := g[e.source := (if e.source in g then g[e.source] else []) + [e.target]];
      forall a, b
        ensures Edge(g, a, b) <==> Joined(edges[..n + 1], a, b)
      {
        assert edges[..n + 1] == edges[..n] + [e];
        assert Edge(before, a, b) <==> Joined(edges[..n], a, b);
      }
    }
    assert edges[..|edges|] == edges;
    forall a, i | a in g && 0 <= i < |g[a]|
      ensures Dependency(a, g[a][i]) in edges
    {
      assert Edge(g, a, g[a][i]);
    }
  }

  /** The graph checks of a ledger: accepted exactly when nodes and edges are declared
      once, no edge is self-referential or dangling, and there is no directed cycle. */
  method CheckLedger(nodes: seq<NodeId>, edges: seq<Dependency>) returns (failure: Option<LedgerError>)
    ensures failure.None? <==>
              && Distinct(nodes) && Distinct(edges)
              && (forall e :: e in edges ==> e.source != e.target && e.source in nodes && e.target in nodes)
              && (forall path :: !DeclaredCycle(edges, path))
    ensures failure == Some(DuplicateNode) <==> !Distinct(nodes)
    ensures failure == Some(DuplicateEdge) <==> Distinct(nodes) && !Distinct(edges)
    ensures failure == Some(SelfReference) <==>
              && Distinct(nodes) && Distinct(edges)
              && exists n :: FirstBad(nodes, edges, n) && edges[n].source == edges[n].target
    ensures failure == Some(Dangling) <==>
              && Distinct(nodes) && Distinct(edges)
              && exists n :: FirstBad(nodes, edges, n) && edges[n].source != edges[n].target
    ensures failure == Some(RequiresCycle) ==> exists path :: DeclaredCycle(edges, path)
  {
    if i, j :| 0 <= i < j < |nodes| && nodes[i] == nodes[j] {
      return Some(DuplicateNode);
    }
    if i, j :| 0 <= i < j < |edges| && edges[i] == edges[j] {
      return Some(DuplicateEdge);
    }
    for n := 0 to |edges|
      invariant forall k :: 0 <= k < n ==>
                  edges[k].source != edges[k].target && edges[k].source in nodes && edges[k].target in nodes
      invariant forall k :: FirstBad(nodes, edges, k) ==> k >= n
    {
      if edges[n].source == edges[n].target {
        assert FirstBad(nodes, edges, n);
        return Some(SelfReference);
      }
      if edges[n].source !in nodes || edges[n].target !in nodes {
        assert FirstBad(nodes, edges, n);
        return Some(Dangling);
      }
    }
    var g := BuildAdjacency(edges);
    var known := set n | n in nodes;
    forall path | DeclaredCycle(edges, path)
      ensures Cycle(g, path) && ReachableFrom(g, known, path[0])
    {
      DeclaredCycleIsReachable(edges, g, known, path);
    }
    var found := FindCycle(known, g, known);
    if found.Some? {
      assert DeclaredCycle(edges, found.value);
      return Some(RequiresCycle);
    }
    failure := None;
  }

  lemma DeclaredCycleIsReachable(edges: seq<Dependency>, g: Adjacency, nodes: set<NodeId>, path: seq<NodeId>)
    requires forall a, b :: Edge(g, a, b) <==> Joined(edges, a, b)
    requires forall e :: e in edges ==> e.source in nodes
    requires DeclaredCycle(edges, path)
    ensures Cycle(g, path) && ReachableFrom(g, nodes, path[0])
  {
    assert Joined(edges, path[0], path[1]);
    assert forall i :: 0 <= i < |path| - 1 ==> Joined(edges, path[i], path[i + 1]) && Edge(g, path[i], path[i + 1]);
    SeedReachable(g, nodes, path[0]);
  }

  // ---------------------------------------------------------------- closure

  /** The least set holding the seeds and closed under the edges. */
  lemma ReachableIsLeast(g: Adjacency, seeds: set<NodeId>, nodes: set<NodeId>, n: NodeId)
    requires seeds <= nodes && Closed(g, nodes) && ReachableFrom(g, seeds, n)
    ensures n in nodes
  {
    var s :| s in seeds && Reaches(g, s, n);
    var path :| Walk(g, path) && path[0] == s && path[|path| - 1] == n;
    WalkStays(g, nodes, path);
  }

  lemma SeedReachable(g: Adjacency, seeds: set<NodeId>, s: NodeId)
    requires s in seeds
    ensures ReachableFrom(g, seeds, s)
  {
    assert Walk(g, [s]) && Reaches(g, s, s);
  }

  lemma ReachableExtends(g: Adjacency, seeds: set<NodeId>, a: NodeId, b: NodeId)
    requires ReachableFrom(g, seeds, a) && Edge(g, a, b)
    ensures ReachableFrom(g, seeds, b)
  {
    var s :| s in seeds && Reaches(g, s, a);
    var path :| Walk(g, path) && path[0] == s && path[|path| - 1] == a;
    WalkExtends(g, path, b);
    assert (path + [b])[0] == s && (path + [b])[|path|] == b;
    assert Reaches(g, s, b);
  }

  /** The sorted list of exactly the nodes reachable from the seeds, on any graph. */
  method DependencyClosure(nodes: seq<NodeId>, edges: seq<Dependency>, seeds: set<NodeId>)
    returns (res: Option<seq<NodeId>>, ghost g: Adjacency)
    ensures forall a, b :: Edge(g, a, b) <==> Joined(edges, a, b)
    ensures res.None? <==> exists s :: s in seeds && s !in nodes
    ensures res.Some? ==> Sorted(Before, res.value) && forall n :: n in res.value <==> ReachableFrom(g, seeds, n)
  {
    hide ReachableFrom;
    var adjacency := BuildAdjacency(edges);
    g := adjacency;
    if s :| s in seeds && s !in nodes {
      return None, g;
    }
    var selected := seeds;
    BeforeTotal();
    var pending := SortedList(Before, selected);
    ghost var universe := seeds + set e | e in edges :: e.target;
    forall s | s in seeds
      ensures ReachableFrom(g, seeds, s)
    {
      SeedReachable(g, seeds, s);
    }
    while pending != []
      invariant seeds <= selected <= universe
      invariant forall n :: n in pending ==> n in selected
      invariant forall n :: n in selected ==> ReachableFrom(g, seeds, n)
      invariant forall a, b :: a in selected && a !in pending && Edge(g, a, b) ==> b in selected
      decreases |universe - selected|, |pending|
    {
      selected, pending := Expand(adjacency, seeds, selected, pending, universe);
    }
    forall n | ReachableFrom(g, seeds, n)
      ensures n in selected
    {
      ReachableIsLeast(g, seeds, selected, n);
    }
    var closed := SortedList(Before, selected);
    res := Some(closed);
  }

  /** One worklist round: take the first pending node and add its unselected targets. */
  method Expand(g: Adjacency, ghost seeds: set<NodeId>, selected: set<NodeId>, pending: seq<NodeId>,
                ghost universe: set<NodeId>)
    returns (selected': set<NodeId>, pending': seq<NodeId>)
    requires pending != [] && selected <= universe && forall n :: n in pending ==> n in selected
    requires forall a, b :: Edge(g, a, b) ==> b in universe
    requires forall n :: n in selected ==> ReachableFrom(g, seeds, n)
    requires forall a, b :: a in selected && a !in pending && Edge(g, a, b) ==> b in selected
    ensures selected <= selected' <= universe && forall n :: n in pending' ==> n in selected'
    ensures forall n :: n in selected' ==> ReachableFrom(g, seeds, n)
    ensures forall a, b :: a in selected' && a !in pending' && Edge(g, a, b) ==> b in selected'
    ensures |universe - selected'| < |universe - selected|
         || (selected' == selected && |pending'| < |pending|)
  {
    hide ReachableFrom;
    var source := pending[0];
    selected', pending' := selected, pending[1..];
    var targets := if source in g then g[source] else [];
    for i := 0 to |targets|
      invariant selected <= selected' <= universe
      invariant forall n :: n in pending' <==> n in pending[1..] || (n in selected' && n !in selected)
      invariant forall n :: n in selected' ==> ReachableFrom(g, seeds, n)
      invariant forall k :: 0 <= k < i ==> targets[k] in selected'
      invariant selected' == selected ==> pending' == pending[1..]
    {
      var target := targets[i];
      assert Edge(g, source, target);
      if target !in selected' {
        ReachableExtends(g, seeds, source, target);
        selected' := selected' + {target};
        pending' := pending' + [target];
      }
    }
    if selected' != selected {
      var n :| n in selected' && n !in selected;
      Smaller(universe - selected, universe - selected', n);
    }
    var unsorted := pending';
    pending' := SortPending(unsorted);
  }

  /** `pending.sort()`: the same nodes in ascending order. */
  method SortPending(pending: seq<NodeId>) returns (sorted: seq<NodeId>)
    ensures multiset(sorted) == multiset(pending)
    ensures forall n :: n in sorted <==> n in pending
    ensures |sorted| == |pending|
  {
    sorted := [];
    for i := 0 to |pending|
      invariant multiset(sorted) == multiset(pending[..i]) && |sorted| == i
    {
      var k := 0;
      while k < |sorted| && Before(sorted[k], pending[i])
        invariant 0 <= k <= |sorted|
      {
        k := k + 1;
      }
      assert sorted == sorted[..k] + sorted[k..];
      assert pending[..i + 1] == pending[..i] + [pending[i]];
      sorted := sorted[..k] + [pending[i]] + sorted[k..];
    }
    assert pending[..|pending|] == pending;
    forall n
      ensures n in sorted <==> n in pending
    {
      assert n in multiset(sorted) <==> n in multiset(pending);
    }
  }
}
