/** Two depth-first walks over requirement graphs: the registry's dependency order and the operations catalogue's
    cycle report, each proved against what a cycle and a dependency order are. */
module Dependencies {
  import opened Contracts
  import opened Order

  /** Node to the nodes it requires; a requirement outside the graph is no edge. */
  type Graph = map<string, seq<string>>

  predicate Edge(g: Graph, a: string, b: string) {
    a in g && b in g && b in g[a]
  }

  predicate Closed(g: Graph) {
    forall a, b :: a in g && b in g[a] ==> b in g
  }

  predicate IsPath(g: Graph, path: seq<string>) {
    (forall i :: 0 <= i < |path| ==> path[i] in g) && forall i :: 0 <= i < |path| - 1 ==> Edge(g, path[i], path[i + 1])
  }

  predicate IsCycle(g: Graph, path: seq<string>) {
    |path| >= 2 && IsPath(g, path) && path[0] == path[|path| - 1]
  }

  ghost predicate Acyclic(g: Graph) {
    forall path :: !IsCycle(g, path)
  }

  predicate Distinct(s: seq<string>) {
    forall i, j :: 0 <= i < j < |s| ==> s[i] != s[j]
  }

  /** Everything a listed node requires is listed before it. */
  ghost predicate DependenciesFirst(g: Graph, order: seq<string>) {
    forall i, b :: 0 <= i < |order| && Edge(g, order[i], b) ==> b in order[..i]
  }

  ghost predicate DependencyOrder(g: Graph, order: seq<string>) {
    && Distinct(order)
    && (forall a :: a in order <==> a in g)
    && DependenciesFirst(g, order)
  }

  function IndexOf(order: seq<string>, a: string): (i: nat)
    requires a in order
    ensures i < |order| && order[i] == a
  {
    if order[0] == a then 0 else 1 + IndexOf(order[1..], a)
  }

  lemma {:induction false} IndexOfUnique(order: seq<string>, i: nat)
    requires Distinct(order) && i < |order|
    ensures IndexOf(order, order[i]) == i
  {
    var k := IndexOf(order, order[i]);
    assert order[k] == order[i];
  }

  /** Along an edge the position goes down. */
  lemma {:induction false} EdgeGoesDown(g: Graph, order: seq<string>, a: string, b: string)
    requires DependencyOrder(g, order) && Edge(g, a, b)
    ensures IndexOf(order, b) < IndexOf(order, a)
  {
    var i := IndexOf(order, a);
    assert b in order[..i];
    var k :| 0 <= k < i && order[k] == b;
    IndexOfUnique(order, k);
  }

  lemma {:induction false} PathGoesDown(g: Graph, order: seq<string>, path: seq<string>)
    requires DependencyOrder(g, order) && IsPath(g, path) && |path| >= 2
    ensures IndexOf(order, path[|path| - 1]) < IndexOf(order, path[0])
  {
    var last := |path| - 1;
    assert Edge(g, path[last - 1], path[last]);
    EdgeGoesDown(g, order, path[last - 1], path[last]);
    if last > 1 {
      var init := path[..last];
      assert IsPath(g, init);
      PathGoesDown(g, order, init);
    }
  }

  /** A graph with a dependency order has no cycle. */
  lemma {:induction false} OrderedMeansAcyclic(g: Graph, order: seq<string>)
    requires DependencyOrder(g, order)
    ensures Acyclic(g)
  {
    forall path ensures !IsCycle(g, path) {
      if IsCycle(g, path) {
        PathGoesDown(g, order, path);
      }
    }
  }

  /** What both walks report: a path whose last node was on it before. */
  predicate ClosesCycle(g: Graph, path: seq<string>) {
    |path| >= 2 && IsPath(g, path) && path[|path| - 1] in path[..|path| - 1]
  }

  lemma {:induction false} ReportedMeansCyclic(g: Graph, path: seq<string>)
    requires ClosesCycle(g, path)
    ensures !Acyclic(g)
  {
    var i := IndexOf(path[..|path| - 1], path[|path| - 1]);
    var cycle := path[i..];
    forall k | 0 <= k < |cycle| - 1 ensures Edge(g, cycle[k], cycle[k + 1]) {
      assert Edge(g, path[i + k], path[i + k + 1]);
    }
    assert IsCycle(g, cycle);
  }

  lemma {:induction false} StackCloses(g: Graph, stack: seq<string>, node: string)
    requires IsPath(g, stack) && node in stack
    requires Edge(g, stack[|stack| - 1], node)
    ensures ClosesCycle(g, stack + [node])
  {
    assert (stack + [node])[..|stack|] == stack;
  }

  lemma {:induction false} SortedStrings(s: seq<string>)
    ensures forall x :: x in Sort(s, StrLe) <==> x in s
  {
    MultisetMembers(s, Sort(s, StrLe));
  }

  /** Listing one more node, after everything it requires. */
  lemma {:induction false} PlaceNode(g: Graph, placed: seq<string>, node: string)
    requires Distinct(placed) && DependenciesFirst(g, placed) && node !in placed
    requires forall b :: Edge(g, node, b) ==> b in placed
    ensures Distinct(placed + [node]) && DependenciesFirst(g, placed + [node])
  {
    var order := placed + [node];
    forall k, b | 0 <= k < |order| && Edge(g, order[k], b) ensures b in order[..k] {
      if k < |placed| {
        assert order[..k] == placed[..k];
      } else {
        assert order[..k] == placed;
      }
    }
  }

  /** One more node on the stack: still a path, and one node fewer to come. */
  lemma {:induction false} PushNode(g: Graph, stack: seq<string>, node: string)
    requires IsPath(g, stack) && Distinct(stack) && node in g && node !in stack
    requires stack != [] ==> Edge(g, stack[|stack| - 1], node)
    ensures IsPath(g, stack + [node]) && Distinct(stack + [node])
    ensures Remaining(g, stack + [node]) < Remaining(g, stack)
    ensures (stack + [node])[|stack|] == node && (stack + [node])[..|stack|] == stack
  {
    assert node in Remaining(g, stack) && node !in Remaining(g, stack + [node]);
  }

  /** `sorted` of a set of names. */
  method SortedNames(names: set<string>) returns (r: seq<string>)
    ensures forall x :: x in r <==> x in names
    ensures Distinct(r) && SortedBy(r, StrLe)
  {
    var listed: seq<string> := [];
    var rest := names;
    while rest != {}
      invariant rest <= names
      invariant forall x :: x in listed <==> x in names && x !in rest
      invariant Distinct(listed)
      decreases rest
    {
      var x :| x in rest;
      listed := listed + [x];
      rest := rest - {x};
    }
    r := Sort(listed, StrLe);
    SortedStrings(listed);
    StrLeTotalPreorder();
    SortSorted(listed, StrLe);
    DistinctPermutation(listed, r, (s: string) => s);
  }

  /** The nodes of the graph that are not on the stack: what the walks run out of. */
  function Remaining(g: Graph, stack: seq<string>): set<string> {
    g.Keys - set x | x in stack
  }

  // ---- the registry's dependency order

  /** The variables of `_dependency_order`: the stack is a path of unvisited nodes, and what is visited is listed once,
      after everything that it requires. */
  ghost predicate Ordering(graph: Graph, active: seq<string>, visited: set<string>, ordered: seq<string>) {
    && IsPath(graph, active) && Distinct(active) && Distinct(ordered)
    && (forall a :: a in ordered <==> a in visited)
    && visited <= graph.Keys
    && (forall a :: a in active ==> a !in visited)
    && DependenciesFirst(graph, ordered)
  }

  lemma {:induction false} OrderPush(graph: Graph, active: seq<string>, visited: set<string>, ordered: seq<string>,
          node: string)
    requires Ordering(graph, active, visited, ordered)
    requires node in graph && node !in active && node !in visited
    requires (active != [] ==> Edge(graph, active[|active| - 1], node))
    ensures Ordering(graph, active + [node], visited, ordered)
    ensures Remaining(graph, active + [node]) < Remaining(graph, active)
  {
    PushNode(graph, active, node);
  }

  lemma {:induction false} OrderPop(graph: Graph, active: seq<string>, visited: set<string>, ordered: seq<string>,
          node: string)
    requires Ordering(graph, active + [node], visited, ordered) && IsPath(graph, active) && Distinct(active)
    requires node in graph && node !in active && forall b :: Edge(graph, node, b) ==> b in visited
    ensures Ordering(graph, active, visited + {node}, ordered + [node])
  {
    assert (active + [node])[|active|] == node;
    assert forall a :: a in active ==> a in active + [node];
    PlaceNode(graph, ordered, node);
  }

  /** The variables of `_dependency_order`, shared by its recursive `visit`. */
  class DependencyWalk {
    const graph: Graph
    var ordered: seq<string>
    var active: seq<string>
    var visited: set<string>

    constructor (graph: Graph)
      ensures this.graph == graph && ordered == [] && active == [] && visited == {}
    {
      this.graph := graph;
      ordered, active, visited := [], [], {};
    }

    ghost predicate Valid()
      reads this
    {
      Closed(graph) && Ordering(graph, active, visited, ordered)
    }

    /** `visit`: either everything below the node is ordered, or a cycle is reported. */
    method Visit(node: string) returns (cycle: Option<seq<string>>)
      requires Valid() && node in graph
      requires active != [] ==> Edge(graph, active[|active| - 1], node)
      modifies this
      ensures cycle.None? ==> Valid() && active == old(active) && old(ordered) <= ordered && node in visited
      ensures cycle.Some? ==> ClosesCycle(graph, cycle.value)
      decreases Remaining(graph, active)
    {
      if node in active {
        StackCloses(graph, active, node);
        return Some(active + [node]);
      }
      if node in visited {
        return None;
      }
      ghost var before := active;
      OrderPush(graph, before, visited, ordered, node);
      active := active + [node];
      var requirements := Sort(graph[node], StrLe);
      SortedStrings(graph[node]);
      for i := 0 to |requirements|
        invariant Valid() && active == before + [node] && old(ordered) <= ordered
        invariant forall k :: 0 <= k < i ==> requirements[k] in visited
      {
        assert requirements[i] in requirements;
        cycle := Visit(requirements[i]);
        if cycle.Some? {
          return;
        }
      }
      active := active[..|active| - 1];
      assert active == before;
      OrderPop(graph, before, visited, ordered, node);
      visited := visited + {node};
      ordered := ordered + [node];
      cycle := None;
    }
  }

  /** `_dependency_order`: an order exactly for the graphs without a cycle. */
  method ComputeDependencyOrder(graph: Graph) returns (r: Result<seq<string>, seq<string>>)
    requires Closed(graph)
    ensures r.Ok? <==> Acyclic(graph)
    ensures r.Ok? ==> DependencyOrder(graph, r.value)
    ensures r.Err? ==> ClosesCycle(graph, r.error)
  {
    var walk := new DependencyWalk(graph);
    var names := SortedNames(graph.Keys);
    for i := 0 to |names|
      invariant walk.Valid() && walk.active == [] && walk.graph == graph
      invariant forall k :: 0 <= k < i ==> names[k] in walk.visited
    {
      assert names[i] in names;
      var cycle := walk.Visit(names[i]);
      if cycle.Some? {
        ReportedMeansCyclic(graph, cycle.value);
        return Err(cycle.value);
      }
    }
    OrderedMeansAcyclic(graph, walk.ordered);
    return Ok(walk.ordered);
  }

  // ---- the catalogue's cycle report

  /** The variables of `_cycles`: the trail is a path, what is finished is ordered as long as nothing was reported, and
      every report is a cycle. */
  ghost predicate Reporting(graph: Graph, trail: seq<string>, active: set<string>, visited: set<string>,
          finished: seq<string>, cycles: seq<seq<string>>) {
    && IsPath(graph, trail) && Distinct(trail)
    && (forall a :: a in active <==> a in trail)
    && (forall a :: a in active ==> a !in visited)
    && visited <= graph.Keys
    && Distinct(finished) && (forall a :: a in finished <==> a in visited)
    && (|cycles| == 0 ==> DependenciesFirst(graph, finished))
    && (forall i :: 0 <= i < |cycles| ==> ClosesCycle(graph, cycles[i]))
  }

  lemma {:induction false} ReportPush(graph: Graph, trail: seq<string>, active: set<string>, visited: set<string>,
          finished: seq<string>, cycles: seq<seq<string>>, node: string)
    requires Reporting(graph, trail, active, visited, finished, cycles)
    requires node in graph && node !in active && node !in visited
    requires (trail != [] ==> Edge(graph, trail[|trail| - 1], node))
    ensures Reporting(graph, trail + [node], active + {node}, visited, finished, cycles)
    ensures Remaining(graph, trail + [node]) < Remaining(graph, trail)
  {
    PushNode(graph, trail, node);
  }

  lemma {:induction false} ReportPop(graph: Graph, trail: seq<string>, active: set<string>, visited: set<string>,
          finished: seq<string>, cycles: seq<seq<string>>, node: string)
    requires Reporting(graph, trail + [node], active + {node}, visited, finished, cycles)
    requires IsPath(graph, trail) && Distinct(trail) && (forall a :: a in active <==> a in trail)
    requires node in graph && (|cycles| == 0 ==> forall b :: Edge(graph, node, b) ==> b in visited)
    requires node !in active
    ensures Reporting(graph, trail, active, visited + {node}, finished + [node], cycles)
  {
    assert node in active + {node};
    if |cycles| == 0 {
      PlaceNode(graph, finished, node);
    }
  }

  /** The walk of `_cycles`; `finished` only records, for the proof, in which order nodes were left. */
  class CycleWalk {
    const graph: Graph
    var active: set<string>
    var visited: set<string>
    var cycles: seq<seq<string>>
    ghost var finished: seq<string>

    constructor (graph: Graph)
      ensures this.graph == graph && active == {} && visited == {} && cycles == [] && finished == []
    {
      this.graph := graph;
      active, visited, cycles, finished := {}, {}, [], [];
    }

    ghost predicate Valid(trail: seq<string>)
      reads this
    {
      Reporting(graph, trail, active, visited, finished, cycles)
    }

    /** `visit`: reports instead of raising, and carries on. */
    method Visit(node: string, trail: seq<string>)
      requires Valid(trail) && node in graph
      requires trail != [] ==> Edge(graph, trail[|trail| - 1], node)
      modifies this
      ensures Valid(trail) && active == old(active)
      ensures |old(cycles)| <= |cycles|
      ensures |cycles| == 0 ==> node in visited
      ensures old(visited) <= visited
      decreases Remaining(graph, trail)
    {
      if node in active {
        StackCloses(graph, trail, node);
        cycles := cycles + [trail + [node]];
        return;
      }
      if node in visited {
        return;
      }
      ReportPush(graph, trail, active, visited, finished, cycles, node);
      active := active + {node};
      var longer := trail + [node];
      var targets := graph[node];
      ghost var below: set<string> := {};
      for i := 0 to |targets|
        invariant Valid(longer) && active == old(active) + {node}
        invariant |old(cycles)| <= |cycles|
        invariant old(visited) <= visited
        invariant |cycles| == 0 ==> below <= visited
        invariant forall k :: 0 <= k < i ==> targets[k] in below || targets[k] !in graph
      {
        if targets[i] in graph {
          assert longer[|longer| - 1] == node && Edge(graph, node, targets[i]);
          Visit(targets[i], longer);
          below := below + {targets[i]};
        }
      }
      ReportPop(graph, trail, old(active), visited, finished, cycles, node);
      active := active - {node};
      visited := visited + {node};
      finished := finished + [node];
    }
  }

  /** `_cycles`: the report is empty exactly for the graphs without a cycle. The nodes may be walked in any order. */
  method ReportCycles(graph: Graph, nodes: seq<string>) returns (cycles: seq<seq<string>>)
    requires forall a :: a in nodes <==> a in graph
    ensures cycles == [] <==> Acyclic(graph)
    ensures forall i :: 0 <= i < |cycles| ==> ClosesCycle(graph, cycles[i])
  {
    var walk := new CycleWalk(graph);
    for i := 0 to |nodes|
      invariant walk.Valid([]) && walk.graph == graph
      invariant |walk.cycles| == 0 ==> forall k :: 0 <= k < i ==> nodes[k] in walk.visited
    {
      assert nodes[i] in nodes;
      walk.Visit(nodes[i], []);
    }
    cycles := walk.cycles;
    if cycles == [] {
      OrderedMeansAcyclic(graph, walk.finished);
    } else {
      ReportedMeansCyclic(graph, cycles[0]);
    }
  }
}
