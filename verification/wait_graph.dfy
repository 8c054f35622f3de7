/** The wait-for graph of the lock manager and its depth-first search for a deadlock. */
module WaitGraphs {
  import opened CoreTypes

  /** Who waits for whom. */
  type Graph = map<string, set<string>>

  predicate Edge(g: Graph, a: string, b: string) {
    a in g && b in g[a]
  }

  predicate IsWalk(g: Graph, p: seq<string>) {
    forall i | 0 <= i < |p| - 1 :: Edge(g, p[i], p[i + 1])
  }

  predicate Distinct(p: seq<string>) {
    forall i, j | 0 <= i < j < |p| :: p[i] != p[j]
  }

  /** A closed walk along at least one edge. */
  predicate IsCycle(g: Graph, c: seq<string>) {
    |c| >= 2 && IsWalk(g, c) && c[0] == c[|c| - 1]
  }

  predicate IsSimpleCycle(g: Graph, c: seq<string>) {
    IsCycle(g, c) && Distinct(c[1..])
  }

  ghost predicate Acyclic(g: Graph) {
    forall c :: !IsCycle(g, c)
  }

  /** A walk into a loop: its last node occurs exactly once before, and nothing else repeats. */
  predicate IsLasso(g: Graph, p: seq<string>) {
    |p| >= 2 && IsWalk(g, p) && Distinct(p[..|p| - 1]) && p[|p| - 1] in p[..|p| - 1]
  }

  /** Waiters and holders. */
  function Members(g: Graph): set<string> {
    g.Keys + set k, x | k in g && x in g[k] :: x
  }

  // ---------------------------------------------------------------- lassos and cycles

  /** From the earlier occurrence of its last node on, a lasso is a simple cycle. */
  lemma LassoHoldsCycle(g: Graph, p: seq<string>) returns (k: nat)
    requires IsLasso(g, p)
    ensures k < |p| - 1 && IsSimpleCycle(g, p[k..])
  {
    k :| k < |p| - 1 && p[k] == p[|p| - 1];
    var c := p[k..];
    forall i | 0 <= i < |c| - 1
      ensures Edge(g, c[i], c[i + 1])
    {
      assert Edge(g, p[k + i], p[k + i + 1]);
    }
    forall i, j | 0 <= i < j < |c[1..]|
      ensures c[1..][i] != c[1..][j]
    {
      assert c[1..][i] == p[..|p| - 1][k + 1 + i];
      if j < |c[1..]| - 1 {
        assert c[1..][j] == p[..|p| - 1][k + 1 + j];
      } else {
        assert c[1..][j] == p[..|p| - 1][k];
      }
    }
  }

  /** The first node of a lasso, which is the one chosen as victim, is on its loop exactly when it
      is also the last one. */
  lemma VictimIsOnLoopIff(g: Graph, p: seq<string>, k: nat)
    requires IsLasso(g, p) && k < |p| - 1 && p[k] == p[|p| - 1]
    ensures p[0] in p[k..] <==> p[0] == p[|p| - 1]
  {
  }

  /** And it need not be: `x` waits for `y`, which waits for itself. */
  lemma VictimMayBeInnocent()
    ensures var g: Graph := map["x" := {"y"}, "y" := {"y"}];
            && IsLasso(g, ["x", "y", "y"])
            && forall c | IsCycle(g, c) :: "x" !in c
  {
    var g: Graph := map["x" := {"y"}, "y" := {"y"}];
    var p := ["x", "y", "y"];
    assert p[..2] == ["x", "y"];
    assert p[1] == "y" && p[..2][1] == "y";
    forall c | IsCycle(g, c)
      ensures "x" !in c
    {
      forall i | 0 <= i < |c|
        ensures c[i] != "x"
      {
        var j := if i == 0 then |c| - 1 else i;
        assert Edge(g, c[j - 1], c[j - 1 + 1]);
      }
    }
  }

  /** Ranks that go down along every edge leave no room for a cycle. */
  ghost predicate Ranked(g: Graph, done: set<string>, rank: map<string, nat>) {
    && rank.Keys == done
    && forall u, v | u in done && Edge(g, u, v) :: v in done && rank[v] < rank[u]
  }

  lemma {:induction false} RankFalls(g: Graph, done: set<string>, rank: map<string, nat>, c: seq<string>, i: nat)
    requires Ranked(g, done, rank) && IsWalk(g, c) && 0 < i < |c| && c[0] in done
    ensures c[i] in done && rank[c[i]] < rank[c[0]]
  {
    assert Edge(g, c[i - 1], c[i - 1 + 1]);
    if i > 1 { RankFalls(g, done, rank, c, i - 1); }
  }

  lemma RankedIsAcyclic(g: Graph, done: set<string>, rank: map<string, nat>)
    requires Ranked(g, done, rank) && g.Keys <= done
    ensures Acyclic(g)
  {
    forall c
      ensures !IsCycle(g, c)
    {
      if IsCycle(g, c) {
        assert Edge(g, c[0], c[0 + 1]);
        RankFalls(g, done, rank, c, |c| - 1);
      }
    }
  }

  // ---------------------------------------------------------------- the search

  /** One run of `detect_cycle`: the variables its inner function shares. `rank` records in which
      order nodes left the recursion stack. */
  class Search {
    const graph: Graph
    var visited: set<string>
    var recStack: set<string>
    ghost var rank: map<string, nat>
    ghost var clock: nat

    constructor (graph: Graph)
      ensures this.graph == graph && visited == {} && recStack == {} && Consistent([])
    {
      this.graph := graph;
      visited, recStack, rank, clock := {}, {}, map[], 0;
    }

    /** The recursion stack is the set of nodes on the current path, and every node that has been
        visited and left has been ranked above all its successors. */
    ghost predicate Consistent(path: seq<string>)
      reads this
    {
      && recStack == (set x | x in path) && Distinct(path) && IsWalk(graph, path)
      && recStack <= visited <= Members(graph)
      && Ranked(graph, visited - recStack, rank)
      && forall u | u in rank :: rank[u] < clock
    }

    method Dfs(node: string, path: seq<string>) returns (result: Option<seq<string>>)
      requires Consistent(path) && node in Members(graph) && node !in visited
      requires path != [] ==> Edge(graph, path[|path| - 1], node)
      modifies this
      ensures old(visited) < visited <= Members(graph)
      ensures result.None? ==> Consistent(path) && node in visited && recStack == old(recStack)
      ensures result.Some? ==> IsLasso(graph, result.value)
      decreases Members(graph) - visited
    {
      visited := visited + {node};
      recStack := recStack + {node};
      var here := path + [node];
      ExtendWalk(path, node);
      assert visited - recStack == old(visited) - old(recStack);
      if node in graph {
        var rest := graph[node];
        while rest != {}
          invariant Consistent(here) && rest <= graph[node]
          invariant old(visited) + {node} <= visited
          invariant forall v | v in graph[node] - rest :: v in visited && v !in recStack
          decreases rest
        {
          var neighbor :| neighbor in rest;
          rest := rest - {neighbor};
          assert Edge(graph, node, neighbor) && neighbor in Members(graph);
          if neighbor !in visited {
            result := Dfs(neighbor, here);
            if result.Some? { return; }
          } else if neighbor in recStack {
            CloseWalk(here, neighbor);
            return Some(here + [neighbor]);
          }
        }
      }
      Leave(node, path);
      result := None;
    }

    /** The end of a visit without a find. */
    method Leave(node: string, path: seq<string>)
      requires Consistent(path + [node])
      requires forall v | Edge(graph, node, v) :: v in visited && v !in recStack
      modifies this`recStack, this`rank, this`clock
      ensures Consistent(path) && recStack == old(recStack) - {node}
      ensures node !in (set x | x in path)
    {
      var here := path + [node];
      assert node in here;
      forall i | 0 <= i < |path|
        ensures path[i] != node
      {
        assert here[i] != here[|path|];
      }
      assert Distinct(path) by {
        forall i, j | 0 <= i < j < |path| ensures path[i] != path[j] { assert here[i] != here[j]; }
      }
      assert IsWalk(graph, path) by {
        forall i | 0 <= i < |path| - 1
          ensures Edge(graph, path[i], path[i + 1])
        {
          assert Edge(graph, here[i], here[i + 1]);
        }
      }
      assert (set x | x in here) == (set x | x in path) + {node};
      recStack := recStack - {node};
      rank := rank[node := clock];
      clock := clock + 1;
      assert visited - recStack == (visited - old(recStack)) + {node};
    }

    lemma ExtendWalk(path: seq<string>, node: string)
      requires Distinct(path) && IsWalk(graph, path) && node !in (set x | x in path)
      requires path != [] ==> Edge(graph, path[|path| - 1], node)
      ensures var here := path + [node];
              Distinct(here) && IsWalk(graph, here) && (set x | x in here) == (set x | x in path) + {node}
    {
    }

    lemma CloseWalk(here: seq<string>, neighbor: string)
      requires here != [] && Distinct(here) && IsWalk(graph, here) && neighbor in here
      requires Edge(graph, here[|here| - 1], neighbor)
      ensures IsLasso(graph, here + [neighbor])
    {
    }
  }

  // ---------------------------------------------------------------- the graph object

  class LockWaitGraph {
    var graph: Graph

    constructor ()
      ensures graph == map[]
    {
      graph := map[];
    }

    method AddEdge(waiter: string, holder: string)
      modifies this
      ensures forall a, b :: Edge(graph, a, b) <==> old(Edge(graph, a, b)) || (a == waiter && b == holder)
      ensures graph.Keys == old(graph).Keys + {waiter}
    {
      if waiter !in graph {
        graph := graph[waiter := {}];
      }
      graph := graph[waiter := graph[waiter] + {holder}];
    }

    method RemoveEdges(waiter: string)
      modifies this
      ensures forall a, b :: Edge(graph, a, b) <==> old(Edge(graph, a, b)) && a != waiter && b != waiter
      ensures graph.Keys == old(graph).Keys - {waiter}
    {
      if waiter in graph {
        graph := graph - {waiter};
      }
      var rest := graph.Keys;
      ghost var start := graph;
      while rest != {}
        invariant graph.Keys == start.Keys && rest <= graph.Keys
        invariant forall a | a in graph :: graph[a] == if a in rest then start[a] else start[a] - {waiter}
        decreases rest
      {
        var a :| a in rest;
        rest := rest - {a};
        graph := graph[a := graph[a] - {waiter}];
      }
    }

    /** Terminates on every finite graph and finds a walk into a cycle exactly when there is one. */
    method DetectCycle() returns (result: Option<seq<string>>)
      ensures result.Some? ==> IsLasso(graph, result.value)
      ensures result.None? <==> Acyclic(graph)
    {
      var search := new Search(graph);
      var rest := graph.Keys;
      while rest != {}
        invariant fresh(search) && search.graph == graph && search.Consistent([])
        invariant rest <= graph.Keys && graph.Keys - rest <= search.visited
        decreases rest
      {
        var node :| node in rest;
        rest := rest - {node};
        if node !in search.visited {
          result := search.Dfs(node, []);
          if result.Some? {
            var k := LassoHoldsCycle(graph, result.value);
            assert IsCycle(graph, result.value[k..]);
            return;
          }
        }
      }
      RankedIsAcyclic(graph, search.visited - search.recStack, search.rank);
      result := None;
    }
  }
}
