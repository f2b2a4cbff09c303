/** The depth-first search the container runs on every new wait. */
module CycleSearch {
  import opened Options
  import opened WaitGraph
  import opened Lexicographic

  /** A node that was left has only left nodes ahead of it, each left before it. */
  ghost predicate RankedBy(g: Graph, left: set<Name>, rank: map<Name, nat>, tick: nat) {
    && (forall n :: n in left ==> n in rank && rank[n] < tick)
    && (forall n, s :: n in left && s in Waits(g, n) ==> s in left && rank[s] < rank[n])
  }

  lemma OneMoreLeft(g: Graph, left: set<Name>, rank: map<Name, nat>, tick: nat, node: Name)
    requires RankedBy(g, left, rank, tick) && node !in left && Waits(g, node) <= left
    ensures RankedBy(g, left + {node}, rank[node := tick], tick + 1)
  {
  }

  /** One search: the path walked so far, which nodes are on it, and which were
      ever entered. `rank` numbers the nodes in the order they were left. */
  class Search {
    const graph: Graph
    var path: seq<Name>
    var onPath: set<Name>
    var visited: set<Name>
    ghost const start: Name
    ghost const all: set<Name>
    ghost var rank: map<Name, nat>
    ghost var tick: nat

    ghost function Left(): set<Name>
      reads this
    {
      visited - onPath
    }

    ghost predicate Valid()
      reads this
    {
      && (forall n :: n in onPath <==> n in path)
      && onPath <= visited <= all
      && (forall n :: n in all ==> Waits(graph, n) <= all)
      && (path != [] ==> IsWalk(graph, path) && path[0] == start)
      && RankedBy(graph, Left(), rank, tick)
    }

    constructor (g: Graph, ghost start: Name)
      ensures Valid() && graph == g && path == [] && visited == {}
      ensures this.start == start && start in all
    {
      this.start := start;
      graph := g;
      path, onPath, visited := [], {}, {};
      all := Nodes(g) + {start};
      rank, tick := map[], 0;
      new;
      forall n, s | s in Waits(graph, n) ensures s in all {
        WaitsAreNodes(graph, n, s);
      }
    }

    /** The cycle the path closes when it meets a node that is already on it. */
    method CloseCycle(node: Name) returns (cycle: seq<Name>)
      requires Valid() && node in onPath && node in Waits(graph, path[|path| - 1])
      ensures IsCycle(graph, cycle) && Reaches(graph, start, cycle[0])
    {
      var i := IndexOf(path, node);
      cycle := path[i..] + [node];
      forall k | 0 <= k < |cycle| - 1 ensures cycle[k + 1] in Waits(graph, cycle[k]) {
        if k < |path| - i - 1 {
          assert cycle[k] == path[i + k] && cycle[k + 1] == path[i + k + 1];
        }
      }
      var prefix := path[..i + 1];
      assert IsWalk(graph, prefix) && prefix[0] == path[0] && prefix[i] == cycle[0];
    }

    method Enter(node: Name)
      requires Valid() && node in all && node !in visited
      requires if path == [] then node == start else node in Waits(graph, path[|path| - 1])
      modifies this
      ensures Valid() && path == old(path) + [node] && visited == old(visited) + {node}
      ensures Left() == old(Left())
    {
      WalkExtends(graph, path, node);
      visited, onPath, path := visited + {node}, onPath + {node}, path + [node];
      assert Left() == old(Left());
    }

    method Leave(node: Name)
      requires Valid() && path != [] && node == path[|path| - 1] && node !in path[..|path| - 1]
      requires Waits(graph, node) <= Left()
      modifies this
      ensures Valid() && path == old(path)[..|old(path)| - 1] && visited == old(visited)
      ensures Left() == old(Left()) + {node}
    {
      var rest := path[..|path| - 1];
      assert path == rest + [node];
      assert rest != [] ==> IsWalk(graph, rest);
      assert forall n :: n in rest <==> n in onPath - {node};
      OneMoreLeft(graph, Left(), rank, tick, node);
      rank, tick := rank[node := tick], tick + 1;
      path, onPath := rest, onPath - {node};
      assert Left() == old(Left()) + {node};
    }

    method Walk(node: Name) returns (found: Option<seq<Name>>)
      requires Valid() && node in all
      requires if path == [] then node == start else node in Waits(graph, path[|path| - 1])
      modifies this
      ensures found.None? ==> Valid() && path == old(path) && old(visited) <= visited
      ensures found.None? ==> old(Left()) + {node} <= Left()
      ensures found.Some? ==> IsCycle(graph, found.value) && Reaches(graph, start, found.value[0])
      decreases |all - visited|, 1
    {
      if node in onPath {
        var cycle := CloseCycle(node);
        return Some(cycle);
      }
      if node in visited {
        return None;
      }
      found := Visit(node);
    }

    /** A node seen for the first time. */
    method Visit(node: Name) returns (found: Option<seq<Name>>)
      requires Valid() && node in all && node !in onPath && node !in visited
      requires if path == [] then node == start else node in Waits(graph, path[|path| - 1])
      modifies this
      ensures found.None? ==> Valid() && path == old(path) && old(visited) <= visited
      ensures found.None? ==> old(Left()) + {node} <= Left()
      ensures found.Some? ==> IsCycle(graph, found.value) && Reaches(graph, start, found.value[0])
      decreases |all - visited|, 0
    {
      LessIsLeft(all, visited, node);
      Enter(node);
      found := Follow(node, SortedNames(Waits(graph, node)));
      if found.None? {
        Leave(node);
      }
    }

    /** Walks the waits of the node the path ends in, one after another. */
    method Follow(node: Name, nexts: seq<Name>) returns (found: Option<seq<Name>>)
      requires Valid() && node in all && path != [] && path[|path| - 1] == node
      requires forall n :: n in nexts <==> n in Waits(graph, node)
      modifies this
      ensures found.None? ==> Valid() && path == old(path) && old(visited) <= visited
      ensures found.None? ==> old(Left()) <= Left() && Waits(graph, node) <= Left()
      ensures found.Some? ==> IsCycle(graph, found.value) && Reaches(graph, start, found.value[0])
      decreases |all - visited|, 2
    {
      ghost var seen := visited;
      for j := 0 to |nexts|
        invariant Valid() && path == old(path) && seen <= visited && old(Left()) <= Left()
        invariant forall k :: 0 <= k < j ==> nexts[k] in Left()
      {
        assert nexts[j] in nexts;
        SubsetSize(all - visited, all - seen);
        found := Walk(nexts[j]);
        if found.Some? {
          return;
        }
      }
      return None;
    }
  }

  lemma WaitsAreNodes(g: Graph, n: Name, s: Name)
    requires s in Waits(g, n)
    ensures s in Nodes(g)
  {
    assert s in g[n];
  }

  lemma LessIsLeft(all: set<Name>, visited: set<Name>, node: Name)
    requires node in all && node !in visited
    ensures |all - (visited + {node})| < |all - visited|
  {
    assert all - visited == (all - (visited + {node})) + {node};
  }

  lemma {:induction false} SubsetSize<T>(a: set<T>, b: set<T>)
    requires a <= b
    ensures |a| <= |b|
  {
    assert b == a + (b - a);
  }

  method IndexOf(path: seq<Name>, node: Name) returns (i: nat)
    requires node in path
    ensures i < |path| && path[i] == node && node !in path[..i]
  {
    i := 0;
    while path[i] != node
      invariant i < |path| && node !in path[..i] && node in path[i..]
      decreases |path| - i
    {
      i := i + 1;
    }
  }

  /** The walk never entered a cycle, so a numbering of what it saw exists in
      which every wait goes down; no cycle survives that. */
  lemma RankedMeansNoCycle(g: Graph, start: Name, seen: set<Name>, rank: map<Name, nat>)
    requires start in seen && forall n :: n in seen ==> n in rank
    requires forall n, s :: n in seen && s in Waits(g, n) ==> s in seen && rank[s] < rank[n]
    ensures !CycleFrom(g, start)
  {
    if CycleFrom(g, start) {
      var c :| IsCycle(g, c) && Reaches(g, start, c[0]);
      var p :| IsWalk(g, p) && p[0] == start && p[|p| - 1] == c[0];
      RankFalls(g, p, seen, rank);
      RankFalls(g, c, seen, rank);
    }
  }

  lemma {:induction false} RankFalls(g: Graph, p: seq<Name>, seen: set<Name>, rank: map<Name, nat>)
    requires IsWalk(g, p) && p[0] in seen && forall n :: n in seen ==> n in rank
    requires forall n, s :: n in seen && s in Waits(g, n) ==> s in seen && rank[s] < rank[n]
    ensures p[|p| - 1] in seen && (|p| > 1 ==> rank[p[|p| - 1]] < rank[p[0]])
    decreases |p|
  {
    if |p| > 1 {
      assert p[0 + 1] in Waits(g, p[0]);
      assert IsWalk(g, p[1..]);
      RankFalls(g, p[1..], seen, rank);
    }
  }

  /** The search is exact: nothing found means no cycle can be reached from the
      start, and what is found is a cycle along real edges that can be. */
  method CyclePath(g: Graph, start: Name) returns (found: Option<seq<Name>>)
    ensures found.None? <==> !CycleFrom(g, start)
    ensures found.Some? ==> IsCycle(g, found.value) && Reaches(g, start, found.value[0])
  {
    var search := new Search(g, start);
    found := search.Walk(start);
    if found.None? {
      ghost var seen := search.visited - search.onPath;
      forall n, s | n in seen && s in Waits(g, n)
        ensures s in seen && search.rank[s] < search.rank[n]
      {
        assert n in search.Left() && s in search.Left();
      }
      RankedMeansNoCycle(g, start, seen, search.rank);
    }
  }
}
