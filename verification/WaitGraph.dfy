/** The container's wait graph: blocked[a] holds b when a's constructor is
    waiting for b. Walks, cycles and what they mean, with no algorithm in sight. */
module WaitGraph {

  type Name = string
  type Graph = map<Name, set<Name>>

  function Waits(g: Graph, n: Name): set<Name> {
    if n in g then g[n] else {}
  }

  function WithEdge(g: Graph, from: Name, to: Name): Graph {
    g[from := Waits(g, from) + {to}]
  }

  function WithoutEdge(g: Graph, from: Name, to: Name): Graph {
    var rest := Waits(g, from) - {to};
    if rest == {} then g - {from} else g[from := rest]
  }

  ghost function Nodes(g: Graph): set<Name> {
    g.Keys + set a, b | a in g && b in g[a] :: b
  }

  ghost predicate IsWalk(g: Graph, p: seq<Name>) {
    p != [] && forall i :: 0 <= i < |p| - 1 ==> p[i + 1] in Waits(g, p[i])
  }

  ghost predicate IsCycle(g: Graph, p: seq<Name>) {
    |p| >= 2 && IsWalk(g, p) && p[0] == p[|p| - 1]
  }

  ghost predicate Reaches(g: Graph, a: Name, b: Name) {
    exists p :: IsWalk(g, p) && p[0] == a && p[|p| - 1] == b
  }

  ghost predicate Acyclic(g: Graph) {
    forall p :: !IsCycle(g, p)
  }

  ghost predicate CycleFrom(g: Graph, start: Name) {
    exists c :: IsCycle(g, c) && Reaches(g, start, c[0])
  }

  /** Whether the graph holds no empty set of waits: an owner that waits for
      nothing is not in the map at all. */
  predicate Compact(g: Graph) {
    forall n :: n in g ==> g[n] != {}
  }

  // ----- walks

  lemma Glue(g: Graph, p: seq<Name>, q: seq<Name>)
    requires IsWalk(g, p) && IsWalk(g, q) && p[|p| - 1] == q[0]
    ensures IsWalk(g, p + q[1..])
    ensures (p + q[1..])[0] == p[0] && (p + q[1..])[|p + q[1..]| - 1] == q[|q| - 1]
  {
    var w := p + q[1..];
    forall i | 0 <= i < |w| - 1
      ensures w[i + 1] in Waits(g, w[i])
    {
      if i >= |p| - 1 {
        assert w[i + 1] == q[i + 2 - |p|];
        assert w[i] == q[i + 1 - |p|];
      }
    }
  }

  lemma WalkExtends(g: Graph, p: seq<Name>, n: Name)
    requires p != [] ==> IsWalk(g, p) && n in Waits(g, p[|p| - 1])
    ensures IsWalk(g, p + [n])
  {
    var q := p + [n];
    forall i | 0 <= i < |q| - 1 ensures q[i + 1] in Waits(g, q[i]) {
      if i < |p| - 1 {
        assert q[i] == p[i] && q[i + 1] == p[i + 1];
      }
    }
  }

  lemma ReachesTransitive(g: Graph, a: Name, b: Name, c: Name)
    requires Reaches(g, a, b) && Reaches(g, b, c)
    ensures Reaches(g, a, c)
  {
    var p :| IsWalk(g, p) && p[0] == a && p[|p| - 1] == b;
    var q :| IsWalk(g, q) && q[0] == b && q[|q| - 1] == c;
    Glue(g, p, q);
  }

  lemma SmallerGraph(g: Graph, h: Graph)
    requires forall n :: Waits(h, n) <= Waits(g, n)
    requires Acyclic(g)
    ensures Acyclic(h)
  {
    forall p ensures !IsCycle(h, p) {
      assert IsCycle(h, p) ==> IsCycle(g, p);
    }
  }

  // ----- adding one edge

  /** A walk of the larger graph that never takes the new edge is a walk of the
      smaller one; the first time it takes it, its prefix reaches `from`. */
  lemma {:induction false} SplitAtEdge(g: Graph, from: Name, to: Name, p: seq<Name>)
    requires IsWalk(WithEdge(g, from, to), p)
    ensures IsWalk(g, p) || (Reaches(g, p[0], from) && Reaches(g, to, p[|p| - 1]))
    decreases |p|
  {
    var h := WithEdge(g, from, to);
    if !IsWalk(g, p) {
      // The first and the last use of the new edge.
      var i :| 0 <= i < |p| - 1 && p[i + 1] !in Waits(g, p[i]);
      assert p[i] == from && p[i + 1] == to;
      assert IsWalk(h, p[..i + 1]) && IsWalk(h, p[i + 1..]);
      SplitAtEdge(g, from, to, p[..i + 1]);
      SplitAtEdge(g, from, to, p[i + 1..]);
      assert p[..i + 1][0] == p[0] && p[..i + 1][i] == from;
      assert p[i + 1..][0] == to && p[i + 1..][|p| - i - 2] == p[|p| - 1];
    }
  }

  /** The one question the container has to ask before a wait starts: over an
      acyclic graph the new edge closes a cycle exactly when its target already
      reaches its source. */
  lemma EdgeClosesCycle(g: Graph, from: Name, to: Name)
    requires Acyclic(g)
    ensures Acyclic(WithEdge(g, from, to)) <==> !Reaches(g, to, from)
  {
    var h := WithEdge(g, from, to);
    if Reaches(g, to, from) {
      var p :| IsWalk(g, p) && p[0] == to && p[|p| - 1] == from;
      assert IsWalk(h, p);
      assert IsWalk(h, [from, to]);
      Glue(h, [from, to], p);
      assert IsCycle(h, [from, to] + p[1..]);
    } else {
      forall c ensures !IsCycle(h, c) {
        if IsCycle(h, c) {
          SplitAtEdge(g, from, to, c);
          assert IsCycle(g, c) || Reaches(g, c[0], from);
          if Reaches(g, c[0], from) {
            ReachesTransitive(g, to, c[0], from);
          }
        }
      }
    }
  }

  /** A cycle closed by the new edge is reachable from its target, so a search
      that starts there cannot miss it. */
  lemma NewCycleIsReachable(g: Graph, from: Name, to: Name)
    requires Acyclic(g)
    ensures CycleFrom(WithEdge(g, from, to), to) <==> !Acyclic(WithEdge(g, from, to))
  {
    var h := WithEdge(g, from, to);
    if !Acyclic(h) {
      EdgeClosesCycle(g, from, to);
      var p :| IsWalk(g, p) && p[0] == to && p[|p| - 1] == from;
      assert IsWalk(h, p);
      assert IsWalk(h, [from, to]);
      Glue(h, p, [from, to]);
      var c := p + [from, to][1..];
      assert IsCycle(h, c);
      assert IsWalk(h, [to]);
      assert Reaches(h, to, c[0]);
    }
  }

  // ----- the end of a chain of waits

  lemma WalkStaysInNodes(g: Graph, p: seq<Name>)
    requires IsWalk(g, p)
    ensures forall i :: 0 < i < |p| ==> p[i] in Nodes(g)
  {
    forall i | 0 < i < |p|
      ensures p[i] in Nodes(g)
    {
      assert p[i - 1 + 1] in Waits(g, p[i - 1]);
    }
  }

  lemma Repeats(g: Graph, p: seq<Name>, i: nat, j: nat)
    requires IsWalk(g, p) && i < j < |p| && p[i] == p[j]
    ensures !Acyclic(g)
  {
    var c := p[i..j + 1];
    forall k | 0 <= k < |c| - 1 ensures c[k + 1] in Waits(g, c[k]) {
      assert c[k] == p[i + k] && c[k + 1] == p[i + k + 1];
    }
    assert IsCycle(g, c);
  }

  /** Following waits through an acyclic graph ends at a node that waits for
      nothing. */
  lemma {:induction false} ChainEnds(g: Graph, p: seq<Name>) returns (last: Name)
    requires Acyclic(g) && IsWalk(g, p)
    ensures Reaches(g, p[0], last) && Waits(g, last) == {}
    decreases |Nodes(g) + {p[0]}| - |p|
  {
    var all := Nodes(g) + {p[0]};
    WalkStaysInNodes(g, p);
    DistinctIn(p, all, g);
    last := p[|p| - 1];
    if Waits(g, last) != {} {
      var next :| next in Waits(g, last);
      var q := p + [next];
      WalkExtends(g, p, next);
      WalkStaysInNodes(g, q);
      DistinctIn(q, all, g);
      last := ChainEnds(g, q);
    }
  }

  lemma {:induction false} DistinctIn(p: seq<Name>, all: set<Name>, g: Graph)
    requires Acyclic(g) && IsWalk(g, p) && forall i :: 0 <= i < |p| ==> p[i] in all
    ensures |p| <= |all|
  {
    if |p| > 1 {
      var n := |p| - 1;
      if p[n] in p[..n] {
        var i :| 0 <= i < n && p[i] == p[n];
        Repeats(g, p, i, n);
      }
      assert IsWalk(g, p[..n]);
      forall i | 0 <= i < n ensures p[..n][i] in all - {p[n]} {
        assert p[i] in p[..n];
      }
      DistinctIn(p[..n], all - {p[n]}, g);
    } else {
      assert p[0] in all;
      assert |all - {p[0]}| == |all| - 1;
    }
  }
}
