/**
 Finite directed graphs over node ids: walks, cycles, and the set view of a cycle
 (a non-empty set of nodes, each with a predecessor inside the set) that the
 algorithms over flows are measured against.
 */
module Digraphs {

  type NodeId = string

  ghost predicate Distinct(s: seq<NodeId>) {
    forall i, j :: 0 <= i < j < |s| ==> s[i] != s[j]
  }

  datatype Digraph = Digraph(nodes: set<NodeId>, arcs: set<(NodeId, NodeId)>)

  ghost predicate Arc(g: Digraph, a: NodeId, b: NodeId) {
    a in g.nodes && b in g.nodes && (a, b) in g.arcs
  }

  ghost predicate Walk(g: Digraph, p: seq<NodeId>) {
    && p != []
    && p[0] in g.nodes
    && forall i :: 0 <= i < |p| - 1 ==> Arc(g, p[i], p[i + 1])
  }

  /** A directed cycle; a self-loop is the walk `[v, v]`. */
  ghost predicate HasCycle(g: Digraph) {
    exists p :: Walk(g, p) && |p| >= 2 && p[0] == p[|p| - 1]
  }

  ghost predicate WalkBetween(g: Digraph, a: NodeId, b: NodeId, p: seq<NodeId>) {
    Walk(g, p) && p[0] == a && p[|p| - 1] == b
  }

  ghost predicate Reaches(g: Digraph, a: NodeId, b: NodeId) {
    exists p :: WalkBetween(g, a, b, p)
  }

  ghost predicate HasPredecessorIn(g: Digraph, s: set<NodeId>, v: NodeId) {
    exists u :: u in s && Arc(g, u, v)
  }

  ghost predicate HasSuccessorIn(g: Digraph, s: set<NodeId>, v: NodeId) {
    exists u :: u in s && Arc(g, v, u)
  }

  /** Every member of `s` has a predecessor in `s`. */
  ghost predicate BackClosed(g: Digraph, s: set<NodeId>) {
    && s != {} && s <= g.nodes
    && forall v {:trigger HasPredecessorIn(g, s, v)} :: v in s ==> HasPredecessorIn(g, s, v)
  }

  /** Every member of `s` has a successor in `s`. */
  ghost predicate ForwardClosed(g: Digraph, s: set<NodeId>) {
    && s != {} && s <= g.nodes
    && forall v {:trigger HasSuccessorIn(g, s, v)} :: v in s ==> HasSuccessorIn(g, s, v)
  }

  /** Every arc climbs: a topological numbering. */
  ghost predicate Ranked(g: Digraph, rank: map<NodeId, nat>) {
    && rank.Keys == g.nodes
    && forall a, b :: Arc(g, a, b) ==> rank[a] < rank[b]
  }

  // ----- walks -----

  lemma ReachesSelf(g: Digraph, a: NodeId)
    requires a in g.nodes
    ensures Reaches(g, a, a)
  {
    assert WalkBetween(g, a, a, [a]);
  }

  lemma ReachesStep(g: Digraph, a: NodeId, b: NodeId, c: NodeId)
    requires Reaches(g, a, b) && Arc(g, b, c)
    ensures Reaches(g, a, c)
  {
    var p :| WalkBetween(g, a, b, p);
    assert WalkBetween(g, a, c, p + [c]);
  }

  lemma ReachesBefore(g: Digraph, a: NodeId, b: NodeId, c: NodeId)
    requires Arc(g, a, b) && Reaches(g, b, c)
    ensures Reaches(g, a, c)
  {
    var p :| WalkBetween(g, b, c, p);
    assert WalkBetween(g, a, c, [a] + p);
  }

  /** A set that contains `a` and is closed under arcs contains all that `a` reaches. */
  lemma {:induction false} ClosedContains(g: Digraph, s: set<NodeId>, p: seq<NodeId>)
    requires Walk(g, p) && p[0] in s
    requires forall u, v :: u in s && Arc(g, u, v) ==> v in s
    ensures p[|p| - 1] in s
    decreases |p|
  {
    if |p| > 1 {
      assert Arc(g, p[0], p[1]);
      assert Walk(g, p[1..]) by {
        forall i | 0 <= i < |p[1..]| - 1 ensures Arc(g, p[1..][i], p[1..][i + 1]) {
          assert Arc(g, p[i + 1], p[i + 2]);
        }
      }
      ClosedContains(g, s, p[1..]);
    }
  }

  // ----- cycles -----

  /** Pigeonhole: a sequence longer than the set it draws from repeats an element. */
  lemma {:induction false} Pigeonhole(p: seq<NodeId>, s: set<NodeId>) returns (i: nat, j: nat)
    requires |p| > |s|
    requires forall k :: 0 <= k < |p| ==> p[k] in s
    ensures i < j < |p| && p[i] == p[j]
    decreases |p|
  {
    var last := p[|p| - 1];
    if k :| 0 <= k < |p| - 1 && p[k] == last {
      i, j := k, |p| - 1;
    } else {
      assert last in s;
      i, j := Pigeonhole(p[..|p| - 1], s - {last});
    }
  }

  lemma WalkSlice(g: Digraph, p: seq<NodeId>, i: nat, j: nat)
    requires Walk(g, p) && i <= j < |p|
    ensures Walk(g, p[i..j + 1])
  {
    assert i > 0 ==> Arc(g, p[i - 1], p[i]);
    var c := p[i..j + 1];
    forall k | 0 <= k < |c| - 1 ensures Arc(g, c[k], c[k + 1]) {
      assert Arc(g, p[i + k], p[i + k + 1]);
    }
  }

  lemma RepeatedNodeIsCycle(g: Digraph, p: seq<NodeId>, s: set<NodeId>)
    requires Walk(g, p) && |p| > |s|
    requires forall k :: 0 <= k < |p| ==> p[k] in s
    ensures HasCycle(g)
  {
    var i, j := Pigeonhole(p, s);
    WalkSlice(g, p, i, j);
  }

  lemma {:induction false} LongWalkBack(g: Digraph, s: set<NodeId>, n: nat) returns (p: seq<NodeId>)
    requires BackClosed(g, s) && n > 0
    ensures Walk(g, p) && |p| == n && forall k :: 0 <= k < n ==> p[k] in s
  {
    if n == 1 {
      var v :| v in s;
      p := [v];
    } else {
      var q := LongWalkBack(g, s, n - 1);
      assert HasPredecessorIn(g, s, q[0]);
      var u :| u in s && Arc(g, u, q[0]);
      p := [u] + q;
    }
  }

  lemma {:induction false} LongWalkForward(g: Digraph, s: set<NodeId>, n: nat) returns (p: seq<NodeId>)
    requires ForwardClosed(g, s) && n > 0
    ensures Walk(g, p) && |p| == n && forall k :: 0 <= k < n ==> p[k] in s
  {
    if n == 1 {
      var v :| v in s;
      p := [v];
    } else {
      var q := LongWalkForward(g, s, n - 1);
      assert HasSuccessorIn(g, s, q[n - 2]);
      var u :| u in s && Arc(g, q[n - 2], u);
      p := q + [u];
    }
  }

  lemma BackClosedHasCycle(g: Digraph, s: set<NodeId>)
    requires BackClosed(g, s)
    ensures HasCycle(g)
  {
    var p := LongWalkBack(g, s, |s| + 1);
    RepeatedNodeIsCycle(g, p, s);
  }

  lemma ForwardClosedHasCycle(g: Digraph, s: set<NodeId>)
    requires ForwardClosed(g, s)
    ensures HasCycle(g)
  {
    var p := LongWalkForward(g, s, |s| + 1);
    RepeatedNodeIsCycle(g, p, s);
  }

  lemma CycleGivesBackClosed(g: Digraph) returns (s: set<NodeId>)
    requires HasCycle(g)
    ensures BackClosed(g, s)
  {
    var p :| Walk(g, p) && |p| >= 2 && p[0] == p[|p| - 1];
    s := set i | 0 <= i < |p| :: p[i];
    assert p[0] in s;
    forall v | v in s ensures v in g.nodes && HasPredecessorIn(g, s, v) {
      var i :| 0 <= i < |p| && p[i] == v;
      var k := if i == 0 then |p| - 1 else i;
      assert Arc(g, p[k - 1], p[k]);
      assert p[k - 1] in s;
    }
  }

  // ----- topological numberings -----

  /** The subgraph on `s`. */
  ghost function Within(g: Digraph, s: set<NodeId>): Digraph {
    Digraph(s, g.arcs)
  }

  lemma {:induction false} PeelRanks(g: Digraph, s: set<NodeId>) returns (rank: map<NodeId, nat>)
    requires s <= g.nodes && !HasCycle(g)
    ensures Ranked(Within(g, s), rank)
    decreases s
  {
    if s == {} {
      rank := map[];
    } else {
      if BackClosed(g, s) { BackClosedHasCycle(g, s); }
      var v :| v in s && !HasPredecessorIn(g, s, v);
      var rest := PeelRanks(g, s - {v});
      rank := map x | x in s :: if x == v then 0 else rest[x] + 1;
      forall a, b | Arc(Within(g, s), a, b) ensures rank[a] < rank[b] {
        assert Arc(g, a, b);
        if a != v {
          assert Arc(Within(g, s - {v}), a, b);
        }
      }
    }
  }

  /** A graph has no directed cycle exactly when it has a topological numbering. */
  lemma AcyclicIffRanked(g: Digraph)
    ensures !HasCycle(g) <==> exists rank :: Ranked(g, rank)
  {
    if !HasCycle(g) {
      var rank := PeelRanks(g, g.nodes);
      assert Within(g, g.nodes) == g;
    } else if exists rank :: Ranked(g, rank) {
      var rank :| Ranked(g, rank);
      var p :| Walk(g, p) && |p| >= 2 && p[0] == p[|p| - 1];
      RankClimbs(g, rank, p);
      assert false;
    }
  }

  lemma {:induction false} RankClimbs(g: Digraph, rank: map<NodeId, nat>, p: seq<NodeId>)
    requires Ranked(g, rank) && Walk(g, p)
    ensures p[|p| - 1] in rank && rank[p[0]] + |p| - 1 <= rank[p[|p| - 1]]
    decreases |p|
  {
    if |p| > 1 {
      var q := p[..|p| - 1];
      assert Walk(g, q) by {
        forall i | 0 <= i < |q| - 1 ensures Arc(g, q[i], q[i + 1]) {
          assert Arc(g, p[i], p[i + 1]);
        }
      }
      RankClimbs(g, rank, q);
      assert Arc(g, p[|p| - 2], p[|p| - 1]);
    }
  }
}
