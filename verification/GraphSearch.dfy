/** The two graph algorithms of backend/app/workflow/validator.py: Kahn's algorithm and breadth-first search. */
module GraphSearch {
  import opened Digraphs
  import opened Flows

  // ----- counting edges -----

  /** How many edges into `t` start outside `done`; parallel edges count one by one. */
  ghost function OpenInto(edges: seq<Edge>, t: NodeId, done: set<NodeId>): nat {
    if edges == [] then 0
    else
      var last := edges[|edges| - 1];
      OpenInto(edges[..|edges| - 1], t, done) + if last.target == t && last.source !in done then 1 else 0
  }

  lemma {:induction false} OpenIntoStart(edges: seq<Edge>, t: NodeId)
    ensures OpenInto(edges, t, {}) == |EdgesInto(edges, t)|
  {
    if edges == [] {
    } else {
      OpenIntoStart(edges[..|edges| - 1], t);
    }
  }

  lemma {:induction false} OpenIntoWitness(edges: seq<Edge>, t: NodeId, done: set<NodeId>)
    ensures OpenInto(edges, t, done) > 0 <==> exists edge :: edge in edges && edge.target == t && edge.source !in done
  {
    if edges == [] {
    } else {
      var last := edges[|edges| - 1];
      assert edges == edges[..|edges| - 1] + [last];
      OpenIntoWitness(edges[..|edges| - 1], t, done);
    }
  }

  /** Finishing `v` closes exactly the edges from `v` to `t`. */
  lemma {:induction false} OpenIntoClose(edges: seq<Edge>, t: NodeId, done: set<NodeId>, v: NodeId)
    requires v !in done
    ensures OpenInto(edges, t, done) == OpenInto(edges, t, done + {v}) + OpenInto(EdgesFrom(edges, v), t, {})
  {
    if edges == [] {
    } else {
      var init, last := edges[..|edges| - 1], edges[|edges| - 1];
      OpenIntoClose(init, t, done, v);
      if last.source == v {
        var from := EdgesFrom(edges, v);
        assert from == EdgesFrom(init, v) + [last] && from[..|from| - 1] == EdgesFrom(init, v);
      } else {
        assert EdgesFrom(edges, v) == EdgesFrom(init, v);
      }
    }
  }

  lemma {:induction false} OpenIntoPrefix(edges: seq<Edge>, i: nat, t: NodeId)
    requires i <= |edges|
    ensures OpenInto(edges[..i], t, {}) <= OpenInto(edges, t, {})
  {
    if i < |edges| {
      OpenIntoPrefix(edges[..|edges| - 1], i, t);
      assert edges[..|edges| - 1][..i] == edges[..i];
    } else {
      assert edges[..i] == edges;
    }
  }

  // ----- Kahn's algorithm -----

  /** The queue holds, once each, the nodes outside `done` whose counter is zero; those in `done` stay at zero. */
  ghost predicate QueueState(ids: set<NodeId>, done: set<NodeId>, indegree: map<NodeId, int>, queue: seq<NodeId>) {
    && indegree.Keys == ids
    && (forall t :: t in queue <==> t in ids && t !in done && indegree[t] == 0)
    && (forall t :: t in done ==> t in ids && indegree[t] == 0)
    && Distinct(queue)
  }

  /** The invariant of the outer loop once `done` has been visited: the counters count the open edges. */
  ghost predicate KahnState(ids: set<NodeId>, joined: seq<Edge>, done: set<NodeId>, indegree: map<NodeId, int>, queue: seq<NodeId>) {
    && QueueState(ids, done, indegree, queue)
    && forall t :: t in ids ==> indegree[t] == OpenInto(joined, t, done)
  }

  /** The invariant of the inner loop: `out[..i]`, leaving the node just added to `done`, has been counted off. */
  ghost predicate RelaxState(ids: set<NodeId>, joined: seq<Edge>, done: set<NodeId>, out: seq<Edge>, i: nat,
                             indegree: map<NodeId, int>, queue: seq<NodeId>)
    requires i <= |out|
  {
    && QueueState(ids, done, indegree, queue)
    && forall t :: t in ids ==> indegree[t] == OpenInto(joined, t, done) + OpenInto(out, t, {}) - OpenInto(out[..i], t, {})
  }

  lemma RelaxStart(ids: set<NodeId>, joined: seq<Edge>, done: set<NodeId>, v: NodeId, out: seq<Edge>,
                   indegree: map<NodeId, int>, queue: seq<NodeId>)
    requires KahnState(ids, joined, done, indegree, queue) && queue != [] && queue[0] == v
    requires out == EdgesFrom(joined, v)
    ensures RelaxState(ids, joined, done + {v}, out, 0, indegree, queue[1..])
  {
    assert v in queue;
    forall t | t in ids ensures indegree[t] == OpenInto(joined, t, done + {v}) + OpenInto(out, t, {}) {
      OpenIntoClose(joined, t, done, v);
    }
    assert queue == [v] + queue[1..];
    assert Distinct(queue[1..]);
    forall t ensures t in queue[1..] <==> t in ids && t !in done + {v} && indegree[t] == 0 {
      assert t in queue <==> t == v || t in queue[1..];
      if t in queue[1..] {
        var k :| 0 <= k < |queue| - 1 && queue[1..][k] == t;
        assert queue[k + 1] != queue[0];
      }
    }
  }

  lemma RelaxStep(ids: set<NodeId>, joined: seq<Edge>, done: set<NodeId>, out: seq<Edge>, i: nat,
                  indegree: map<NodeId, int>, queue: seq<NodeId>)
    requires i < |out| && out[i].target in ids
    requires RelaxState(ids, joined, done, out, i, indegree, queue)
    ensures var target := out[i].target;
            var indegree' := indegree[target := indegree[target] - 1];
            RelaxState(ids, joined, done, out, i + 1, indegree', if indegree'[target] == 0 then queue + [target] else queue)
  {
    var target := out[i].target;
    var indegree' := indegree[target := indegree[target] - 1];
    var queue' := if indegree'[target] == 0 then queue + [target] else queue;
    assert out[..i + 1][..i] == out[..i];
    OpenIntoPrefix(out, i + 1, target);
    assert indegree[target] > 0;
    assert target !in queue && target !in done;
    forall t | t in ids
      ensures indegree'[t] == OpenInto(joined, t, done) + OpenInto(out, t, {}) - OpenInto(out[..i + 1], t, {})
    {
      assert OpenInto(out[..i + 1], t, {}) == OpenInto(out[..i], t, {}) + if t == target then 1 else 0;
    }
    forall t ensures t in queue' <==> t in ids && t !in done && indegree'[t] == 0 {
      assert t in queue' <==> t in queue || (t == target && indegree'[target] == 0);
    }
  }

  /** Lines 175-178: take `v` off the counters of its targets, queueing those that reach zero. */
  method Relax(ghost ids: set<NodeId>, ghost joined: seq<Edge>, ghost done: set<NodeId>, out: seq<Edge>,
               indegree0: map<NodeId, int>, queue0: seq<NodeId>)
    returns (indegree: map<NodeId, int>, queue: seq<NodeId>)
    requires forall i :: 0 <= i < |out| ==> out[i].target in ids
    requires RelaxState(ids, joined, done, out, 0, indegree0, queue0)
    ensures KahnState(ids, joined, done, indegree, queue)
  {
    indegree, queue := indegree0, queue0;
    for i := 0 to |out|
      invariant RelaxState(ids, joined, done, out, i, indegree, queue)
    {
      RelaxStep(ids, joined, done, out, i, indegree, queue);
      var target := out[i].target;
      indegree := indegree[target := indegree[target] - 1];
      if indegree[target] == 0 {
        queue := queue + [target];
      }
    }
    assert out[..|out|] == out;
  }

  /** Line 170: the nodes whose counter starts at zero, in the order of first appearance. */
  method ZeroNodes(nodes: seq<Node>, indegree: map<NodeId, int>) returns (queue: seq<NodeId>)
    requires indegree.Keys == Ids(nodes)
    ensures QueueState(Ids(nodes), {}, indegree, queue)
  {
    queue := [];
    var listed: set<NodeId> := {};
    for i := 0 to |nodes|
      invariant forall k :: 0 <= k < i ==> nodes[k].id in listed
      invariant listed <= indegree.Keys
      invariant forall t :: t in queue <==> t in listed && indegree[t] == 0
      invariant Distinct(queue)
    {
      var id := nodes[i].id;
      assert nodes[i] in nodes;
      if id !in listed && indegree[id] == 0 {
        queue := queue + [id];
      }
      listed := listed + {id};
    }
    assert listed == Ids(nodes);
  }

  /** Lines 169-170: the counters and the first queue. */
  method StartKahn(content: FlowContent, incoming: map<NodeId, seq<Edge>>, outgoing: map<NodeId, seq<Edge>>)
    returns (indegree: map<NodeId, int>, queue: seq<NodeId>)
    requires Indexed(content, |content.edges|, incoming, outgoing)
    ensures KahnState(Ids(content.nodes), JoinedEdges(Ids(content.nodes), content.edges), {}, indegree, queue)
  {
    ghost var joined := JoinedEdges(Ids(content.nodes), content.edges);
    assert content.edges[..|content.edges|] == content.edges;
    var ids := Ids(content.nodes);
    indegree := map id | id in ids :: |Bucket(incoming, id)|;
    forall t | t in ids ensures indegree[t] == OpenInto(joined, t, {}) {
      OpenIntoStart(joined, t);
      assert Bucket(incoming, t) == EdgesInto(joined, t);
    }
    queue := ZeroNodes(content.nodes, indegree);
  }

  lemma UnvisitedCycle(content: FlowContent, done: set<NodeId>, indegree: map<NodeId, int>)
    requires KahnState(Ids(content.nodes), JoinedEdges(Ids(content.nodes), content.edges), done, indegree, [])
    requires done != Ids(content.nodes)
    ensures HasCycle(GraphOf(content))
  {
    var g, joined := GraphOf(content), JoinedEdges(Ids(content.nodes), content.edges);
    var left := g.nodes - done;
    var x :| x in g.nodes && x !in done;
    assert x in left;
    JoinedMembers(g.nodes, content.edges);
    forall t | t in left ensures HasPredecessorIn(g, left, t) {
      OpenIntoWitness(joined, t, done);
      var edge :| edge in joined && edge.target == t && edge.source !in done;
      assert Arc(g, edge.source, t) by { ArcIsJoinedEdge(content, edge.source, t); }
    }
    BackClosedHasCycle(g, left);
  }

  /** A node on a cycle keeps an open edge, so it is never at the head of the queue. */
  lemma CycleNodeIsOpen(content: FlowContent, s: set<NodeId>, done: set<NodeId>, v: NodeId)
    requires BackClosed(GraphOf(content), s) && s !! done && v in s
    ensures OpenInto(JoinedEdges(Ids(content.nodes), content.edges), v, done) > 0
  {
    var g, joined := GraphOf(content), JoinedEdges(Ids(content.nodes), content.edges);
    assert HasPredecessorIn(g, s, v);
    var u :| u in s && Arc(g, u, v);
    ArcIsJoinedEdge(content, u, v);
    var edge :| edge in content.edges && Joined(Ids(content.nodes), edge) && edge.source == u && edge.target == v;
    JoinedMembers(g.nodes, content.edges);
    OpenIntoWitness(joined, v, done);
  }

  lemma OutTargets(content: FlowContent, incoming: map<NodeId, seq<Edge>>, outgoing: map<NodeId, seq<Edge>>, v: NodeId)
    requires Indexed(content, |content.edges|, incoming, outgoing)
    ensures Bucket(outgoing, v) == EdgesFrom(JoinedEdges(Ids(content.nodes), content.edges), v)
    ensures forall i :: 0 <= i < |Bucket(outgoing, v)| ==>
              Bucket(outgoing, v)[i].source == v && Arc(GraphOf(content), v, Bucket(outgoing, v)[i].target)
  {
    var ids := Ids(content.nodes);
    var joined := JoinedEdges(ids, content.edges);
    assert content.edges[..|content.edges|] == content.edges;
    JoinedMembers(ids, content.edges);
    FromMembers(joined, v);
    forall edge | edge in EdgesFrom(joined, v) ensures edge.source == v && Arc(GraphOf(content), v, edge.target) {
      assert Joined(ids, edge) && edge in content.edges;
      ArcIsJoinedEdge(content, v, edge.target);
    }
  }

  /** Every node of `s`, the nodes of a cycle, is still to be visited. */
  ghost predicate CycleAhead(content: FlowContent, s: set<NodeId>, done: set<NodeId>) {
    if HasCycle(GraphOf(content)) then BackClosed(GraphOf(content), s) && s !! done else s == {}
  }

  lemma KahnStep(content: FlowContent, s: set<NodeId>, incoming: map<NodeId, seq<Edge>>, outgoing: map<NodeId, seq<Edge>>,
                 done: set<NodeId>, indegree: map<NodeId, int>, queue: seq<NodeId>)
    requires Indexed(content, |content.edges|, incoming, outgoing)
    requires KahnState(Ids(content.nodes), JoinedEdges(Ids(content.nodes), content.edges), done, indegree, queue)
    requires queue != [] && CycleAhead(content, s, done)
    ensures var v := queue[0];
            var out := Bucket(outgoing, v);
            && v !in done && |done| < |Ids(content.nodes)|
            && (forall i :: 0 <= i < |out| ==> out[i].target in Ids(content.nodes))
            && RelaxState(Ids(content.nodes), JoinedEdges(Ids(content.nodes), content.edges), done + {v}, out, 0, indegree, queue[1..])
            && CycleAhead(content, s, done + {v})
  {
    var v := queue[0];
    assert v in queue;
    if v in s { CycleNodeIsOpen(content, s, done, v); }
    OutTargets(content, incoming, outgoing, v);
    RelaxStart(Ids(content.nodes), JoinedEdges(Ids(content.nodes), content.edges), done, v, Bucket(outgoing, v), indegree, queue);
    SubsetSize(done + {v}, Ids(content.nodes));
  }

  lemma KahnEnd(content: FlowContent, s: set<NodeId>, done: set<NodeId>, indegree: map<NodeId, int>)
    requires KahnState(Ids(content.nodes), JoinedEdges(Ids(content.nodes), content.edges), done, indegree, [])
    requires CycleAhead(content, s, done)
    ensures |done| != |Ids(content.nodes)| <==> HasCycle(GraphOf(content))
  {
    if HasCycle(GraphOf(content)) {
      var x :| x in s;
      assert x in Ids(content.nodes) && x !in done;
    }
    if done != Ids(content.nodes) {
      UnvisitedCycle(content, done, indegree);
      SameSize(done, Ids(content.nodes));
    }
  }

  /** Lines 169-179: the visit leaves nodes out exactly when the graph has a directed cycle. */
  method Kahn(content: FlowContent, ghost incoming: map<NodeId, seq<Edge>>, outgoing: map<NodeId, seq<Edge>>, indegree0: map<NodeId, int>, queue0: seq<NodeId>)
    returns (visited: seq<NodeId>)
    requires Indexed(content, |content.edges|, incoming, outgoing)
    requires KahnState(Ids(content.nodes), JoinedEdges(Ids(content.nodes), content.edges), {}, indegree0, queue0)
    ensures |visited| != |Ids(content.nodes)| <==> HasCycle(GraphOf(content))
  {
    var indegree, queue := indegree0, queue0;
    visited := [];
    ghost var done: set<NodeId> := {};
    ghost var s: set<NodeId> := {};
    if HasCycle(GraphOf(content)) {
      s := CycleGivesBackClosed(GraphOf(content));
    }
    while queue != []
      invariant KahnState(Ids(content.nodes), JoinedEdges(Ids(content.nodes), content.edges), done, indegree, queue)
      invariant |done| == |visited| && CycleAhead(content, s, done)
      decreases |Ids(content.nodes)| - |done|
    {
      KahnStep(content, s, incoming, outgoing, done, indegree, queue);
      var node := queue[0];
      visited := visited + [node];
      done := done + {node};
      indegree, queue := Relax(Ids(content.nodes), JoinedEdges(Ids(content.nodes), content.edges), done, Bucket(outgoing, node), indegree, queue[1..]);
    }
    KahnEnd(content, s, done, indegree);
  }

  lemma {:induction false} SubsetSize(a: set<NodeId>, b: set<NodeId>)
    requires a <= b
    ensures |a| <= |b|
  {
    if a != {} {
      var x :| x in a;
      SubsetSize(a - {x}, b - {x});
    }
  }

  lemma SameSize(a: set<NodeId>, b: set<NodeId>)
    requires a <= b && a != b
    ensures |a| < |b|
  {
    var x :| x in b && x !in a;
    SubsetSize(a, b - {x});
  }

  // ----- breadth-first search -----

  /** The search invariant: everything reached so far is genuine, and only queued nodes still have unexplored arcs. */
  ghost predicate SearchState(g: Digraph, start: NodeId, reachable: set<NodeId>, queue: seq<NodeId>) {
    && start in reachable && reachable <= g.nodes
    && (forall id :: id in queue ==> id in reachable)
    && (forall id :: id in reachable ==> Reaches(g, start, id))
    && forall u, v :: u in reachable && u !in queue && Arc(g, u, v) ==> v in reachable
  }

  /** Lines 187-190: queue the targets of the popped node that were not reached before. */
  method Expand(ghost g: Digraph, ghost start: NodeId, node: NodeId, out: seq<Edge>, reachable0: set<NodeId>, queue0: seq<NodeId>)
    returns (reachable: set<NodeId>, queue: seq<NodeId>)
    requires SearchState(g, start, reachable0, [node] + queue0)
    requires forall i :: 0 <= i < |out| ==> Arc(g, node, out[i].target)
    requires forall v :: Arc(g, node, v) ==> exists i :: 0 <= i < |out| && out[i].target == v
    ensures SearchState(g, start, reachable, queue)
    ensures |reachable0| < |reachable| || (reachable == reachable0 && queue == queue0)
  {
    assert node in [node] + queue0;
    assert forall id :: id in queue0 ==> id in [node] + queue0;
    reachable, queue := reachable0, queue0;
    for i := 0 to |out|
      invariant reachable0 <= reachable <= g.nodes
      invariant forall id :: id in queue <==> id in queue0 || (id in reachable && id !in reachable0)
      invariant forall id :: id in reachable ==> Reaches(g, start, id)
      invariant forall k :: 0 <= k < i ==> out[k].target in reachable
      invariant |reachable| > |reachable0| || (reachable == reachable0 && queue == queue0)
    {
      var target := out[i].target;
      if target !in reachable {
        ReachesStep(g, start, node, target);
        SubsetSize(reachable0, reachable);
        reachable := reachable + {target};
        queue := queue + [target];
      }
    }
    forall u, v | u in reachable && u !in queue && Arc(g, u, v) ensures v in reachable {
      if u != node {
        assert u in reachable0 && u !in [node] + queue0;
      }
    }
  }

  lemma OutComplete(content: FlowContent, incoming: map<NodeId, seq<Edge>>, outgoing: map<NodeId, seq<Edge>>, v: NodeId, w: NodeId)
    requires Indexed(content, |content.edges|, incoming, outgoing)
    requires Arc(GraphOf(content), v, w)
    ensures exists i :: 0 <= i < |Bucket(outgoing, v)| && Bucket(outgoing, v)[i].target == w
  {
    OutTargets(content, incoming, outgoing, v);
    var joined := JoinedEdges(Ids(content.nodes), content.edges);
    ArcIsJoinedEdge(content, v, w);
    var edge :| edge in content.edges && Joined(Ids(content.nodes), edge) && edge.source == v && edge.target == w;
    JoinedMembers(Ids(content.nodes), content.edges);
    FromMembers(joined, v);
    assert edge in Bucket(outgoing, v);
  }

  /** Lines 183-190: the set collected is exactly what a walk from `start` can reach. */
  method ReachableFrom(content: FlowContent, ghost incoming: map<NodeId, seq<Edge>>, outgoing: map<NodeId, seq<Edge>>, start: NodeId)
    returns (reachable: set<NodeId>)
    requires Indexed(content, |content.edges|, incoming, outgoing)
    requires start in Ids(content.nodes)
    ensures forall id :: id in reachable <==> Reaches(GraphOf(content), start, id)
  {
    ghost var g := GraphOf(content);
    reachable := {start};
    var queue := [start];
    ReachesSelf(g, start);
    while queue != []
      invariant SearchState(g, start, reachable, queue)
      decreases |g.nodes| - |reachable|, |queue|
    {
      var node := queue[0];
      assert queue == [node] + queue[1..];
      OutTargets(content, incoming, outgoing, node);
      forall v | Arc(g, node, v) ensures exists i :: 0 <= i < |Bucket(outgoing, node)| && Bucket(outgoing, node)[i].target == v {
        OutComplete(content, incoming, outgoing, node, v);
      }
      reachable, queue := Expand(g, start, node, Bucket(outgoing, node), reachable, queue[1..]);
      SubsetSize(reachable, g.nodes);
    }
    forall id | Reaches(g, start, id) ensures id in reachable {
      var p :| WalkBetween(g, start, id, p);
      ClosedContains(g, reachable, p);
    }
  }
}
