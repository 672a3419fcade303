/**
 `validate_flow` (backend/app/workflow/validator.py) as a whole, and what the absence of issues means for the graph.
 */
module Validator {
  import opened Wrappers
  import opened Digraphs
  import opened Flows
  import opened GraphSearch
  import opened ValidatorRules

  lemma IdsSnoc(init: seq<Node>, last: Node)
    ensures Ids(init + [last]) == Ids(init) + {last.id}
  {
  }

  lemma RepeatedIdSnoc(init: seq<Node>, last: Node)
    ensures RepeatedId(init + [last]) <==> RepeatedId(init) || last.id in Ids(init)
  {
    var nodes := init + [last];
    if RepeatedId(init) {
      var i, j :| 0 <= i < j < |init| && init[i].id == init[j].id;
      assert nodes[i].id == nodes[j].id;
    } else if last.id in Ids(init) {
      var i :| 0 <= i < |init| && init[i].id == last.id;
      assert nodes[i].id == nodes[|init|].id;
    }
  }

  /** Counting dictionary keys finds a repeated id. */
  lemma {:induction false} RepeatedIdShrinks(nodes: seq<Node>)
    ensures |Ids(nodes)| <= |nodes|
    ensures |Ids(nodes)| != |nodes| <==> RepeatedId(nodes)
  {
    if nodes == [] {
      assert Ids(nodes) == {};
    } else {
      var init, last := nodes[..|nodes| - 1], nodes[|nodes| - 1];
      RepeatedIdShrinks(init);
      assert nodes == init + [last];
      IdsSnoc(init, last);
      RepeatedIdSnoc(init, last);
    }
  }

  /** Lines 36-48. */
  method CheckCounts(content: FlowContent) returns (issues: seq<Issue>)
    ensures forall issue :: issue in issues <==> RaisedByCounts(content, issue)
  {
    RepeatedIdShrinks(content.nodes);
    issues := CountIssues(|ById(content.nodes).Keys| != |content.nodes|,
                          |OfType(content.nodes, "start")|, |OfType(content.nodes, "end")|);
  }

  method CountIssues(duplicates: bool, starts: nat, ends: nat) returns (issues: seq<Issue>)
    ensures forall issue :: issue in issues <==>
              && issue.nodeId == None
              && ((issue.code == DuplicateNodeId && duplicates) || (issue.code == StartCount && starts != 1) || (issue.code == EndCount && ends == 0))
  {
    issues := if duplicates then [Issue(DuplicateNodeId, None)] else [];
    if starts != 1 {
      issues := issues + [Issue(StartCount, None)];
    }
    if ends == 0 {
      issues := issues + [Issue(EndCount, None)];
    }
  }

  /** Lines 169-180. */
  method CheckCycles(content: FlowContent, ghost incoming: map<NodeId, seq<Edge>>, outgoing: map<NodeId, seq<Edge>>,
                     indegree: map<NodeId, int>, queue: seq<NodeId>)
    returns (issues: seq<Issue>)
    requires Indexed(content, |content.edges|, incoming, outgoing)
    requires KahnState(Ids(content.nodes), JoinedEdges(Ids(content.nodes), content.edges), {}, indegree, queue)
    ensures issues == if HasCycle(GraphOf(content)) then [Issue(Cycle, None)] else []
  {
    var visited := Kahn(content, incoming, outgoing, indegree, queue);
    issues := if |visited| != |Ids(content.nodes)| then [Issue(Cycle, None)] else [];
  }

  /** Lines 182-196. */
  method CheckReachable(content: FlowContent, ghost incoming: map<NodeId, seq<Edge>>, outgoing: map<NodeId, seq<Edge>>)
    returns (issues: seq<Issue>)
    requires Indexed(content, |content.edges|, incoming, outgoing)
    ensures forall issue :: issue in issues <==> issue.code == Unreachable && RaisedByGraph(content, issue)
  {
    var starts := OfType(content.nodes, "start");
    if starts == [] {
      return [];
    }
    OfTypeMembers(content.nodes, "start");
    assert starts[0] in starts;
    var reachable := ReachableFrom(content, incoming, outgoing, starts[0].id);
    issues := UnreachableIssues(Ids(content.nodes) - reachable);
  }

  /** Lines 169-196. */
  method CheckGraph(content: FlowContent, incoming: map<NodeId, seq<Edge>>, outgoing: map<NodeId, seq<Edge>>)
    returns (issues: seq<Issue>)
    requires Indexed(content, |content.edges|, incoming, outgoing)
    ensures forall issue :: issue in issues <==> RaisedByGraph(content, issue)
  {
    var indegree, queue := StartKahn(content, incoming, outgoing);
    var cycles := CheckCycles(content, incoming, outgoing, indegree, queue);
    var lost := CheckReachable(content, incoming, outgoing);
    issues := cycles + lost;
  }

  /** Lines 191-196; the set has no order of its own. */
  method UnreachableIssues(ids: set<NodeId>) returns (issues: seq<Issue>)
    ensures forall issue :: issue in issues <==> issue.code == Unreachable && issue.nodeId.Some? && issue.nodeId.value in ids
  {
    issues := [];
    var left := ids;
    while left != {}
      invariant left <= ids
      invariant forall issue :: issue in issues <==>
                  issue.code == Unreachable && issue.nodeId.Some? && issue.nodeId.value in ids && issue.nodeId.value !in left
    {
      var id :| id in left;
      issues := issues + [Issue(Unreachable, Some(id))];
      left := left - {id};
    }
  }

  /** `validate_flow` reports an issue exactly when the flow raises it. */
  method ValidateFlow(registry: Registry, content: FlowContent) returns (issues: seq<Issue>)
    ensures forall issue :: issue in issues <==> Raises(registry, content, issue)
    ensures issues == [] <==> Accepted(registry, content)
  {
    issues := CheckCounts(content);
    var incoming, outgoing, edgeIssues := IndexEdges(registry, content);
    var nodeIssues := CheckNodes(registry, content, incoming, outgoing);
    var graphIssues := CheckGraph(content, incoming, outgoing);
    issues := issues + edgeIssues + nodeIssues + graphIssues;
    if issues != [] {
      assert issues[0] in issues;
    }
  }

  // ----- what acceptance means -----

  /** The structural facts the executor relies on. */
  ghost predicate WellFormed(content: FlowContent) {
    var ids := Ids(content.nodes);
    && |OfType(content.nodes, "start")| == 1
    && OfType(content.nodes, "end") != []
    && !RepeatedId(content.nodes)
    && (forall edge :: edge in content.edges ==> Joined(ids, edge))
    && (forall node :: node in content.nodes ==> (node.data.nodeType == "start" <==> !HasInput(content, node.id)))
    && (forall node :: node in content.nodes ==> (node.data.nodeType == "end" <==> !HasOutput(content, node.id)))
    && (forall node :: node in content.nodes && node.data.nodeType == "condition" ==>
          HasBranch(content, node.id, "true") && HasBranch(content, node.id, "false"))
    && !HasCycle(GraphOf(content))
  }

  ghost predicate Silent(registry: Registry, content: FlowContent, code: Code) {
    forall nodeId :: !Raises(registry, content, Issue(code, nodeId))
  }

  lemma SilentNode(registry: Registry, content: FlowContent, code: Code, node: Node)
    requires Silent(registry, content, code) && node in content.nodes
    ensures !NodeRule(registry, content, node, code)
  {
    assert !Raises(registry, content, Issue(code, Some(node.id)));
  }

  lemma SilentEdge(registry: Registry, content: FlowContent, edge: Edge)
    requires Silent(registry, content, InvalidEdge) && edge in content.edges
    ensures Joined(Ids(content.nodes), edge)
  {
    var j :| 0 <= j < |content.edges| && content.edges[j] == edge;
    assert !Raises(registry, content, Issue(InvalidEdge, None));
    assert !RaisedByEdges(registry, content, |content.edges|, Issue(InvalidEdge, None));
    assert !RaisedByEdge(registry, ById(content.nodes), content.edges, j, Issue(InvalidEdge, None));
  }

  lemma SilentCycle(registry: Registry, content: FlowContent)
    requires Silent(registry, content, Cycle)
    ensures !HasCycle(GraphOf(content))
  {
    assert !Raises(registry, content, Issue(Cycle, None));
    assert !RaisedByGraph(content, Issue(Cycle, None));
  }

  lemma SilentStarts(registry: Registry, content: FlowContent)
    requires Silent(registry, content, StartCount)
    ensures |OfType(content.nodes, "start")| == 1
  {
    assert !Raises(registry, content, Issue(StartCount, None));
    assert !RaisedByCounts(content, Issue(StartCount, None));
  }

  lemma SilentEnds(registry: Registry, content: FlowContent)
    requires Silent(registry, content, EndCount) && Silent(registry, content, DuplicateNodeId)
    ensures OfType(content.nodes, "end") != [] && !RepeatedId(content.nodes)
  {
    assert !Raises(registry, content, Issue(EndCount, None));
    assert !RaisedByCounts(content, Issue(EndCount, None));
    assert !Raises(registry, content, Issue(DuplicateNodeId, None));
    assert !RaisedByCounts(content, Issue(DuplicateNodeId, None));
  }

  lemma AcceptedIsSilent(registry: Registry, content: FlowContent, code: Code)
    requires Accepted(registry, content)
    ensures Silent(registry, content, code)
  {
  }

  lemma AcceptedNode(registry: Registry, content: FlowContent, node: Node)
    requires Accepted(registry, content) && node in content.nodes
    ensures node.data.nodeType == "start" <==> !HasInput(content, node.id)
    ensures node.data.nodeType == "end" <==> !HasOutput(content, node.id)
    ensures node.data.nodeType == "condition" ==> HasBranch(content, node.id, "true") && HasBranch(content, node.id, "false")
  {
    forall code ensures !NodeRule(registry, content, node, code) {
      AcceptedIsSilent(registry, content, code);
      SilentNode(registry, content, code, node);
    }
    assert !NodeRule(registry, content, node, UnknownNodeType);
    assert !NodeRule(registry, content, node, StartHasInput) && !NodeRule(registry, content, node, MissingInput);
    assert !NodeRule(registry, content, node, EndHasOutput) && !NodeRule(registry, content, node, MissingOutput);
    assert !NodeRule(registry, content, node, IncompleteCondition);
  }

  lemma AcceptedIsWellFormed(registry: Registry, content: FlowContent)
    requires Accepted(registry, content)
    ensures WellFormed(content)
  {
    forall code ensures Silent(registry, content, code) { AcceptedIsSilent(registry, content, code); }
    SilentStarts(registry, content);
    SilentEnds(registry, content);
    SilentCycle(registry, content);
    forall edge | edge in content.edges ensures Joined(Ids(content.nodes), edge) {
      SilentEdge(registry, content, edge);
    }
    forall node | node in content.nodes
      ensures node.data.nodeType == "start" <==> !HasInput(content, node.id)
      ensures node.data.nodeType == "end" <==> !HasOutput(content, node.id)
      ensures node.data.nodeType == "condition" ==> HasBranch(content, node.id, "true") && HasBranch(content, node.id, "false")
    {
      AcceptedNode(registry, content, node);
    }
  }

  // ----- ports -----

  /** The definition of the node that the edge leaves, or enters, where its implementation is known. */
  ghost predicate LeavesThroughNoPort(registry: Registry, content: FlowContent, edge: Edge, id: NodeId) {
    && edge in content.edges && edge.source == id && id in Ids(content.nodes) && edge.target in Ids(content.nodes)
    && var data := ById(content.nodes)[id].data;
       && (data.nodeType, data.nodeVersion) in registry.definitions
       && (edge.sourceHandle == None || edge.sourceHandle.value !in registry.definitions[(data.nodeType, data.nodeVersion)].outputs)
  }

  ghost predicate EntersThroughNoPort(registry: Registry, content: FlowContent, edge: Edge, id: NodeId) {
    && edge in content.edges && edge.target == id && id in Ids(content.nodes) && edge.source in Ids(content.nodes)
    && var data := ById(content.nodes)[id].data;
       && (data.nodeType, data.nodeVersion) in registry.definitions
       && (edge.targetHandle == None || edge.targetHandle.value !in registry.definitions[(data.nodeType, data.nodeVersion)].inputs)
  }

  lemma OnlyEdgesRaisePortIssues(registry: Registry, content: FlowContent, code: Code, id: NodeId)
    requires code == InvalidSourcePort || code == InvalidTargetPort
    ensures Raises(registry, content, Issue(code, Some(id))) <==> RaisedByEdges(registry, content, |content.edges|, Issue(code, Some(id)))
  {
  }

  /** INVALID_SOURCE_PORT is raised for a known node exactly if an edge leaves it without a port that its implementation offers. */
  lemma SourcePortIssueIff(registry: Registry, content: FlowContent, id: NodeId)
    ensures Raises(registry, content, Issue(InvalidSourcePort, Some(id))) <==> exists edge :: LeavesThroughNoPort(registry, content, edge, id)
  {
    var issue := Issue(InvalidSourcePort, Some(id));
    OnlyEdgesRaisePortIssues(registry, content, InvalidSourcePort, id);
    forall j | 0 <= j < |content.edges|
      ensures RaisedByEdge(registry, ById(content.nodes), content.edges, j, issue) <==> LeavesThroughNoPort(registry, content, content.edges[j], id) {
    }
    if RaisedByEdges(registry, content, |content.edges|, issue) {
      var j :| 0 <= j < |content.edges| && RaisedByEdge(registry, ById(content.nodes), content.edges, j, issue);
      assert LeavesThroughNoPort(registry, content, content.edges[j], id);
    }
    if edge :| LeavesThroughNoPort(registry, content, edge, id) {
      var j :| 0 <= j < |content.edges| && content.edges[j] == edge;
      assert RaisedByEdge(registry, ById(content.nodes), content.edges, j, issue);
    }
  }

  /** And INVALID_TARGET_PORT exactly if an edge enters it without one. */
  lemma TargetPortIssueIff(registry: Registry, content: FlowContent, id: NodeId)
    ensures Raises(registry, content, Issue(InvalidTargetPort, Some(id))) <==> exists edge :: EntersThroughNoPort(registry, content, edge, id)
  {
    var issue := Issue(InvalidTargetPort, Some(id));
    OnlyEdgesRaisePortIssues(registry, content, InvalidTargetPort, id);
    forall j | 0 <= j < |content.edges|
      ensures RaisedByEdge(registry, ById(content.nodes), content.edges, j, issue) <==> EntersThroughNoPort(registry, content, content.edges[j], id) {
    }
    if RaisedByEdges(registry, content, |content.edges|, issue) {
      var j :| 0 <= j < |content.edges| && RaisedByEdge(registry, ById(content.nodes), content.edges, j, issue);
      assert EntersThroughNoPort(registry, content, content.edges[j], id);
    }
    if edge :| EntersThroughNoPort(registry, content, edge, id) {
      var j :| 0 <= j < |content.edges| && content.edges[j] == edge;
      assert RaisedByEdge(registry, ById(content.nodes), content.edges, j, issue);
    }
  }

  // ----- acceptance, exactly -----

  /** Every node is of a known implementation whose schema its configuration meets. */
  ghost predicate NodesFit(registry: Registry, content: FlowContent) {
    forall node :: node in content.nodes ==>
      var key := (node.data.nodeType, node.data.nodeVersion);
      key in registry.definitions && registry.configErrors(key, node.data.config) == 0
  }

  ghost predicate PortsExist(registry: Registry, content: FlowContent) {
    forall edge, id :: !LeavesThroughNoPort(registry, content, edge, id) && !EntersThroughNoPort(registry, content, edge, id)
  }

  ghost predicate DistinctEdgeIds(content: FlowContent) {
    forall i, j :: 0 <= i < j < |content.edges| ==> content.edges[i].id != content.edges[j].id
  }

  lemma AcceptedNodesFit(registry: Registry, content: FlowContent)
    requires Accepted(registry, content)
    ensures NodesFit(registry, content)
  {
    AcceptedIsSilent(registry, content, UnknownNodeType);
    AcceptedIsSilent(registry, content, InvalidNodeConfig);
    forall node | node in content.nodes
      ensures var key := (node.data.nodeType, node.data.nodeVersion); key in registry.definitions && registry.configErrors(key, node.data.config) == 0
    {
      SilentNode(registry, content, UnknownNodeType, node);
      SilentNode(registry, content, InvalidNodeConfig, node);
    }
  }

  lemma AcceptedPortsExist(registry: Registry, content: FlowContent)
    requires Accepted(registry, content)
    ensures PortsExist(registry, content)
  {
    forall edge, id ensures !LeavesThroughNoPort(registry, content, edge, id) && !EntersThroughNoPort(registry, content, edge, id) {
      SourcePortIssueIff(registry, content, id);
      TargetPortIssueIff(registry, content, id);
    }
  }

  lemma AcceptedEdgeIdsAreDistinct(registry: Registry, content: FlowContent)
    requires Accepted(registry, content)
    ensures DistinctEdgeIds(content)
  {
    assert !Raises(registry, content, Issue(DuplicateEdgeId, None));
    assert !RaisedByEdges(registry, content, |content.edges|, Issue(DuplicateEdgeId, None));
    forall i, j | 0 <= i < j < |content.edges| ensures content.edges[i].id != content.edges[j].id {
      assert !RaisedByEdge(registry, ById(content.nodes), content.edges, j, Issue(DuplicateEdgeId, None));
    }
  }

  lemma EdgesRaiseNothing(registry: Registry, content: FlowContent, issue: Issue)
    requires forall edge :: edge in content.edges ==> Joined(Ids(content.nodes), edge)
    requires PortsExist(registry, content) && DistinctEdgeIds(content)
    ensures !RaisedByEdges(registry, content, |content.edges|, issue)
  {
    forall j | 0 <= j < |content.edges| ensures !RaisedByEdge(registry, ById(content.nodes), content.edges, j, issue) {
      var edge := content.edges[j];
      assert edge in content.edges && Joined(Ids(content.nodes), edge);
      assert !LeavesThroughNoPort(registry, content, edge, edge.source) && !EntersThroughNoPort(registry, content, edge, edge.target);
    }
  }

  lemma NodeRaisesNothing(registry: Registry, content: FlowContent, node: Node, code: Code)
    requires WellFormed(content) && NodesFit(registry, content) && node in content.nodes
    ensures !NodeRule(registry, content, node, code)
  {
  }

  lemma NodesRaiseNothing(registry: Registry, content: FlowContent, issue: Issue)
    requires WellFormed(content) && NodesFit(registry, content)
    ensures !RaisedByNode(registry, content, content.nodes, issue)
  {
    forall node | node in content.nodes ensures !NodeRule(registry, content, node, issue.code) {
      NodeRaisesNothing(registry, content, node, issue.code);
    }
  }

  lemma CountsRaiseNothing(content: FlowContent, issue: Issue)
    requires WellFormed(content)
    ensures !RaisedByCounts(content, issue)
  {
  }

  lemma WellFormedGraphRaisesNothing(content: FlowContent, issue: Issue)
    requires WellFormed(content)
    ensures !RaisedByGraph(content, issue)
  {
    var starts := OfType(content.nodes, "start");
    OfTypeMembers(content.nodes, "start");
    assert starts[0] in starts;
    assert starts == [starts[0]];
    forall id | id in Ids(content.nodes) && id != starts[0].id ensures HasInput(content, id) {
      var node :| node in content.nodes && node.id == id;
      assert node !in starts;
    }
    AllReached(content, starts[0].id);
  }

  /**
   What may be published, exactly: known and well configured nodes with distinct ids; edges with distinct ids between existing
   nodes, from a port the source offers to one the target offers; one Start, an End; inputs and outputs where they belong,
   both branches of every condition, and no cycle.
   */
  lemma AcceptedIff(registry: Registry, content: FlowContent)
    ensures Accepted(registry, content) <==>
            WellFormed(content) && NodesFit(registry, content) && PortsExist(registry, content) && DistinctEdgeIds(content)
  {
    if Accepted(registry, content) {
      AcceptedIsWellFormed(registry, content);
      AcceptedNodesFit(registry, content);
      AcceptedPortsExist(registry, content);
      AcceptedEdgeIdsAreDistinct(registry, content);
    }
    if WellFormed(content) && NodesFit(registry, content) && PortsExist(registry, content) && DistinctEdgeIds(content) {
      forall issue ensures !Raises(registry, content, issue) {
        CountsRaiseNothing(content, issue);
        EdgesRaiseNothing(registry, content, issue);
        NodesRaiseNothing(registry, content, issue);
        WellFormedGraphRaisesNothing(content, issue);
      }
    }
  }

  // ----- the UNREACHABLE check -----

  ghost predicate StartsAt(content: FlowContent, id: NodeId) {
    exists node :: node in content.nodes && node.data.nodeType == "start" && node.id == id
  }

  ghost predicate EndsAt(content: FlowContent, id: NodeId) {
    exists node :: node in content.nodes && node.data.nodeType == "end" && node.id == id
  }

  ghost predicate ReachesAnEnd(content: FlowContent, id: NodeId) {
    exists end :: end in content.nodes && end.data.nodeType == "end" && Reaches(GraphOf(content), id, end.id)
  }

  lemma OneStart(registry: Registry, content: FlowContent) returns (start: Node)
    requires Silent(registry, content, StartCount)
    ensures OfType(content.nodes, "start") == [start] && start in content.nodes
    ensures forall id :: StartsAt(content, id) <==> id == start.id
  {
    SilentStarts(registry, content);
    var starts := OfType(content.nodes, "start");
    start := starts[0];
    OfTypeMembers(content.nodes, "start");
    assert start in starts && starts == [start];
  }

  lemma UnreachableIsRaisedFor(registry: Registry, content: FlowContent, start: Node, id: NodeId)
    requires OfType(content.nodes, "start") == [start]
    ensures Raises(registry, content, Issue(Unreachable, Some(id))) <==>
            id in Ids(content.nodes) && !Reaches(GraphOf(content), start.id, id)
  {
    var issue := Issue(Unreachable, Some(id));
    assert !RaisedByCounts(content, issue) && !RaisedByEdges(registry, content, |content.edges|, issue);
    assert !RaisedByNode(registry, content, content.nodes, issue);
  }

  lemma UnreachableNamesANode(registry: Registry, content: FlowContent)
    ensures !Raises(registry, content, Issue(Unreachable, None))
  {
  }

  /** What is reached from elsewhere has an edge into it. */
  lemma ReachedHasInput(content: FlowContent, a: NodeId, b: NodeId)
    requires Reaches(GraphOf(content), a, b) && a != b
    ensures HasInput(content, b)
  {
    var p :| WalkBetween(GraphOf(content), a, b, p);
    assert Arc(GraphOf(content), p[|p| - 2], p[|p| - 2 + 1]);
    ArcIsJoinedEdge(content, p[|p| - 2], b);
  }

  lemma ReachingHasOutput(content: FlowContent, a: NodeId, b: NodeId)
    requires Reaches(GraphOf(content), a, b) && a != b
    ensures HasOutput(content, a)
  {
    var p :| WalkBetween(GraphOf(content), a, b, p);
    assert Arc(GraphOf(content), p[0], p[0 + 1]);
    ArcIsJoinedEdge(content, a, p[1]);
  }

  lemma AllReached(content: FlowContent, start: NodeId)
    requires start in Ids(content.nodes) && !HasCycle(GraphOf(content))
    requires forall id :: id in Ids(content.nodes) && id != start ==> HasInput(content, id)
    ensures forall id :: id in Ids(content.nodes) ==> Reaches(GraphOf(content), start, id)
  {
    var g := GraphOf(content);
    var lost := set id | id in g.nodes && !Reaches(g, start, id);
    ReachesSelf(g, start);
    forall id | id in lost ensures HasPredecessorIn(g, lost, id) {
      var edge :| edge in content.edges && Joined(g.nodes, edge) && edge.target == id;
      ArcIsJoinedEdge(content, edge.source, id);
      if Reaches(g, start, edge.source) { ReachesStep(g, start, edge.source, id); }
    }
    if lost != {} {
      BackClosedHasCycle(g, lost);
    }
    forall id | id in Ids(content.nodes) ensures Reaches(g, start, id) {
      assert id !in lost;
    }
  }

  /**
   With one Start and no cycle, the breadth-first search is a degree check in disguise: no node is unreachable
   exactly when every id but the Start's has an edge into it.
   */
  lemma ReachableIffConnected(registry: Registry, content: FlowContent)
    requires Silent(registry, content, StartCount) && Silent(registry, content, Cycle)
    ensures Silent(registry, content, Unreachable) <==>
            forall id :: id in Ids(content.nodes) && !StartsAt(content, id) ==> HasInput(content, id)
  {
    var start := OneStart(registry, content);
    SilentCycle(registry, content);
    UnreachableNamesANode(registry, content);
    forall id ensures Raises(registry, content, Issue(Unreachable, Some(id))) <==>
                      id in Ids(content.nodes) && !Reaches(GraphOf(content), start.id, id) {
      UnreachableIsRaisedFor(registry, content, start, id);
    }
    if forall id :: id in Ids(content.nodes) && !StartsAt(content, id) ==> HasInput(content, id) {
      AllReached(content, start.id);
      forall nodeId ensures !Raises(registry, content, Issue(Unreachable, nodeId)) {
        if nodeId.Some? { assert !Raises(registry, content, Issue(Unreachable, Some(nodeId.value))); }
      }
    } else {
      var id :| id in Ids(content.nodes) && !StartsAt(content, id) && !HasInput(content, id);
      if Reaches(GraphOf(content), start.id, id) { ReachedHasInput(content, start.id, id); }
      assert Raises(registry, content, Issue(Unreachable, Some(id)));
    }
  }

  /** A node whose implementation is unknown, other than the Start, with no edge into it: MISSING_INPUT passes over it. */
  ghost predicate CutOff(registry: Registry, content: FlowContent, node: Node) {
    node in content.nodes && registry.Lookup(node.data).None? && !StartsAt(content, node.id) && !HasInput(content, node.id)
  }

  lemma MissingInputSilence(registry: Registry, content: FlowContent)
    requires Silent(registry, content, MissingInput)
    ensures (forall id :: id in Ids(content.nodes) && !StartsAt(content, id) ==> HasInput(content, id)) <==>
            forall node :: !CutOff(registry, content, node)
  {
    forall id | id in Ids(content.nodes) && !StartsAt(content, id) && !HasInput(content, id)
      ensures exists node :: CutOff(registry, content, node)
    {
      var node :| node in content.nodes && node.id == id;
      SilentNode(registry, content, MissingInput, node);
      assert CutOff(registry, content, node);
    }
  }

  /**
   When START_COUNT, MISSING_INPUT and CYCLE are silent, UNREACHABLE is silent as well exactly unless a node of unknown
   type, on which the validator does not check the connection rules, has no edge into it.
   */
  lemma UnreachableIsImpliedIff(registry: Registry, content: FlowContent)
    requires Silent(registry, content, StartCount) && Silent(registry, content, MissingInput) && Silent(registry, content, Cycle)
    ensures Silent(registry, content, Unreachable) <==> forall node :: !CutOff(registry, content, node)
  {
    ReachableIffConnected(registry, content);
    MissingInputSilence(registry, content);
  }

  /** In particular, the UNREACHABLE check adds nothing where every type is known. */
  lemma UnreachableIsImplied(registry: Registry, content: FlowContent)
    requires Silent(registry, content, StartCount) && Silent(registry, content, MissingInput)
    requires Silent(registry, content, UnknownNodeType) && Silent(registry, content, Cycle)
    ensures Silent(registry, content, Unreachable)
  {
    forall node ensures !CutOff(registry, content, node) {
      if node in content.nodes { SilentNode(registry, content, UnknownNodeType, node); }
    }
    UnreachableIsImpliedIff(registry, content);
  }

  // ----- and its dual -----

  lemma AllReachAnEnd(content: FlowContent)
    requires !HasCycle(GraphOf(content))
    requires forall id :: id in Ids(content.nodes) && !EndsAt(content, id) ==> HasOutput(content, id)
    ensures forall id :: id in Ids(content.nodes) ==> ReachesAnEnd(content, id)
  {
    var g := GraphOf(content);
    var lost := set id | id in g.nodes && !ReachesAnEnd(content, id);
    forall id | id in lost ensures HasSuccessorIn(g, lost, id) {
      LostHasSuccessor(content, lost, id);
    }
    if lost != {} {
      ForwardClosedHasCycle(g, lost);
    }
    forall id | id in Ids(content.nodes) ensures ReachesAnEnd(content, id) {
      assert id !in lost;
    }
  }

  lemma LostHasSuccessor(content: FlowContent, lost: set<NodeId>, id: NodeId)
    requires forall x :: x in lost <==> x in Ids(content.nodes) && !ReachesAnEnd(content, x)
    requires forall x :: x in Ids(content.nodes) && !EndsAt(content, x) ==> HasOutput(content, x)
    requires id in lost
    ensures HasSuccessorIn(GraphOf(content), lost, id)
  {
    var g := GraphOf(content);
    ReachesSelf(g, id);
    var edge :| edge in content.edges && Joined(g.nodes, edge) && edge.source == id;
    ArcIsJoinedEdge(content, id, edge.target);
    if ReachesAnEnd(content, edge.target) {
      var end :| end in content.nodes && end.data.nodeType == "end" && Reaches(g, edge.target, end.id);
      ReachesBefore(g, id, edge.target, end.id);
    }
    assert edge.target in lost;
  }

  /** Dually: without a cycle, every node reaches an End exactly when every id but an End's has an edge out of it. */
  lemma EveryNodeReachesAnEndIff(registry: Registry, content: FlowContent)
    requires Silent(registry, content, Cycle)
    ensures (forall id :: id in Ids(content.nodes) ==> ReachesAnEnd(content, id)) <==>
            forall id :: id in Ids(content.nodes) && !EndsAt(content, id) ==> HasOutput(content, id)
  {
    SilentCycle(registry, content);
    if forall id :: id in Ids(content.nodes) && !EndsAt(content, id) ==> HasOutput(content, id) {
      AllReachAnEnd(content);
    }
    forall id | id in Ids(content.nodes) && !EndsAt(content, id) && ReachesAnEnd(content, id) ensures HasOutput(content, id) {
      var end :| end in content.nodes && end.data.nodeType == "end" && Reaches(GraphOf(content), id, end.id);
      ReachingHasOutput(content, id, end.id);
    }
  }

  /** With MISSING_OUTPUT silent as well, only a node of unknown type can fail to reach an End, by having no edge out of it. */
  lemma OnlyUnknownNodesAreStuck(registry: Registry, content: FlowContent)
    requires Silent(registry, content, MissingOutput) && Silent(registry, content, Cycle)
    ensures (forall id :: id in Ids(content.nodes) ==> ReachesAnEnd(content, id)) <==>
            forall node :: node in content.nodes && registry.Lookup(node.data).None? && !EndsAt(content, node.id) ==> HasOutput(content, node.id)
  {
    EveryNodeReachesAnEndIff(registry, content);
    forall id | id in Ids(content.nodes) && !EndsAt(content, id) && !HasOutput(content, id)
      ensures exists node :: node in content.nodes && registry.Lookup(node.data).None? && !EndsAt(content, node.id) && !HasOutput(content, node.id)
    {
      var node :| node in content.nodes && node.id == id;
      SilentNode(registry, content, MissingOutput, node);
    }
  }

  // ----- a flow that only the UNREACHABLE check stops -----

  const LONE_START := Node("s", NodeData("start", "1", map[]))
  const LONE_END := Node("e", NodeData("end", "1", map[]))
  const STRANGER := Node("x", NodeData("mystery", "1", map[]))

  /** Start leads to End, and beside them stands a node of unknown type without any edge. */
  const STRANDED := FlowContent([LONE_START, LONE_END, STRANGER], [Edge("1", "s", "e", Some("output"), Some("input"))])

  lemma OnlyStart(start: Node, second: Node, third: Node)
    requires start.data.nodeType == "start" && second.data.nodeType != "start" && third.data.nodeType != "start"
    ensures OfType([start, second, third], "start") == [start]
  {
    assert [start, second, third][1..] == [second, third] && [second, third][1..] == [third] && [third][1..] == [];
    assert OfType([third], "start") == [];
    assert OfType([second, third], "start") == [];
  }

  lemma OneArcNoCycle(g: Digraph, a: NodeId, b: NodeId)
    requires a != b && forall u, v :: Arc(g, u, v) ==> u == a && v == b
    ensures !HasCycle(g)
  {
    var rank: map<NodeId, nat> := map x | x in g.nodes :: if x == b then 1 else 0;
    assert Ranked(g, rank);
    AcyclicIffRanked(g);
  }

  lemma StrandedShape()
    ensures forall node :: node in STRANDED.nodes <==> node == LONE_START || node == LONE_END || node == STRANGER
    ensures OfType(STRANDED.nodes, "start") == [LONE_START]
    ensures HasInput(STRANDED, "e") && !HasInput(STRANDED, "x")
    ensures !HasCycle(GraphOf(STRANDED))
  {
    var nodes := STRANDED.nodes;
    assert nodes[0] == LONE_START && nodes[1] == LONE_END && nodes[2] == STRANGER;
    OnlyStart(LONE_START, LONE_END, STRANGER);
    var edge := STRANDED.edges[0];
    assert edge in STRANDED.edges && LONE_START.id in Ids(nodes) && LONE_END.id in Ids(nodes);
    OneArcNoCycle(GraphOf(STRANDED), "s", "e");
  }

  lemma MissingInputIsSilent(registry: Registry, content: FlowContent, start: Node, end: Node, stranger: Node)
    requires forall node :: node in content.nodes <==> node == start || node == end || node == stranger
    requires start.data.nodeType == "start" && HasInput(content, end.id) && registry.Lookup(stranger.data).None?
    ensures Silent(registry, content, MissingInput)
  {
    forall nodeId ensures !Raises(registry, content, Issue(MissingInput, nodeId)) {
      forall node | node in content.nodes ensures !NodeRule(registry, content, node, MissingInput) {}
    }
  }

  /** START_COUNT, MISSING_INPUT and CYCLE are silent about it for every registry that does not know the stranger. */
  lemma UnknownNodeCanBeUnreachable(registry: Registry)
    requires registry.Lookup(STRANGER.data).None?
    ensures Silent(registry, STRANDED, StartCount) && Silent(registry, STRANDED, MissingInput) && Silent(registry, STRANDED, Cycle)
    ensures Raises(registry, STRANDED, Issue(Unreachable, Some("x")))
  {
    StrandedShape();
    MissingInputIsSilent(registry, STRANDED, LONE_START, LONE_END, STRANGER);
    OneStartIsSilent(registry, STRANDED);
    NoCycleIsSilent(registry, STRANDED);
    CutOffIsUnreachable(registry, STRANDED, LONE_START, STRANGER);
  }

  lemma OneStartIsSilent(registry: Registry, content: FlowContent)
    requires |OfType(content.nodes, "start")| == 1
    ensures Silent(registry, content, StartCount)
  {
  }

  lemma NoCycleIsSilent(registry: Registry, content: FlowContent)
    requires !HasCycle(GraphOf(content))
    ensures Silent(registry, content, Cycle)
  {
  }

  lemma CutOffIsUnreachable(registry: Registry, content: FlowContent, start: Node, node: Node)
    requires OfType(content.nodes, "start") == [start] && node in content.nodes && node.id != start.id && !HasInput(content, node.id)
    ensures Raises(registry, content, Issue(Unreachable, Some(node.id)))
  {
    UnreachableIsRaisedFor(registry, content, start, node.id);
    if Reaches(GraphOf(content), start.id, node.id) { ReachedHasInput(content, start.id, node.id); }
  }
}
