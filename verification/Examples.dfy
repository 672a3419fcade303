/**
 Flows the validator accepts (Start leads to a condition, whose two branches lead to an End each) and handlers whose
 runs finish: what the executor's theorems assume can be met.
 */
module Examples {
  import opened Wrappers
  import opened Json
  import opened Digraphs
  import opened Flows
  import opened ValidatorRules
  import opened Validator
  import opened Engine
  import opened EngineInvariants
  import opened EngineTheorems
  import Lifecycle

  datatype Fork = Fork(start: Node, condition: Node, yes: Node, no: Node, first: Edge, second: Edge, third: Edge) {
    function Content(): FlowContent {
      FlowContent([start, condition, yes, no], [first, second, third])
    }

    /** Four nodes, and an edge from the start to the condition and from there to either end. */
    predicate Wired() {
      && start.id != condition.id && start.id != yes.id && start.id != no.id
      && condition.id != yes.id && condition.id != no.id && yes.id != no.id
      && (first.source, first.target) == (start.id, condition.id)
      && (second.source, second.target) == (condition.id, yes.id) && second.sourceHandle == Some("true")
      && (third.source, third.target) == (condition.id, no.id) && third.sourceHandle == Some("false")
    }

    predicate Typed() {
      && start.data.nodeType == "start" && condition.data.nodeType == "condition"
      && yes.data.nodeType == "end" && no.data.nodeType == "end"
    }

    predicate Valid(registry: Registry) {
      && Wired() && Typed()
      && first.id != second.id && first.id != third.id && second.id != third.id
      && PortsFit(registry, first, start, condition)
      && PortsFit(registry, second, condition, yes)
      && PortsFit(registry, third, condition, no)
      && registry.ConfigErrors(start.data) == 0 && registry.ConfigErrors(condition.data) == 0
      && registry.ConfigErrors(yes.data) == 0 && registry.ConfigErrors(no.data) == 0
    }
  }

  predicate PortsFit(registry: Registry, edge: Edge, source: Node, target: Node) {
    && registry.Lookup(source.data).Some? && OffersPort(registry.Lookup(source.data).value.outputs, edge.sourceHandle)
    && registry.Lookup(target.data).Some? && OffersPort(registry.Lookup(target.data).value.inputs, edge.targetHandle)
  }

  lemma FourIds(a: Node, b: Node, c: Node, d: Node)
    ensures Ids([a, b, c, d]) == {a.id, b.id, c.id, d.id}
    ensures ById([a, b, c, d]) == map[a.id := a, b.id := b, c.id := c, d.id := d]
  {
    var nodes := [a, b, c, d];
    assert nodes[..3] == [a, b, c] && [a, b, c][..2] == [a, b] && [a, b][..1] == [a] && [a][..0] == [];
    assert ById([a]) == map[a.id := a];
    assert ById([a, b]) == map[a.id := a, b.id := b];
    assert ById([a, b, c]) == map[a.id := a, b.id := b, c.id := c];
    assert ById(nodes) == ById([a, b, c])[d.id := d];
    assert nodes[0] == a && nodes[1] == b && nodes[2] == c && nodes[3] == d;
  }

  lemma OnlyStart(a: Node, b: Node, c: Node, d: Node)
    requires a.data.nodeType == "start" && b.data.nodeType != "start" && c.data.nodeType != "start" && d.data.nodeType != "start"
    ensures OfType([a, b, c, d], "start") == [a]
  {
    assert [a, b, c, d][1..] == [b, c, d] && [b, c, d][1..] == [c, d] && [c, d][1..] == [d] && [d][1..] == [];
    assert OfType([d], "start") == [];
    assert OfType([c, d], "start") == [];
    assert OfType([b, c, d], "start") == [];
  }

  /** What matters of the content of a fork, in no particular order. */
  ghost predicate Draws(fork: Fork, content: FlowContent) {
    && Ids(content.nodes) == {fork.start.id, fork.condition.id, fork.yes.id, fork.no.id}
    && ById(content.nodes) ==
       map[fork.start.id := fork.start, fork.condition.id := fork.condition, fork.yes.id := fork.yes, fork.no.id := fork.no]
    && (forall node :: node in content.nodes <==> node == fork.start || node == fork.condition || node == fork.yes || node == fork.no)
    && (forall edge :: edge in content.edges <==> edge == fork.first || edge == fork.second || edge == fork.third)
    && !RepeatedId(content.nodes)
    && (forall i, j :: 0 <= i < j < |content.edges| ==> content.edges[i].id != content.edges[j].id)
    && OfType(content.nodes, "start") == [fork.start]
  }

  lemma ForkDraws(registry: Registry, fork: Fork)
    requires fork.Valid(registry)
    ensures Draws(fork, fork.Content())
  {
    FourIds(fork.start, fork.condition, fork.yes, fork.no);
    OnlyStart(fork.start, fork.condition, fork.yes, fork.no);
    var content := fork.Content();
    FourNodes(fork, content.nodes);
    ThreeEdges(fork, content.edges);
  }

  lemma FourNodes(fork: Fork, nodes: seq<Node>)
    requires nodes == [fork.start, fork.condition, fork.yes, fork.no] && fork.Wired()
    ensures forall node :: node in nodes <==> node == fork.start || node == fork.condition || node == fork.yes || node == fork.no
    ensures !RepeatedId(nodes)
  {
    assert nodes[0] == fork.start && nodes[1] == fork.condition && nodes[2] == fork.yes && nodes[3] == fork.no;
  }

  lemma ThreeEdges(fork: Fork, edges: seq<Edge>)
    requires edges == [fork.first, fork.second, fork.third]
    requires fork.first.id != fork.second.id && fork.first.id != fork.third.id && fork.second.id != fork.third.id
    ensures forall edge :: edge in edges <==> edge == fork.first || edge == fork.second || edge == fork.third
    ensures forall i, j :: 0 <= i < j < |edges| ==> edges[i].id != edges[j].id
  {
    assert edges[0] == fork.first && edges[1] == fork.second && edges[2] == fork.third;
  }

  lemma ForkHasNoCycle(fork: Fork, content: FlowContent)
    requires fork.Wired() && Draws(fork, content)
    ensures !HasCycle(GraphOf(content))
  {
    var g := GraphOf(content);
    var rank: map<NodeId, nat> := map[fork.start.id := 0, fork.condition.id := 1, fork.yes.id := 2, fork.no.id := 2];
    forall a, b | Arc(g, a, b) ensures rank[a] < rank[b] {
      ArcIsJoinedEdge(content, a, b);
    }
    assert Ranked(g, rank);
    AcyclicIffRanked(g);
  }

  lemma ForkEdgesFit(registry: Registry, fork: Fork, content: FlowContent, issue: Issue)
    requires fork.Valid(registry) && Draws(fork, content)
    ensures !RaisedByEdges(registry, content, |content.edges|, issue)
  {
    forall j | 0 <= j < |content.edges| ensures !RaisedByEdge(registry, ById(content.nodes), content.edges, j, issue) {
      assert content.edges[j] in content.edges;
    }
  }

  lemma ForkInputs(fork: Fork, content: FlowContent)
    requires fork.Wired() && Draws(fork, content)
    ensures !HasInput(content, fork.start.id) && HasInput(content, fork.condition.id)
    ensures HasInput(content, fork.yes.id) && HasInput(content, fork.no.id)
  {
    assert fork.first in content.edges && fork.second in content.edges && fork.third in content.edges;
  }

  lemma ForkOutputs(fork: Fork, content: FlowContent)
    requires fork.Wired() && Draws(fork, content)
    ensures HasOutput(content, fork.start.id) && HasOutput(content, fork.condition.id)
    ensures !HasOutput(content, fork.yes.id) && !HasOutput(content, fork.no.id)
    ensures HasBranch(content, fork.condition.id, "true") && HasBranch(content, fork.condition.id, "false")
  {
    assert fork.first in content.edges && fork.second in content.edges && fork.third in content.edges;
  }

  /** What the node rules ask of a node whose implementation is known. */
  predicate Connected(facts: Facts) {
    && facts.known && facts.configErrors == 0
    && (facts.connectedIn <==> facts.nodeType != "start")
    && (facts.connectedOut <==> facts.nodeType != "end")
    && (facts.nodeType == "condition" ==> facts.bothBranches)
  }

  lemma ForkConnected(registry: Registry, fork: Fork, content: FlowContent)
    requires fork.Valid(registry) && Draws(fork, content)
    ensures Connected(FactsOf(registry, content, fork.start)) && Connected(FactsOf(registry, content, fork.condition))
    ensures Connected(FactsOf(registry, content, fork.yes)) && Connected(FactsOf(registry, content, fork.no))
  {
    ForkInputs(fork, content);
    ForkOutputs(fork, content);
  }

  lemma ForkNodesFit(registry: Registry, fork: Fork, content: FlowContent, issue: Issue)
    requires fork.Valid(registry) && Draws(fork, content)
    ensures !RaisedByNode(registry, content, content.nodes, issue)
  {
    ForkConnected(registry, fork, content);
    AllConnected(registry, content, issue);
  }

  lemma AllConnected(registry: Registry, content: FlowContent, issue: Issue)
    requires forall node :: node in content.nodes ==> Connected(FactsOf(registry, content, node))
    ensures !RaisedByNode(registry, content, content.nodes, issue)
  {
  }

  /** The validator has nothing to say about such a flow. */
  lemma ForkIsAccepted(registry: Registry, fork: Fork, content: FlowContent)
    requires fork.Valid(registry) && Draws(fork, content)
    ensures Accepted(registry, content)
  {
    ForkHasNoCycle(fork, content);
    OfTypeMembers(content.nodes, "end");
    assert fork.yes in OfType(content.nodes, "end");
    forall issue: Issue | issue.code != Unreachable ensures !Raises(registry, content, issue) {
      ForkEdgesFit(registry, fork, content, issue);
      ForkNodesFit(registry, fork, content, issue);
      assert !RaisedByCounts(content, issue);
    }
    UnreachableIsImplied(registry, content);
  }

  /** Conditions find their comparison true; every other node returns an empty output. */
  function Agrees(node: Node, inputs: Json): Result<Object, string> {
    Ok(if node.data.nodeType == "condition" then map["branch" := Str("true"), "data" := inputs] else map[])
  }

  lemma AgreesNeverFails(job: Job, order: seq<NodeId>)
    requires job.handler == Agrees && Enumerates(order, job.Nodes().Keys)
    ensures ConditionsBranch(job) && !Execute(job, order).NodeFailed?
  {
    ExecuteExplained(job, order);
  }

  /** With these handlers every accepted flow has a run that meets what the executor's theorems assume of finished runs. */
  lemma AgreeingRunCompletes(registry: Registry, job: Job, order: seq<NodeId>)
    requires Accepted(registry, job.content) && job.handler == Agrees && Enumerates(order, job.Nodes().Keys)
    ensures ConditionsBranch(job) && WellFormed(job.content) && job.Runnable() && Execute(job, order).Completed?
    ensures var st := Execute(job, order).state; Sound(job, st) && PendingIn(st) == {} && FinishedEnds(job, st) != {}
  {
    AcceptedIsRunnable(registry, job);
    AgreesNeverFails(job, order);
    AcceptedRunFinishes(registry, job, order);
    ExecuteExplained(job, order);
  }

  /** There is such a flow. */
  lemma SomeFork() returns (registry: Registry, fork: Fork)
    ensures fork.Valid(registry)
  {
    var start, condition, end := ("start", "1"), ("condition", "1"), ("end", "1");
    registry := Registry(
      map[start := Definition({}, {"output"}), condition := Definition({"input"}, {"true", "false"}), end := Definition({"input"}, {})],
      (key: (string, string), config: Object) => 0);
    fork := Fork(
      Node("s", NodeData("start", "1", map[])), Node("c", NodeData("condition", "1", map[])),
      Node("y", NodeData("end", "1", map[])), Node("n", NodeData("end", "1", map[])),
      Edge("1", "s", "c", Some("output"), Some("input")),
      Edge("2", "c", "y", Some("true"), Some("input")),
      Edge("3", "c", "n", Some("false"), Some("input")));
  }

  /** So there is an accepted flow. */
  lemma SomeAcceptedFlow() returns (registry: Registry, content: FlowContent)
    ensures Accepted(registry, content)
  {
    var fork;
    registry, fork := SomeFork();
    ForkDraws(registry, fork);
    content := fork.Content();
    ForkIsAccepted(registry, fork, content);
  }

  /** And there is a flow that was published, scheduled and paused, and has a run all the same. */
  lemma SomePausedFlowRuns() returns (checks: Lifecycle.Checks, draft: Lifecycle.FlowDefinition, ops: seq<Lifecycle.Operation>)
    ensures var after := Lifecycle.After(checks, Lifecycle.Created(draft), ops);
            && Lifecycle.Consistent(checks, after) && after.status == Lifecycle.Paused && |after.runs| == 1
            && forall handler, order :: Lifecycle.NeverStalls(after, 0, handler, order)
  {
    var registry, content := SomeAcceptedFlow();
    checks := Lifecycle.Checks(registry, (schema: Json) => true, (schema: Json, value: Object) => true);
    draft := Lifecycle.FlowDefinition(content, Null, Null, map[]);
    ops := [Lifecycle.Publish(true), Lifecycle.CreateSchedule(1, map[], true, true), Lifecycle.UpdateStatus(Lifecycle.Paused), Lifecycle.TriggerSchedule(0)];
    Lifecycle.PausedFlowRuns(checks, draft, map[]);
    Lifecycle.EveryFlowIsConsistent(checks, draft, ops);
  }
}
