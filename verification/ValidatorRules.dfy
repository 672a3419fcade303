/**
 `validate_flow` (backend/app/workflow/validator.py): the checks that decide which graphs may be published.

 `Raises` says, issue by issue, when the validator must report it; the methods below compute
 the list the way the source does (edge indexing, per-node rules, Kahn's algorithm,
 breadth-first search) and are proved to report exactly those issues.
 */
module ValidatorRules {
  import opened Wrappers
  import opened Json
  import opened Digraphs
  import opened Flows

  datatype Definition = Definition(inputs: set<string>, outputs: set<string>)

  /** The node registry; counting the schema errors of a configuration is a foreign call. */
  datatype Registry = Registry(definitions: map<(string, string), Definition>,
                               configErrors: ((string, string), Object) -> nat)
  {
    function Lookup(data: NodeData): Option<Definition> {
      var key := (data.nodeType, data.nodeVersion);
      if key in definitions then Some(definitions[key]) else None
    }

    function ConfigErrors(data: NodeData): nat {
      configErrors((data.nodeType, data.nodeVersion), data.config)
    }
  }

  datatype Code =
    | DuplicateNodeId | StartCount | EndCount
    | DuplicateEdgeId | InvalidEdge | InvalidSourcePort | InvalidTargetPort
    | UnknownNodeType | InvalidNodeConfig
    | StartHasInput | MissingInput | EndHasOutput | MissingOutput | IncompleteCondition
    | Cycle | Unreachable

  datatype Issue = Issue(code: Code, nodeId: Option<NodeId>)

  // ----- what must be reported -----

  ghost predicate RepeatedId(nodes: seq<Node>) {
    exists i, j :: 0 <= i < j < |nodes| && nodes[i].id == nodes[j].id
  }

  predicate OffersPort(ports: set<string>, handle: Option<string>) {
    handle.Some? && handle.value in ports
  }

  /** What edge number `j` is reported for. */
  ghost predicate RaisedByEdge(registry: Registry, nodes: map<NodeId, Node>, edges: seq<Edge>, j: nat, issue: Issue)
    requires j < |edges|
  {
    var edge := edges[j];
    match issue.code
    case DuplicateEdgeId => issue.nodeId == None && exists i :: 0 <= i < j && edges[i].id == edge.id
    case InvalidEdge => issue.nodeId == None && !Joined(nodes.Keys, edge)
    case InvalidSourcePort =>
      && Joined(nodes.Keys, edge) && issue.nodeId == Some(edge.source)
      && registry.Lookup(nodes[edge.source].data).Some?
      && !OffersPort(registry.Lookup(nodes[edge.source].data).value.outputs, edge.sourceHandle)
    case InvalidTargetPort =>
      && Joined(nodes.Keys, edge) && issue.nodeId == Some(edge.target)
      && registry.Lookup(nodes[edge.target].data).Some?
      && !OffersPort(registry.Lookup(nodes[edge.target].data).value.inputs, edge.targetHandle)
    case _ => false
  }

  predicate HasInput(content: FlowContent, id: NodeId) {
    exists edge :: edge in content.edges && Joined(Ids(content.nodes), edge) && edge.target == id
  }

  predicate HasOutput(content: FlowContent, id: NodeId) {
    exists edge :: edge in content.edges && Joined(Ids(content.nodes), edge) && edge.source == id
  }

  predicate HasBranch(content: FlowContent, id: NodeId, handle: string) {
    exists edge :: edge in content.edges && Joined(Ids(content.nodes), edge) && edge.source == id && edge.sourceHandle == Some(handle)
  }

  /** What a validator can tell about one node. */
  datatype Facts = Facts(known: bool, configErrors: nat, nodeType: string, connectedIn: bool, connectedOut: bool, bothBranches: bool)

  /** The node rules; an unknown implementation silences every rule but its own. */
  predicate Broken(facts: Facts, code: Code) {
    match code
    case UnknownNodeType => !facts.known
    case InvalidNodeConfig => facts.known && facts.configErrors > 0
    case StartHasInput => facts.known && facts.nodeType == "start" && facts.connectedIn
    case MissingInput => facts.known && facts.nodeType != "start" && !facts.connectedIn
    case EndHasOutput => facts.known && facts.nodeType == "end" && facts.connectedOut
    case MissingOutput => facts.known && facts.nodeType != "end" && !facts.connectedOut
    case IncompleteCondition => facts.known && facts.nodeType == "condition" && !facts.bothBranches
    case _ => false
  }

  function FactsOf(registry: Registry, content: FlowContent, node: Node): Facts {
    Facts(registry.Lookup(node.data).Some?, registry.ConfigErrors(node.data), node.data.nodeType,
          HasInput(content, node.id), HasOutput(content, node.id),
          HasBranch(content, node.id, "true") && HasBranch(content, node.id, "false"))
  }

  /** What one node is reported for. */
  predicate NodeRule(registry: Registry, content: FlowContent, node: Node, code: Code) {
    Broken(FactsOf(registry, content, node), code)
  }

  ghost predicate RaisedByNode(registry: Registry, content: FlowContent, nodes: seq<Node>, issue: Issue) {
    exists node :: node in nodes && issue.nodeId == Some(node.id) && NodeRule(registry, content, node, issue.code)
  }

  ghost predicate RaisedByCounts(content: FlowContent, issue: Issue) {
    && issue.nodeId == None
    && match issue.code
       case DuplicateNodeId => RepeatedId(content.nodes)
       case StartCount => |OfType(content.nodes, "start")| != 1
       case EndCount => OfType(content.nodes, "end") == []
       case _ => false
  }

  ghost predicate RaisedByGraph(content: FlowContent, issue: Issue) {
    match issue.code
    case Cycle => issue.nodeId == None && HasCycle(GraphOf(content))
    case Unreachable =>
      var starts := OfType(content.nodes, "start");
      && issue.nodeId.Some? && issue.nodeId.value in Ids(content.nodes)
      && starts != [] && !Reaches(GraphOf(content), starts[0].id, issue.nodeId.value)
    case _ => false
  }

  ghost predicate RaisedByEdges(registry: Registry, content: FlowContent, upTo: nat, issue: Issue)
    requires upTo <= |content.edges|
  {
    exists j :: 0 <= j < upTo && RaisedByEdge(registry, ById(content.nodes), content.edges, j, issue)
  }

  ghost predicate Raises(registry: Registry, content: FlowContent, issue: Issue) {
    || RaisedByCounts(content, issue)
    || RaisedByEdges(registry, content, |content.edges|, issue)
    || RaisedByNode(registry, content, content.nodes, issue)
    || RaisedByGraph(content, issue)
  }

  /** The flow may be published. */
  ghost predicate Accepted(registry: Registry, content: FlowContent) {
    forall issue :: !Raises(registry, content, issue)
  }

  // ----- the checks -----

  ghost predicate SeenIds(edges: seq<Edge>, j: nat, seen: set<string>)
    requires j <= |edges|
  {
    && (forall i :: 0 <= i < j ==> edges[i].id in seen)
    && forall id :: id in seen ==> exists i :: 0 <= i < j && edges[i].id == id
  }

  lemma SeenStep(edges: seq<Edge>, j: nat, seen: set<string>)
    requires j < |edges| && SeenIds(edges, j, seen)
    ensures SeenIds(edges, j + 1, seen + {edges[j].id})
  {
  }

  /** Lines 52-56 and 59-66 for one edge, with the port checks of lines 70-95. */
  method CheckEdge(registry: Registry, nodes: map<NodeId, Node>, edges: seq<Edge>, j: nat, seen: set<string>)
    returns (issues: seq<Issue>)
    requires j < |edges|
    requires SeenIds(edges, j, seen)
    ensures forall issue :: issue in issues <==> RaisedByEdge(registry, nodes, edges, j, issue)
  {
    var edge := edges[j];
    issues := if edge.id in seen then [Issue(DuplicateEdgeId, None)] else [];
    if !Joined(nodes.Keys, edge) {
      issues := issues + [Issue(InvalidEdge, None)];
      return;
    }
    var source := registry.Lookup(nodes[edge.source].data);
    var target := registry.Lookup(nodes[edge.target].data);
    if source.Some? && !OffersPort(source.value.outputs, edge.sourceHandle) {
      issues := issues + [Issue(InvalidSourcePort, Some(edge.source))];
    }
    if target.Some? && !OffersPort(target.value.inputs, edge.targetHandle) {
      issues := issues + [Issue(InvalidTargetPort, Some(edge.target))];
    }
  }

  /** What is known after `j` edges: the ids seen, both indexes, and the issues of those edges. */
  ghost predicate EdgesDone(registry: Registry, content: FlowContent, j: nat, seen: set<string>,
                            incoming: map<NodeId, seq<Edge>>, outgoing: map<NodeId, seq<Edge>>, issues: seq<Issue>)
    requires j <= |content.edges|
  {
    && SeenIds(content.edges, j, seen)
    && Indexed(content, j, incoming, outgoing)
    && forall issue :: issue in issues <==> RaisedByEdges(registry, content, j, issue)
  }

  /** Lines 50-95: index the joined edges by target and by source, and check ports on the way. */
  method IndexEdges(registry: Registry, content: FlowContent)
    returns (incoming: map<NodeId, seq<Edge>>, outgoing: map<NodeId, seq<Edge>>, issues: seq<Issue>)
    ensures Indexed(content, |content.edges|, incoming, outgoing)
    ensures forall issue :: issue in issues <==> RaisedByEdges(registry, content, |content.edges|, issue)
  {
    var seen: set<string> := {};
    incoming, outgoing, issues := map[], map[], [];
    for j := 0 to |content.edges|
      invariant EdgesDone(registry, content, j, seen, incoming, outgoing, issues)
    {
      var found := CheckEdge(registry, ById(content.nodes), content.edges, j, seen);
      AddIssues(registry, content, j, seen, incoming, outgoing, issues, found);
      issues, seen := issues + found, seen + {content.edges[j].id};
      incoming, outgoing := IndexEdge(content, j, incoming, outgoing);
    }
  }

  lemma AddIssues(registry: Registry, content: FlowContent, j: nat, seen: set<string>,
                  incoming: map<NodeId, seq<Edge>>, outgoing: map<NodeId, seq<Edge>>, issues: seq<Issue>, found: seq<Issue>)
    requires j < |content.edges| && EdgesDone(registry, content, j, seen, incoming, outgoing, issues)
    requires forall issue :: issue in found <==> RaisedByEdge(registry, ById(content.nodes), content.edges, j, issue)
    ensures SeenIds(content.edges, j + 1, seen + {content.edges[j].id})
    ensures forall issue :: issue in issues + found <==> RaisedByEdges(registry, content, j + 1, issue)
  {
    SeenStep(content.edges, j, seen);
    ExtendRaised(registry, content, j, issues, found);
  }

  /** Lines 57-68 for one edge. */
  method IndexEdge(content: FlowContent, j: nat, before: map<NodeId, seq<Edge>>, beforeOut: map<NodeId, seq<Edge>>)
    returns (incoming: map<NodeId, seq<Edge>>, outgoing: map<NodeId, seq<Edge>>)
    requires j < |content.edges| && Indexed(content, j, before, beforeOut)
    ensures Indexed(content, j + 1, incoming, outgoing)
  {
    var edge := content.edges[j];
    if Joined(Ids(content.nodes), edge) {
      IndexedStep(content, j, before, beforeOut);
      incoming := before[edge.target := Bucket(before, edge.target) + [edge]];
      outgoing := beforeOut[edge.source := Bucket(beforeOut, edge.source) + [edge]];
    } else {
      IndexedSkip(content, j, before, beforeOut);
      incoming, outgoing := before, beforeOut;
    }
  }

  lemma ExtendRaised(registry: Registry, content: FlowContent, j: nat, issues: seq<Issue>, found: seq<Issue>)
    requires j < |content.edges|
    requires forall issue :: issue in issues <==> RaisedByEdges(registry, content, j, issue)
    requires forall issue :: issue in found <==> RaisedByEdge(registry, ById(content.nodes), content.edges, j, issue)
    ensures forall issue :: issue in issues + found <==> RaisedByEdges(registry, content, j + 1, issue)
  {
    forall issue ensures issue in issues + found <==> RaisedByEdges(registry, content, j + 1, issue) {
      assert RaisedByEdges(registry, content, j + 1, issue) <==>
             RaisedByEdges(registry, content, j, issue) || RaisedByEdge(registry, ById(content.nodes), content.edges, j, issue);
    }
  }

  predicate LeavesBy(edges: seq<Edge>, handle: string) {
    exists edge :: edge in edges && edge.sourceHandle == Some(handle)
  }

  predicate BothBranches(edges: seq<Edge>) {
    {Some("true"), Some("false")} <= set edge | edge in edges :: edge.sourceHandle
  }

  lemma BothBranchesMeaning(edges: seq<Edge>)
    ensures BothBranches(edges) <==> LeavesBy(edges, "true") && LeavesBy(edges, "false")
  {
    var handles := set edge | edge in edges :: edge.sourceHandle;
    assert Some("true") in handles <==> LeavesBy(edges, "true");
    assert Some("false") in handles <==> LeavesBy(edges, "false");
  }

  lemma BucketsSayConnected(content: FlowContent, incoming: map<NodeId, seq<Edge>>, outgoing: map<NodeId, seq<Edge>>, id: NodeId)
    requires Indexed(content, |content.edges|, incoming, outgoing)
    ensures Bucket(incoming, id) != [] <==> HasInput(content, id)
    ensures Bucket(outgoing, id) != [] <==> HasOutput(content, id)
    ensures LeavesBy(Bucket(outgoing, id), "true") <==> HasBranch(content, id, "true")
    ensures LeavesBy(Bucket(outgoing, id), "false") <==> HasBranch(content, id, "false")
  {
    assert content.edges[..|content.edges|] == content.edges;
    var joined := JoinedEdges(Ids(content.nodes), content.edges);
    JoinedMembers(Ids(content.nodes), content.edges);
    IntoMembers(joined, id);
    FromMembers(joined, id);
    var into, from := Bucket(incoming, id), Bucket(outgoing, id);
    if into != [] { assert into[0] in into; }
    if from != [] { assert from[0] in from; }
  }

  /** `issues` reports node `id` for exactly `codes`. */
  ghost predicate Lists(issues: seq<Issue>, id: NodeId, codes: set<Code>) {
    && (forall issue :: issue in issues ==> issue.nodeId == Some(id) && issue.code in codes)
    && forall code :: code in codes ==> Issue(code, Some(id)) in issues
  }

  /** Append one node issue when its rule is broken; `checked` are the rules already dealt with. */
  method Report(ghost rules: set<Code>, id: NodeId, issues: seq<Issue>, ghost checked: set<Code>, code: Code, broken: bool)
    returns (r: seq<Issue>)
    requires Lists(issues, id, rules * checked)
    requires broken <==> code in rules
    ensures Lists(r, id, rules * (checked + {code}))
  {
    r := if broken then issues + [Issue(code, Some(id))] else issues;
  }

  /** Lines 111-122: one issue for each schema error of the node's configuration. */
  method ConfigIssues(ghost rules: set<Code>, id: NodeId, errors: nat) returns (issues: seq<Issue>)
    requires UnknownNodeType !in rules
    requires InvalidNodeConfig in rules <==> errors > 0
    ensures Lists(issues, id, rules * {UnknownNodeType, InvalidNodeConfig})
  {
    issues := [];
    for k := 0 to errors
      invariant Lists(issues, id, if k > 0 then {InvalidNodeConfig} else {})
    {
      issues := issues + [Issue(InvalidNodeConfig, Some(id))];
    }
    assert rules * {UnknownNodeType, InvalidNodeConfig} == if errors > 0 then {InvalidNodeConfig} else {};
  }

  lemma AllNodeCodes(facts: Facts)
    ensures forall code :: Broken(facts, code) ==>
              code in {UnknownNodeType, InvalidNodeConfig, StartHasInput, MissingInput, EndHasOutput, MissingOutput, IncompleteCondition}
  {
  }

  /** Lines 124-150: the rules on connections; `checked` are the rules already dealt with. */
  method ConnectionIssues(ghost rules: set<Code>, id: NodeId, facts: Facts, before: seq<Issue>, ghost checked: set<Code>) returns (issues: seq<Issue>)
    requires facts.known && rules == set code | Broken(facts, code)
    requires Lists(before, id, rules * checked)
    ensures Lists(issues, id, rules * (checked + {StartHasInput, MissingInput, EndHasOutput, MissingOutput}))
  {
    issues := Report(rules, id, before, checked, StartHasInput, facts.nodeType == "start" && facts.connectedIn);
    ghost var done := checked + {StartHasInput};
    issues := Report(rules, id, issues, done, MissingInput, facts.nodeType != "start" && !facts.connectedIn);
    done := done + {MissingInput};
    issues := Report(rules, id, issues, done, EndHasOutput, facts.nodeType == "end" && facts.connectedOut);
    done := done + {EndHasOutput};
    issues := Report(rules, id, issues, done, MissingOutput, facts.nodeType != "end" && !facts.connectedOut);
    assert done + {MissingOutput} == checked + {StartHasInput, MissingInput, EndHasOutput, MissingOutput};
  }

  /** Lines 98-167: the issues of one node, from what is known about it. */
  method CheckFacts(id: NodeId, facts: Facts) returns (issues: seq<Issue>)
    ensures Lists(issues, id, set code | Broken(facts, code))
  {
    ghost var rules := set code | Broken(facts, code);
    if !facts.known {
      issues := [Issue(UnknownNodeType, Some(id))];
      assert rules == {UnknownNodeType};
      return;
    }
    issues := ConfigIssues(rules, id, facts.configErrors);
    ghost var checked := {UnknownNodeType, InvalidNodeConfig};
    issues := ConnectionIssues(rules, id, facts, issues, checked);
    checked := checked + {StartHasInput, MissingInput, EndHasOutput, MissingOutput};
    issues := Report(rules, id, issues, checked, IncompleteCondition, facts.nodeType == "condition" && !facts.bothBranches);
    AllNodeCodes(facts);
    assert rules * (checked + {IncompleteCondition}) == rules;
  }

  lemma BucketsSayAll(content: FlowContent, incoming: map<NodeId, seq<Edge>>, outgoing: map<NodeId, seq<Edge>>, id: NodeId)
    requires Indexed(content, |content.edges|, incoming, outgoing)
    ensures Bucket(incoming, id) != [] <==> HasInput(content, id)
    ensures Bucket(outgoing, id) != [] <==> HasOutput(content, id)
    ensures BothBranches(Bucket(outgoing, id)) <==> HasBranch(content, id, "true") && HasBranch(content, id, "false")
  {
    BucketsSayConnected(content, incoming, outgoing, id);
    BothBranchesMeaning(Bucket(outgoing, id));
  }

  /** Lines 97-167 for one node. */
  method CheckNode(registry: Registry, ghost content: FlowContent, node: Node,
                   incoming: map<NodeId, seq<Edge>>, outgoing: map<NodeId, seq<Edge>>)
    returns (issues: seq<Issue>)
    requires Indexed(content, |content.edges|, incoming, outgoing)
    ensures Lists(issues, node.id, set code | NodeRule(registry, content, node, code))
  {
    BucketsSayAll(content, incoming, outgoing, node.id);
    var into, from := Bucket(incoming, node.id), Bucket(outgoing, node.id);
    issues := CheckFacts(node.id, Facts(registry.Lookup(node.data).Some?, registry.ConfigErrors(node.data), node.data.nodeType,
                                        into != [], from != [], BothBranches(from)));
    assert forall code :: NodeRule(registry, content, node, code) <==> Broken(FactsOf(registry, content, node), code);
  }

  method CheckNodes(registry: Registry, content: FlowContent,
                    incoming: map<NodeId, seq<Edge>>, outgoing: map<NodeId, seq<Edge>>)
    returns (issues: seq<Issue>)
    requires Indexed(content, |content.edges|, incoming, outgoing)
    ensures forall issue :: issue in issues <==> RaisedByNode(registry, content, content.nodes, issue)
  {
    issues := [];
    for j := 0 to |content.nodes|
      invariant forall issue :: issue in issues <==> RaisedByNode(registry, content, content.nodes[..j], issue)
    {
      var found := CheckNode(registry, content, content.nodes[j], incoming, outgoing);
      assert content.nodes[..j + 1] == content.nodes[..j] + [content.nodes[j]];
      forall issue
        ensures issue in found <==> issue.nodeId == Some(content.nodes[j].id) && NodeRule(registry, content, content.nodes[j], issue.code)
      {
        assert issue.nodeId == Some(content.nodes[j].id) ==> issue == Issue(issue.code, Some(content.nodes[j].id));
      }
      issues := issues + found;
    }
    assert content.nodes[..|content.nodes|] == content.nodes;
  }
}
