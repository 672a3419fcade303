/** The content of a flow: typed nodes and the edges between their ports. */
module Flows {
  import opened Wrappers
  import opened Json
  import opened Digraphs

  datatype NodeData = NodeData(nodeType: string, nodeVersion: string, config: Object)

  datatype Node = Node(id: NodeId, data: NodeData)

  datatype Edge = Edge(id: string, source: NodeId, target: NodeId,
                       sourceHandle: Option<string>, targetHandle: Option<string>)

  datatype FlowContent = FlowContent(nodes: seq<Node>, edges: seq<Edge>)

  function Ids(nodes: seq<Node>): set<NodeId> {
    set node | node in nodes :: node.id
  }

  /** `{node.id: node for node in nodes}`: of two nodes with one id the later one stays. */
  function ById(nodes: seq<Node>): (m: map<NodeId, Node>)
    ensures m.Keys == Ids(nodes)
  {
    if nodes == [] then map[]
    else
      var init, last := nodes[..|nodes| - 1], nodes[|nodes| - 1];
      assert nodes == init + [last];
      ById(init)[last.id := last]
  }

  lemma {:induction false} ByIdFinds(nodes: seq<Node>, id: NodeId)
    requires id in Ids(nodes)
    ensures ById(nodes)[id] in nodes && ById(nodes)[id].id == id
  {
    var init, last := nodes[..|nodes| - 1], nodes[|nodes| - 1];
    assert nodes == init + [last];
    if last.id != id {
      ByIdFinds(init, id);
    }
  }

  function OfType(nodes: seq<Node>, nodeType: string): seq<Node> {
    if nodes == [] then []
    else (if nodes[0].data.nodeType == nodeType then [nodes[0]] else []) + OfType(nodes[1..], nodeType)
  }

  lemma {:induction false} OfTypeMembers(nodes: seq<Node>, nodeType: string)
    ensures forall node :: node in OfType(nodes, nodeType) <==> node in nodes && node.data.nodeType == nodeType
  {
    if nodes == [] {
    } else {
      OfTypeMembers(nodes[1..], nodeType);
      assert nodes == [nodes[0]] + nodes[1..];
    }
  }

  predicate Joined(ids: set<NodeId>, edge: Edge) {
    edge.source in ids && edge.target in ids
  }

  /** The edges whose two endpoints exist, in order. */
  function JoinedEdges(ids: set<NodeId>, edges: seq<Edge>): seq<Edge>
  {
    if edges == [] then []
    else
      var last := edges[|edges| - 1];
      JoinedEdges(ids, edges[..|edges| - 1]) + if Joined(ids, last) then [last] else []
  }

  function EdgesInto(edges: seq<Edge>, id: NodeId): seq<Edge>
  {
    if edges == [] then []
    else
      var last := edges[|edges| - 1];
      EdgesInto(edges[..|edges| - 1], id) + if last.target == id then [last] else []
  }

  function EdgesFrom(edges: seq<Edge>, id: NodeId): seq<Edge>
  {
    if edges == [] then []
    else
      var last := edges[|edges| - 1];
      EdgesFrom(edges[..|edges| - 1], id) + if last.source == id then [last] else []
  }

  lemma {:induction false} JoinedMembers(ids: set<NodeId>, edges: seq<Edge>)
    ensures forall edge :: edge in JoinedEdges(ids, edges) <==> edge in edges && Joined(ids, edge)
  {
    if edges == [] {
    } else {
      JoinedMembers(ids, edges[..|edges| - 1]);
      assert edges == edges[..|edges| - 1] + [edges[|edges| - 1]];
    }
  }

  lemma {:induction false} IntoMembers(edges: seq<Edge>, id: NodeId)
    ensures forall edge :: edge in EdgesInto(edges, id) <==> edge in edges && edge.target == id
  {
    if edges == [] {
    } else {
      IntoMembers(edges[..|edges| - 1], id);
      assert edges == edges[..|edges| - 1] + [edges[|edges| - 1]];
    }
  }

  lemma {:induction false} FromMembers(edges: seq<Edge>, id: NodeId)
    ensures forall edge :: edge in EdgesFrom(edges, id) <==> edge in edges && edge.source == id
  {
    if edges == [] {
    } else {
      FromMembers(edges[..|edges| - 1], id);
      assert edges == edges[..|edges| - 1] + [edges[|edges| - 1]];
    }
  }

  /** The directed graph a flow draws; parallel edges fall together, edges without an endpoint drop out. */
  ghost function GraphOf(content: FlowContent): Digraph {
    Digraph(Ids(content.nodes), set edge | edge in content.edges :: (edge.source, edge.target))
  }

  lemma ArcIsJoinedEdge(content: FlowContent, a: NodeId, b: NodeId)
    ensures Arc(GraphOf(content), a, b) <==>
            exists edge :: edge in content.edges && Joined(Ids(content.nodes), edge) && edge.source == a && edge.target == b
  {
    if Arc(GraphOf(content), a, b) {
      var edge :| edge in content.edges && (edge.source, edge.target) == (a, b);
      assert Joined(Ids(content.nodes), edge);
    }
  }

  // ----- the two edge indexes: `incoming[target]` and `outgoing[source]` -----

  /** Reading a `defaultdict(list)`. */
  function Bucket(index: map<NodeId, seq<Edge>>, id: NodeId): seq<Edge> {
    if id in index then index[id] else []
  }

  ghost predicate Indexed(content: FlowContent, upTo: nat, incoming: map<NodeId, seq<Edge>>, outgoing: map<NodeId, seq<Edge>>)
    requires upTo <= |content.edges|
  {
    var joined := JoinedEdges(Ids(content.nodes), content.edges[..upTo]);
    && (forall id :: Bucket(incoming, id) == EdgesInto(joined, id))
    && (forall id :: Bucket(outgoing, id) == EdgesFrom(joined, id))
  }

  lemma IndexSnoc(edges: seq<Edge>, edge: Edge, id: NodeId)
    ensures EdgesInto(edges + [edge], id) == EdgesInto(edges, id) + if edge.target == id then [edge] else []
    ensures EdgesFrom(edges + [edge], id) == EdgesFrom(edges, id) + if edge.source == id then [edge] else []
  {
    assert (edges + [edge])[..|edges|] == edges;
  }

  lemma JoinedSnoc(content: FlowContent, j: nat)
    requires j < |content.edges|
    ensures var before := JoinedEdges(Ids(content.nodes), content.edges[..j]);
            JoinedEdges(Ids(content.nodes), content.edges[..j + 1]) ==
            if Joined(Ids(content.nodes), content.edges[j]) then before + [content.edges[j]] else before
  {
    assert content.edges[..j + 1][..j] == content.edges[..j];
  }

  lemma IndexedSkip(content: FlowContent, j: nat, incoming: map<NodeId, seq<Edge>>, outgoing: map<NodeId, seq<Edge>>)
    requires j < |content.edges| && !Joined(Ids(content.nodes), content.edges[j])
    requires Indexed(content, j, incoming, outgoing)
    ensures Indexed(content, j + 1, incoming, outgoing)
  {
    JoinedSnoc(content, j);
  }

  lemma IndexedStep(content: FlowContent, j: nat, incoming: map<NodeId, seq<Edge>>, outgoing: map<NodeId, seq<Edge>>)
    requires j < |content.edges| && Joined(Ids(content.nodes), content.edges[j])
    requires Indexed(content, j, incoming, outgoing)
    ensures var edge := content.edges[j];
            Indexed(content, j + 1,
                    incoming[edge.target := Bucket(incoming, edge.target) + [edge]],
                    outgoing[edge.source := Bucket(outgoing, edge.source) + [edge]])
  {
    var edge := content.edges[j];
    var before := JoinedEdges(Ids(content.nodes), content.edges[..j]);
    var incoming' := incoming[edge.target := Bucket(incoming, edge.target) + [edge]];
    var outgoing' := outgoing[edge.source := Bucket(outgoing, edge.source) + [edge]];
    JoinedSnoc(content, j);
    forall id
      ensures Bucket(incoming', id) == EdgesInto(before + [edge], id)
      ensures Bucket(outgoing', id) == EdgesFrom(before + [edge], id)
    {
      IndexSnoc(before, edge, id);
      assert Bucket(incoming, id) == EdgesInto(before, id);
      assert Bucket(outgoing, id) == EdgesFrom(before, id);
    }
  }
}
