/**
 The sweep executor of `GenericFlowWorkflow.run` (backend/app/temporal/workflows.py) as a function of the flow, the run input, the
 behaviour of the nodes and the order in which a sweep visits them. The workflow method itself,
 with the database rows it writes, is in `Workflow`; it is proved to compute `Execute`.
 */
module Engine {
  import opened Wrappers
  import opened Json
  import opened Digraphs
  import opened Flows

  /** A node's execution to its end, as a function of the node and its inputs. */
  type Handler = (Node, Json) -> Result<Object, string>

  datatype Job = Job(content: FlowContent, input: Json, handler: Handler) {
    function Nodes(): map<NodeId, Node> {
      ById(content.nodes)
    }

    function Type(id: NodeId): string
      requires id in Nodes()
    {
      Nodes()[id].data.nodeType
    }

    function Into(id: NodeId): seq<Edge> {
      EdgesInto(content.edges, id)
    }

    /** Edges whose endpoint is missing make the source raise `KeyError` while it builds its indexes. */
    predicate Runnable() {
      forall edge :: edge in content.edges ==> Joined(Nodes().Keys, edge)
    }
  }

  datatype Status = Pending | Success | Skipped

  /** `trace` lists the nodes in the order in which they were executed or skipped. */
  datatype State = State(statuses: map<NodeId, Status>, outputs: map<NodeId, Object>, trace: seq<NodeId>)

  function Get(fields: Object, key: string): Json {
    if key in fields then fields[key] else Null
  }

  function HandleValue(handle: Option<string>): Json {
    match handle
    case None => Null
    case Some(name) => Str(name)
  }

  /** `_active_edge`. */
  predicate ActiveEdge(edge: Edge, upstreamStatus: Status, upstreamOutput: Option<Object>, upstreamType: string) {
    && upstreamStatus == Success
    && (upstreamType != "condition" ||
        (upstreamOutput.Some? && upstreamOutput.value != map[] && Get(upstreamOutput.value, "branch") == HandleValue(edge.sourceHandle)))
  }

  function OutputOf(outputs: map<NodeId, Object>, id: NodeId): Option<Object> {
    if id in outputs then Some(outputs[id]) else None
  }

  /** An edge carries data: its source is known to be done, and the edge is active. */
  predicate Fires(job: Job, statuses: map<NodeId, Status>, outputs: map<NodeId, Object>, edge: Edge) {
    && edge.source in statuses && edge.source in job.Nodes()
    && ActiveEdge(edge, statuses[edge.source], OutputOf(outputs, edge.source), job.Type(edge.source))
  }

  function FiringEdges(job: Job, statuses: map<NodeId, Status>, outputs: map<NodeId, Object>, edges: seq<Edge>): seq<Edge> {
    if edges == [] then []
    else (if Fires(job, statuses, outputs, edges[0]) then [edges[0]] else []) + FiringEdges(job, statuses, outputs, edges[1..])
  }

  lemma {:induction false} FiringMembers(job: Job, statuses: map<NodeId, Status>, outputs: map<NodeId, Object>, edges: seq<Edge>)
    ensures forall edge :: edge in FiringEdges(job, statuses, outputs, edges) <==> edge in edges && Fires(job, statuses, outputs, edge)
  {
    if edges == [] {
    } else {
      FiringMembers(job, statuses, outputs, edges[1..]);
      assert edges == [edges[0]] + edges[1..];
    }
  }

  /** What a node hands to its successors: a condition hands on its `data`, not its verdict. */
  function Contribution(job: Job, outputs: map<NodeId, Object>, source: NodeId): Json {
    var output := if source in outputs then outputs[source] else map[];
    if source in job.Nodes() && job.Type(source) == "condition" then
      if "data" in output then output["data"] else Obj(map[])
    else Obj(output)
  }

  function Sources(edges: seq<Edge>): set<NodeId> {
    set edge | edge in edges :: edge.source
  }

  function Collected(job: Job, outputs: map<NodeId, Object>, active: seq<Edge>): map<NodeId, Json> {
    map source | source in Sources(active) :: Contribution(job, outputs, source)
  }

  /** `_collect_inputs`: one source is passed through, several are gathered under `sources`. */
  function Inputs(job: Job, outputs: map<NodeId, Object>, active: seq<Edge>): Json {
    if active == [] then job.input
    else
      var collected := Collected(job, outputs, active);
      assert active[0].source in collected;
      if |collected| == 1 then collected[active[0].source] else Obj(map["sources" := Obj(collected)])
  }

  datatype Verdict = Wait | Skip | Run(inputs: Json)

  predicate UpstreamDone(statuses: map<NodeId, Status>, into: seq<Edge>) {
    forall edge :: edge in into ==> edge.source in statuses && statuses[edge.source] != Pending
  }

  /** Lines 103-133: what a sweep does with a pending node. */
  function Decide(job: Job, statuses: map<NodeId, Status>, outputs: map<NodeId, Object>, id: NodeId): Verdict {
    var into := job.Into(id);
    if into == [] then Run(job.input)
    else if !UpstreamDone(statuses, into) then Wait
    else
      var active := FiringEdges(job, statuses, outputs, into);
      if active == [] then Skip else Run(Inputs(job, outputs, active))
  }

  datatype Progress = Moved(state: State) | Stopped(state: State, id: NodeId, error: string)

  function Visit(job: Job, st: State, id: NodeId): Progress
    requires id in job.Nodes() && id in st.statuses
  {
    if st.statuses[id] != Pending then Moved(st)
    else
      match Decide(job, st.statuses, st.outputs, id)
      case Wait => Moved(st)
      case Skip => Moved(State(st.statuses[id := Skipped], st.outputs, st.trace + [id]))
      case Run(inputs) =>
        match job.handler(job.Nodes()[id], inputs)
        case Ok(output) => Moved(State(st.statuses[id := Success], st.outputs[id := output], st.trace + [id]))
        case Err(error) => Stopped(st, id, error)
  }

  /** Lines 100-162: one sweep. */
  function Sweep(job: Job, order: seq<NodeId>, st: State): (r: Progress)
    requires st.statuses.Keys == job.Nodes().Keys
    requires forall id :: id in order ==> id in job.Nodes()
    ensures r.state.statuses.Keys == job.Nodes().Keys
    ensures PendingIn(r.state) <= PendingIn(st) && |PendingIn(r.state)| <= |PendingIn(st)|
    ensures |r.state.trace| + |PendingIn(r.state)| == |st.trace| + |PendingIn(st)|
  {
    if order == [] then Moved(st)
    else
      var r := Visit(job, st, order[0]);
      assert r.state != st ==> PendingIn(r.state) == PendingIn(st) - {order[0]} && order[0] in PendingIn(st);
      match r
      case Stopped(_, _, _) => r
      case Moved(next) => Sweep(job, order[1..], next)
  }

  function PendingIn(st: State): set<NodeId> {
    set id | id in st.statuses && st.statuses[id] == Pending
  }

  datatype Outcome =
    | Completed(state: State, output: Object)
    | NodeFailed(state: State, id: NodeId, error: string)
    | NoProgress(state: State)

  lemma OnlyMember(s: set<NodeId>, a: NodeId, b: NodeId)
    requires |s| == 1 && a in s && b in s
    ensures a == b
  {
    var rest := s - {a};
    assert |rest| == 0;
    assert b !in rest;
  }

  function FinishedEnds(job: Job, st: State): set<NodeId> {
    set id | id in job.Nodes() && job.Type(id) == "end" && id in st.statuses && st.statuses[id] == Success
  }

  /** Lines 165-170: the output of the only End that ran, or the outputs of all of them by id. */
  function EndOutput(job: Job, st: State): Object {
    var ends := FinishedEnds(job, st);
    if |ends| == 1 then
      assert forall a, b :: a in ends && b in ends ==> a == b by {
        forall a, b | a in ends && b in ends ensures a == b { OnlyMember(ends, a, b); }
      }
      var id :| id in ends;
      if id in st.outputs then st.outputs[id] else map[]
    else map id | id in ends :: Obj(if id in st.outputs then st.outputs[id] else map[])
  }

  /** Lines 98-195: sweep until every node is done, a node fails or a sweep changes nothing. */
  function Drive(job: Job, order: seq<NodeId>, st: State): Outcome
    requires st.statuses.Keys == job.Nodes().Keys
    requires forall id :: id in order ==> id in job.Nodes()
    decreases |PendingIn(st)|
  {
    match Sweep(job, order, st)
    case Stopped(next, id, error) => NodeFailed(next, id, error)
    case Moved(next) =>
      if PendingIn(next) == {} then Completed(next, EndOutput(job, next))
      else if |next.trace| == |st.trace| then NoProgress(next)
      else Drive(job, order, next)
  }

  /** How many sweeps `Drive` makes. */
  ghost function SweepCount(job: Job, order: seq<NodeId>, st: State): nat
    requires st.statuses.Keys == job.Nodes().Keys
    requires forall id :: id in order ==> id in job.Nodes()
    decreases |PendingIn(st)|
  {
    match Sweep(job, order, st)
    case Stopped(_, _, _) => 1
    case Moved(next) =>
      if PendingIn(next) == {} || |next.trace| == |st.trace| then 1 else 1 + SweepCount(job, order, next)
  }

  function Initial(job: Job): State {
    State(map id | id in job.Nodes() :: Pending, map[], [])
  }

  ghost predicate Enumerates(order: seq<NodeId>, ids: set<NodeId>) {
    forall id :: id in order <==> id in ids
  }

  function Execute(job: Job, order: seq<NodeId>): Outcome
    requires forall id :: id in order ==> id in job.Nodes()
  {
    Drive(job, order, Initial(job))
  }
}
