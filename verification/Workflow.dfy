/**
 `GenericFlowWorkflow.run` (backend/app/temporal/workflows.py) together with the activities that project its progress onto the
 database rows of the run. Each activity is one atomic change of the rows.
 */
module Workflow {
  import opened Wrappers
  import opened Json
  import opened Digraphs
  import opened Flows
  import opened Redaction
  import opened NodeHandlers
  import opened Polling
  import opened Engine
  import opened EngineInvariants
  import opened Ordering
  import CallbackProtocol

  datatype RunStatus = RunPending | RunRunning | RunWaiting | RunWaitingCallback | RunSuccess | RunFailed

  datatype RowStatus = RowPending | RowRunning | RowWaiting | RowWaitingCallback | RowPollWait | RowSuccess | RowFailed | RowSkipped

  datatype NodeRow = NodeRow(status: RowStatus, attempts: nat, output: Option<Object>, error: Option<string>)

  datatype ManualSignal = ManualSignal(data: Object, decision: Json, comment: Json, resumedAt: string)

  datatype CallbackSignal = CallbackSignal(callbackId: string, data: Object, receivedAt: string)

  /**
   What the workflow cannot see into: the handlers, the text of the `ActivityError` that Temporal wraps around a
   handler's last error, the record of a new callback wait, and the signals that arrive for waiting nodes.
   */
  datatype World = World(tries: Tries, wrapped: string -> string, waitRecord: NodeId -> Json,
                         manual: NodeId -> ManualSignal, callback: NodeId -> CallbackSignal)

  function Fields(inputs: Json): Object {
    if inputs.Obj? then inputs.fields else map[]
  }

  function ManualOutput(inputs: Json, signal: ManualSignal): Object {
    Fields(inputs) + signal.data
    + map["manualDecision" := signal.decision, "manualComment" := signal.comment, "manualResumedAt" := Str(signal.resumedAt)]
  }

  function CallbackOutput(inputs: Json, signal: CallbackSignal): Object {
    CallbackProtocol.CompletedOutput(Fields(inputs), signal.data, CallbackProtocol.CallbackRecord(signal.callbackId, signal.receivedAt))
  }

  /** What executing a node to its end comes to. */
  function Behave(world: World, node: Node, inputs: Json): Result<Object, string>
    requires RespectsPollLimit(world.tries)
  {
    if node.data.nodeType == "manual_approval" then Ok(ManualOutput(inputs, world.manual(node.id)))
    else if node.data.nodeType == "http_callback" then Ok(CallbackOutput(inputs, world.callback(node.id)))
    else Reported(world, Polling.Run(world.tries, node, inputs).result)
  }

  /** The same as the sweep executor sees it. */
  function Behaviour(world: World): Handler
    requires RespectsPollLimit(world.tries)
  {
    (node: Node, inputs: Json) => Behave(world, node, inputs)
  }

  /** `str(exc)` of the error an activity ends with. */
  function Reported(world: World, result: Result<Object, string>): Result<Object, string> {
    match result
    case Ok(out) => Ok(out)
    case Err(error) => Err(world.wrapped(error))
  }

  /** A manual approval hands on its inputs overlaid by the data of the signal, and that by the decision. */
  lemma ManualOutputMeans(inputs: Json, signal: ManualSignal, key: string)
    ensures var output, record := ManualOutput(inputs, signal), {"manualDecision", "manualComment", "manualResumedAt"};
            && record <= output.Keys
            && output["manualDecision"] == signal.decision && output["manualComment"] == signal.comment
            && output["manualResumedAt"] == Str(signal.resumedAt)
            && (key !in record ==>
                  && (key in output <==> key in signal.data || (inputs.Obj? && key in inputs.fields))
                  && (key in signal.data ==> output[key] == signal.data[key])
                  && (key !in signal.data && inputs.Obj? && key in inputs.fields ==> output[key] == inputs.fields[key]))
  {
  }

  /** A callback hands on its inputs overlaid by the redacted data of the signal, and that by the record of the callback. */
  lemma CallbackOutputMeans(inputs: Json, signal: CallbackSignal, key: string)
    ensures var output, data := CallbackOutput(inputs, signal), Redact(Obj(signal.data));
            && "_callback" in output && data.Obj? && data.fields.Keys == signal.data.Keys
            && output["_callback"] == Obj(map["id" := Str(signal.callbackId), "status" := Str("RECEIVED"), "receivedAt" := Str(signal.receivedAt)])
            && (key != "_callback" ==>
                  && (key in output <==> key in signal.data || (inputs.Obj? && key in inputs.fields))
                  && (key in signal.data ==> output[key] == data.fields[key])
                  && (key !in signal.data && inputs.Obj? && key in inputs.fields ==> output[key] == inputs.fields[key]))
  {
  }

  /** Some try of the node's handlers came to this. */
  ghost predicate SomeTry(world: World, node: Node, inputs: Json, t: Try) {
    exists attempt: nat, k: nat :: world.tries(node, inputs, attempt, k) == t
  }

  /**
   A node that runs handlers succeeds with what some try returned, redacted, and fails with the text that Temporal makes of
   some try's error.
   */
  lemma HandlerOutcome(world: World, node: Node, inputs: Json)
    requires RespectsPollLimit(world.tries) && node.data.nodeType != "manual_approval" && node.data.nodeType != "http_callback"
    ensures match Behaviour(world)(node, inputs)
            case Ok(output) => exists out :: output == RedactObject(out) && SomeTry(world, node, inputs, Returned(out))
            case Err(text) => exists error :: text == world.wrapped(error) && SomeTry(world, node, inputs, Raised(error))
  {
    SettleTells(world.tries, node, inputs, 1, 0);
    var settled := Polling.Run(world.tries, node, inputs);
    var k: nat :| LastActivity(world.tries, node, inputs, settled, k);
    var last := world.tries(node, inputs, Max(settled.rounds, settled.calls - k), settled.calls - 1);
    assert SomeTry(world, node, inputs, last);
    match settled.result
    case Ok(output) => assert output == RedactObject(last.output) && last == Returned(last.output);
    case Err(error) => assert last == Raised(error);
  }

  /** The rows of one run: `FlowRun` and its `NodeRun`s. The methods are the activities. */
  class RunRows {
    var status: RunStatus
    var output: Option<Object>
    var error: Option<string>
    var nodes: map<NodeId, NodeRow>

    /** `_create_run_projection`: a pending row for the run and for every node. */
    constructor (ids: set<NodeId>)
      ensures status == RunPending && output == None && error == None
      ensures nodes == map id | id in ids :: NodeRow(RowPending, 0, None, None)
    {
      status, output, error := RunPending, None, None;
      nodes := map id | id in ids :: NodeRow(RowPending, 0, None, None);
    }

    method MarkRun(newStatus: RunStatus, newOutput: Option<Object>, newError: Option<string>)
      modifies this
      ensures status == newStatus && nodes == old(nodes)
      ensures output == if newOutput.Some? then newOutput else old(output)
      ensures error == if newError.Some? then newError else old(error)
    {
      status := newStatus;
      if newOutput.Some? { output := newOutput; }
      if newError.Some? { error := newError; }
    }

    method MarkNodeSkipped(id: NodeId)
      requires id in nodes
      modifies this
      ensures nodes == old(nodes)[id := old(nodes)[id].(status := RowSkipped)]
      ensures status == old(status) && output == old(output) && error == old(error)
    {
      nodes := nodes[id := nodes[id].(status := RowSkipped)];
    }

    method MarkNodeFailed(id: NodeId, message: string)
      requires id in nodes
      modifies this
      ensures nodes == old(nodes)[id := old(nodes)[id].(status := RowFailed, error := Some(message))]
      ensures status == RunFailed && output == old(output)
      ensures error == Some("Node '" + id + "' failed: " + message)
    {
      nodes := nodes[id := nodes[id].(status := RowFailed, error := Some(message))];
      status := RunFailed;
      error := Some("Node '" + id + "' failed: " + message);
    }

    /** `execute_node_activity`: one try; the row shows how it ended. */
    method ExecuteNode(world: World, node: Node, inputs: Json, round: nat, retry: nat, k: nat) returns (t: Try)
      requires node.id in nodes
      modifies this
      ensures t == world.tries(node, inputs, Max(round, retry), k)
      ensures nodes == old(nodes)[node.id := AfterTry(old(nodes)[node.id], Max(round, retry), t)]
      ensures status == old(status) && output == old(output) && error == old(error)
    {
      var row := nodes[node.id].(status := RowRunning, attempts := Max(round, retry));
      nodes := nodes[node.id := row];
      t := world.tries(node, inputs, row.attempts, k);
      match t {
        case Returned(out) => row := row.(output := Some(RedactObject(out)), status := RowSuccess, error := None);
        case PollPending(last) => row := row.(output := Some(RedactObject(last)), status := RowPollWait, error := None);
        case Raised(message) => row := row.(status := RowFailed, error := Some(message));
      }
      nodes := nodes[node.id := row];
    }

    /** `create_manual_wait_activity` and `create_callback_wait_activity`; the latter shows the wait as a provisional output. */
    method CreateWait(id: NodeId, attempt: nat, waiting: RowStatus, runWaiting: RunStatus, provisional: Option<Object>)
      requires id in nodes
      modifies this
      ensures nodes == old(nodes)[id := old(nodes)[id].(status := waiting, attempts := Max(old(nodes)[id].attempts, attempt),
                                                        output := if provisional.Some? then provisional else old(nodes)[id].output)]
      ensures status == runWaiting && output == old(output) && error == old(error)
    {
      var row := nodes[id].(status := waiting, attempts := Max(nodes[id].attempts, attempt));
      if provisional.Some? { row := row.(output := provisional); }
      nodes := nodes[id := row];
      status := runWaiting;
    }

    method CompleteManualWait(id: NodeId, out: Object)
      requires id in nodes
      modifies this
      ensures nodes == old(nodes)[id := old(nodes)[id].(status := RowSuccess, output := Some(out))]
      ensures status == RunRunning && output == old(output) && error == old(error)
    {
      nodes := nodes[id := nodes[id].(status := RowSuccess, output := Some(out))];
      status := RunRunning;
    }

    method CompleteCallbackWait(id: NodeId, out: Object)
      requires id in nodes
      modifies this
      ensures nodes == old(nodes)[id := old(nodes)[id].(status := RowSuccess, output := Some(out), error := None)]
      ensures status == RunRunning && output == old(output) && error == old(error)
    {
      nodes := nodes[id := nodes[id].(status := RowSuccess, output := Some(out), error := None)];
      status := RunRunning;
    }
  }

  function AfterTry(row: NodeRow, attempt: nat, t: Try): NodeRow {
    match t
    case Returned(out) => NodeRow(RowSuccess, attempt, Some(RedactObject(out)), None)
    case PollPending(last) => NodeRow(RowPollWait, attempt, Some(RedactObject(last)), None)
    case Raised(message) => NodeRow(RowFailed, attempt, row.output, Some(message))
  }

  /** The row after a try: the attempt number, and the status, output and error that the try calls for. */
  lemma RowAfterTry(row: NodeRow, attempt: nat, t: Try)
    ensures var after := AfterTry(row, attempt, t);
            && after.attempts == attempt
            && match t
               case Returned(out) => after.status == RowSuccess && after.output == Some(RedactObject(out)) && after.error == None
               case PollPending(last) => after.status == RowPollWait && after.output == Some(RedactObject(last)) && after.error == None
               case Raised(message) => after.status == RowFailed && after.output == row.output && after.error == Some(message)
  {
  }

  // ----- executing one node -----

  /** The rows other than `id` are as before, and so is the run's output and error. */
  twostate predicate OnlyNode(rows: RunRows, id: NodeId)
    reads rows
  {
    && rows.nodes.Keys == old(rows.nodes.Keys)
    && (forall x :: x in rows.nodes && x != id ==> rows.nodes[x] == old(rows.nodes)[x])
    && rows.output == old(rows.output) && rows.error == old(rows.error)
  }

  /** One activity with Temporal's retries: after a raise, another try, up to the node's limit. */
  method RunActivity(rows: RunRows, world: World, node: Node, inputs: Json, round: nat, k: nat) returns (t: Try, calls: nat)
    requires node.id in rows.nodes
    modifies rows
    ensures (t, calls) == Activity(world.tries, node, inputs, round, 1, k)
    ensures OnlyNode(rows, node.id) && rows.status == old(rows.status)
    ensures node.id in rows.nodes && rows.nodes[node.id].status == (match t case Returned(_) => RowSuccess case PollPending(_) => RowPollWait case Raised(_) => RowFailed)
    ensures t.Returned? ==> rows.nodes[node.id].output == Some(RedactObject(t.output)) && rows.nodes[node.id].error == None
  {
    var retry: nat := 1;
    calls := k + 1;
    t := rows.ExecuteNode(world, node, inputs, round, retry, k);
    while t.Raised? && retry < MaxAttempts(node.data)
      invariant 1 <= retry <= MaxAttempts(node.data) && calls == k + retry
      invariant t == world.tries(node, inputs, Max(round, retry), calls - 1)
      invariant Activity(world.tries, node, inputs, round, 1, k) == Activity(world.tries, node, inputs, round, retry, calls - 1)
      invariant OnlyNode(rows, node.id) && rows.status == old(rows.status) && node.id in rows.nodes
      invariant rows.nodes[node.id].status == match t case Returned(_) => RowSuccess case PollPending(_) => RowPollWait case Raised(_) => RowFailed
      invariant t.Returned? ==> rows.nodes[node.id].output == Some(RedactObject(t.output)) && rows.nodes[node.id].error == None
      decreases MaxAttempts(node.data) - retry
    {
      retry := retry + 1;
      t := rows.ExecuteNode(world, node, inputs, round, retry, calls);
      calls := calls + 1;
    }
  }

  /** `_execute_node` for a manual approval or a callback: create the wait, take the signal, complete. */
  method AwaitSignal(rows: RunRows, world: World, node: Node, inputs: Json, attempt: nat) returns (out: Object)
    requires RespectsPollLimit(world.tries) && node.id in rows.nodes && rows.status == RunRunning
    requires node.data.nodeType == "manual_approval" || node.data.nodeType == "http_callback"
    modifies rows
    ensures out == if node.data.nodeType == "manual_approval" then ManualOutput(inputs, world.manual(node.id)) else CallbackOutput(inputs, world.callback(node.id))
    ensures OnlyNode(rows, node.id) && rows.status == RunRunning && node.id in rows.nodes
    ensures rows.nodes[node.id].status == RowSuccess && rows.nodes[node.id].output == Some(out)
  {
    if node.data.nodeType == "manual_approval" {
      rows.CreateWait(node.id, attempt, RowWaiting, RunWaiting, None);
      out := ManualOutput(inputs, world.manual(node.id));
      rows.CompleteManualWait(node.id, out);
    } else {
      rows.CreateWait(node.id, attempt, RowWaitingCallback, RunWaitingCallback, Some(map["_callback" := world.waitRecord(node.id)]));
      out := CallbackOutput(inputs, world.callback(node.id));
      rows.CompleteCallbackWait(node.id, out);
    }
  }

  /** Lines 147-158: activity rounds until the node settles. */
  method PollToEnd(rows: RunRows, world: World, node: Node, inputs: Json) returns (result: Result<Object, string>)
    requires RespectsPollLimit(world.tries) && node.id in rows.nodes && rows.status == RunRunning
    modifies rows
    ensures result == Reported(world, Polling.Run(world.tries, node, inputs).result)
    ensures OnlyNode(rows, node.id) && rows.status == RunRunning && node.id in rows.nodes
    ensures match result
            case Ok(out) => rows.nodes[node.id].status == RowSuccess && rows.nodes[node.id].output == Some(out)
            case Err(_) => rows.nodes[node.id].status == RowFailed
  {
    var attempts: nat := 1;
    var t, calls := RunActivity(rows, world, node, inputs, attempts, 0);
    while t.PollPending?
      invariant 1 <= attempts && OnlyNode(rows, node.id) && rows.status == RunRunning && node.id in rows.nodes
      invariant exists k: nat :: (t, calls) == Activity(world.tries, node, inputs, attempts, 1, k)
                           && Polling.Run(world.tries, node, inputs) == Settle(world.tries, node, inputs, attempts, k)
      invariant rows.nodes[node.id].status == match t case Returned(_) => RowSuccess case PollPending(_) => RowPollWait case Raised(_) => RowFailed
      invariant t.Returned? ==> rows.nodes[node.id].output == Some(RedactObject(t.output)) && rows.nodes[node.id].error == None
      decreases MaxAttempts(node.data) - attempts
    {
      ghost var k: nat :| (t, calls) == Activity(world.tries, node, inputs, attempts, 1, k)
                     && Polling.Run(world.tries, node, inputs) == Settle(world.tries, node, inputs, attempts, k);
      PendingRoundIsBelowLimit(world.tries, node, inputs, attempts, 1, k);
      attempts := attempts + 1;
      ghost var next := calls;
      t, calls := RunActivity(rows, world, node, inputs, attempts, calls);
      assert (t, calls) == Activity(world.tries, node, inputs, attempts, 1, next)
             && Polling.Run(world.tries, node, inputs) == Settle(world.tries, node, inputs, attempts, next);
    }
    result := if t.Returned? then Ok(RedactObject(t.output)) else Err(world.wrapped(t.error));
  }

  /** Lines 136-162 and `_execute_node`: a wait for a signal, or activity rounds until the node settles. */
  method ExecuteToEnd(rows: RunRows, world: World, node: Node, inputs: Json) returns (result: Result<Object, string>)
    requires RespectsPollLimit(world.tries) && node.id in rows.nodes && rows.status == RunRunning
    modifies rows
    ensures result == Behaviour(world)(node, inputs)
    ensures OnlyNode(rows, node.id) && rows.status == RunRunning && node.id in rows.nodes
    ensures match result
            case Ok(out) => rows.nodes[node.id].status == RowSuccess && rows.nodes[node.id].output == Some(out)
            case Err(_) => rows.nodes[node.id].status == RowFailed
  {
    if node.data.nodeType == "manual_approval" || node.data.nodeType == "http_callback" {
      var out := AwaitSignal(rows, world, node, inputs, 1);
      return Ok(out);
    }
    result := PollToEnd(rows, world, node, inputs);
  }

  // ----- the run -----

  function RowOf(status: Status): RowStatus {
    match status
    case Pending => RowPending
    case Success => RowSuccess
    case Skipped => RowSkipped
  }

  /** The rows show what the workflow's dictionaries hold. */
  ghost predicate Mirrors(nodes: map<NodeId, NodeRow>, st: State) {
    && nodes.Keys == st.statuses.Keys
    && (forall id :: id in nodes ==> nodes[id].status == RowOf(st.statuses[id]))
    && (forall id :: id in nodes && id in st.outputs ==> nodes[id].output == Some(st.outputs[id]))
  }

  lemma CollectOneMore(job: Job, outputs: map<NodeId, Object>, active: seq<Edge>, i: nat)
    requires i < |active|
    ensures Collected(job, outputs, active[..i + 1]) ==
            Collected(job, outputs, active[..i])[active[i].source := Contribution(job, outputs, active[i].source)]
  {
    assert active[..i + 1] == active[..i] + [active[i]];
    assert Sources(active[..i + 1]) == Sources(active[..i]) + {active[i].source};
  }

  /** `_collect_inputs`. */
  method CollectInputs(job: Job, outputs: map<NodeId, Object>, active: seq<Edge>) returns (inputs: Json)
    ensures inputs == Inputs(job, outputs, active)
  {
    if active == [] {
      return job.input;
    }
    var collected: map<NodeId, Json> := map[];
    for i := 0 to |active|
      invariant collected == Collected(job, outputs, active[..i])
    {
      var source := active[i].source;
      CollectOneMore(job, outputs, active, i);
      collected := collected[source := Contribution(job, outputs, source)];
    }
    assert active[..|active|] == active;
    assert active[0].source in Sources(active);
    inputs := if |collected| == 1 then collected[active[0].source] else Obj(map["sources" := Obj(collected)]);
  }

  /** The final rows agree with the outcome of the workflow. */
  ghost predicate FinalRows(status: RunStatus, output: Option<Object>, nodes: map<NodeId, NodeRow>, outcome: Outcome) {
    match outcome
    case Completed(st, out) => status == RunSuccess && output == Some(out) && Mirrors(nodes, st)
    case NodeFailed(st, id, _) =>
      && status == RunFailed && id in nodes && nodes[id].status == RowFailed
      && id in st.statuses && Mirrors(nodes[id := nodes[id].(status := RowOf(st.statuses[id]))], st)
    case NoProgress(st) => status == RunFailed && Mirrors(nodes, st)
  }

  lemma MirrorsFinish(before: map<NodeId, NodeRow>, after: map<NodeId, NodeRow>, st: State, next: State, id: NodeId)
    requires Mirrors(before, st) && id in before && after.Keys == before.Keys
    requires forall x :: x in after && x != id ==> after[x] == before[x]
    requires next.statuses.Keys == st.statuses.Keys && after[id].status == RowOf(next.statuses[id])
    requires forall x :: x != id ==> AgreeOn(st, next, x)
    requires id in next.outputs ==> after[id].output == Some(next.outputs[id])
    ensures Mirrors(after, next)
  {
    forall x | x in after ensures after[x].status == RowOf(next.statuses[x]) {
      if x != id { assert AgreeOn(st, next, x); }
    }
    forall x | x in after && x in next.outputs ensures after[x].output == Some(next.outputs[x]) {
      if x != id { assert AgreeOn(st, next, x); }
    }
  }

  lemma MirrorsFailure(before: map<NodeId, NodeRow>, after: map<NodeId, NodeRow>, st: State, id: NodeId)
    requires Mirrors(before, st) && id in before && after.Keys == before.Keys
    requires forall x :: x in after && x != id ==> after[x] == before[x]
    requires id !in st.outputs
    ensures Mirrors(after[id := after[id].(status := RowOf(st.statuses[id]))], st)
  {
  }

  function Finish(st: State, id: NodeId, result: Result<Object, string>): Progress {
    match result
    case Ok(out) => Moved(State(st.statuses[id := Success], st.outputs[id := out], st.trace + [id]))
    case Err(message) => Stopped(st, id, message)
  }

  /** The rows after a step of the sweep. */
  ghost predicate RowsFollow(status: RunStatus, output: Option<Object>, nodes: map<NodeId, NodeRow>, r: Progress) {
    match r
    case Moved(next) => status == RunRunning && Mirrors(nodes, next)
    case Stopped(st, id, message) => FinalRows(status, output, nodes, NodeFailed(st, id, message))
  }

  /** Lines 133-162: execute a node whose turn has come. */
  method ExecutePending(rows: RunRows, world: World, node: Node, inputs: Json, st: State) returns (r: Progress)
    requires RespectsPollLimit(world.tries)
    requires node.id in st.statuses && node.id !in st.outputs
    requires rows.status == RunRunning && Mirrors(rows.nodes, st)
    modifies rows
    ensures r == Finish(st, node.id, Behaviour(world)(node, inputs))
    ensures RowsFollow(rows.status, rows.output, rows.nodes, r) && (r.Moved? ==> rows.output == old(rows.output))
  {
    var result := ExecuteToEnd(rows, world, node, inputs);
    match result {
      case Ok(out) =>
        r := Moved(State(st.statuses[node.id := Success], st.outputs[node.id := out], st.trace + [node.id]));
        MirrorsFinish(old(rows.nodes), rows.nodes, st, r.state, node.id);
      case Err(message) =>
        rows.MarkNodeFailed(node.id, message);
        r := Stopped(st, node.id, message);
        MirrorsFailure(old(rows.nodes), rows.nodes, st, node.id);
    }
  }

  /** Lines 123-131: skip a node none of whose incoming edges is active. */
  method SkipPending(rows: RunRows, id: NodeId, st: State) returns (r: Progress)
    requires id in st.statuses && id !in st.outputs
    requires rows.status == RunRunning && Mirrors(rows.nodes, st)
    modifies rows
    ensures r == Moved(State(st.statuses[id := Skipped], st.outputs, st.trace + [id]))
    ensures RowsFollow(rows.status, rows.output, rows.nodes, r) && rows.output == old(rows.output)
  {
    rows.MarkNodeSkipped(id);
    r := Moved(State(st.statuses[id := Skipped], st.outputs, st.trace + [id]));
    MirrorsFinish(old(rows.nodes), rows.nodes, st, r.state, id);
  }

  /** One pending node of a sweep, lines 101-162: wait, skip or execute, with the rows following suit. */
  method VisitNode(rows: RunRows, world: World, job: Job, st: State, id: NodeId) returns (r: Progress)
    requires RespectsPollLimit(world.tries) && job.handler == Behaviour(world)
    requires id in job.Nodes() && job.Nodes()[id].id == id && st.statuses.Keys == job.Nodes().Keys
    requires id !in st.outputs && st.statuses[id] == Pending
    requires rows.status == RunRunning && Mirrors(rows.nodes, st)
    modifies rows
    ensures r == Visit(job, st, id)
    ensures RowsFollow(rows.status, rows.output, rows.nodes, r) && (r.Moved? ==> rows.output == old(rows.output))
  {
    var into := job.Into(id);
    var active: seq<Edge> := [];
    if into != [] {
      if !UpstreamDone(st.statuses, into) {
        return Moved(st);
      }
      active := FiringEdges(job, st.statuses, st.outputs, into);
      if active == [] {
        r := SkipPending(rows, id, st);
        return;
      }
    }
    var inputs := CollectInputs(job, st.outputs, active);
    assert Decide(job, st.statuses, st.outputs, id) == Verdict.Run(inputs);
    r := ExecutePending(rows, world, job.Nodes()[id], inputs, st);
  }

  /** Lines 99-162: one sweep; it ends early when a node fails. */
  method SweepOnce(rows: RunRows, world: World, job: Job, order: seq<NodeId>, start: State) returns (r: Progress)
    requires RespectsPollLimit(world.tries) && job.handler == Behaviour(world)
    requires Sound(job, start) && forall id :: id in order ==> id in job.Nodes()
    requires rows.status == RunRunning && Mirrors(rows.nodes, start)
    modifies rows
    ensures r == Sweep(job, order, start)
    ensures RowsFollow(rows.status, rows.output, rows.nodes, r) && (r.Moved? ==> rows.output == old(rows.output))
  {
    var st := start;
    for i := 0 to |order|
      invariant Sound(job, st) && rows.status == RunRunning && Mirrors(rows.nodes, st) && rows.output == old(rows.output)
      invariant Sweep(job, order, start) == Sweep(job, order[i..], st)
    {
      var id := order[i];
      assert id in order && order[i..][1..] == order[i + 1..];
      if st.statuses[id] == Pending {
        ByIdFinds(job.content.nodes, id);
        assert Justified(job, st, id);
        VisitKeepsSound(job, st, id);
        var step := VisitNode(rows, world, job, st, id);
        if step.Stopped? {
          return step;
        }
        st := step.state;
      }
    }
    r := Moved(st);
  }

  /** A state of the workflow between two sweeps, with the node rows at that moment. */
  datatype Boundary = Boundary(state: State, nodes: map<NodeId, NodeRow>)

  /** The boundaries follow each other sweep by sweep from the initial state, and at each the rows mirror the state. */
  ghost predicate Boundaries(job: Job, order: seq<NodeId>, history: seq<Boundary>) {
    && (forall id :: id in order ==> id in job.Nodes())
    && history != [] && history[0].state == Initial(job)
    && (forall i :: 0 <= i < |history| ==> history[i].state.statuses.Keys == job.Nodes().Keys && Mirrors(history[i].nodes, history[i].state))
    && (forall i :: 0 <= i < |history| - 1 ==> Sweep(job, order, history[i].state) == Moved(history[i + 1].state))
  }

  lemma ExtendBoundaries(job: Job, order: seq<NodeId>, history: seq<Boundary>, next: Boundary)
    requires Boundaries(job, order, history)
    requires Sweep(job, order, history[|history| - 1].state) == Moved(next.state)
    requires Mirrors(next.nodes, next.state)
    ensures Boundaries(job, order, history + [next])
  {
    var longer := history + [next];
    forall i | 0 <= i < |longer| - 1 ensures Sweep(job, order, longer[i].state) == Moved(longer[i + 1].state) {
      if i < |history| - 1 { assert longer[i] == history[i] && longer[i + 1] == history[i + 1]; }
    }
  }

  /** Lines 164-195: close the run when every node is done or the sweep finished nothing; `None` is another sweep. */
  method Conclude(rows: RunRows, job: Job, next: State, progressed: bool) returns (outcome: Option<Outcome>)
    requires rows.status == RunRunning && Mirrors(rows.nodes, next)
    modifies rows
    ensures outcome == if PendingIn(next) == {} then Some(Completed(next, EndOutput(job, next)))
                       else if progressed then None else Some(NoProgress(next))
    ensures match outcome
            case None => rows.status == RunRunning && rows.nodes == old(rows.nodes)
            case Some(end) => FinalRows(rows.status, rows.output, rows.nodes, end)
  {
    if PendingIn(next) == {} {
      var output := EndOutput(job, next);
      rows.MarkRun(RunSuccess, Some(output), None);
      return Some(Completed(next, output));
    }
    if !progressed {
      rows.MarkRun(RunFailed, None, Some("Workflow made no progress; graph may be invalid"));
      return Some(NoProgress(next));
    }
    outcome := None;
  }

  /** Where the run is between two sweeps: what remains to be done is `Drive` from `st`. */
  ghost predicate Running(job: Job, order: seq<NodeId>, st: State, history: seq<Boundary>) {
    && Boundaries(job, order, history) && history[|history| - 1].state == st
    && Sound(job, st) && Execute(job, order) == Drive(job, order, st)
  }

  lemma RunStep(job: Job, order: seq<NodeId>, st: State, history: seq<Boundary>, r: Progress)
    requires Running(job, order, st, history) && r == Sweep(job, order, st)
    ensures r.Stopped? ==> Execute(job, order) == NodeFailed(r.state, r.id, r.error)
    ensures r.Moved? && PendingIn(r.state) == {} ==> Execute(job, order) == Completed(r.state, EndOutput(job, r.state))
    ensures r.Moved? && PendingIn(r.state) != {} && |r.state.trace| == |st.trace| ==> Execute(job, order) == NoProgress(r.state)
    ensures |r.state.trace| >= |st.trace|
    ensures r.Moved? && PendingIn(r.state) != {} && |r.state.trace| > |st.trace| ==>
              Sound(job, r.state) && Execute(job, order) == Drive(job, order, r.state) && |PendingIn(r.state)| < |PendingIn(st)|
  {
    SweepKeepsSound(job, order, st);
  }

  lemma RunningOn(job: Job, order: seq<NodeId>, st: State, history: seq<Boundary>, next: Boundary)
    requires Running(job, order, st, history) && Sweep(job, order, st) == Moved(next.state) && Mirrors(next.nodes, next.state)
    ensures Boundaries(job, order, history + [next])
    ensures PendingIn(next.state) != {} && |next.state.trace| > |st.trace| ==> Running(job, order, next.state, history + [next])
  {
    ExtendBoundaries(job, order, history, next);
    RunStep(job, order, st, history, Moved(next.state));
  }

  /** Lines 98-195: sweep until the run is closed. */
  method SweepToEnd(rows: RunRows, world: World, job: Job, order: seq<NodeId>) returns (outcome: Outcome, ghost history: seq<Boundary>)
    requires RespectsPollLimit(world.tries) && job.handler == Behaviour(world)
    requires forall id :: id in order ==> id in job.Nodes()
    requires rows.status == RunRunning && Mirrors(rows.nodes, Initial(job))
    modifies rows
    ensures outcome == Execute(job, order)
    ensures Boundaries(job, order, history)
    ensures FinalRows(rows.status, rows.output, rows.nodes, outcome)
  {
    var st := Initial(job);
    history := [Boundary(st, rows.nodes)];
    while true
      invariant rows.status == RunRunning && Mirrors(rows.nodes, st)
      invariant Running(job, order, st, history)
      decreases |PendingIn(st)|
    {
      var r := SweepOnce(rows, world, job, order, st);
      RunStep(job, order, st, history, r);
      if r.Stopped? {
        outcome := NodeFailed(r.state, r.id, r.error);
        return;
      }
      RunningOn(job, order, st, history, Boundary(r.state, rows.nodes));
      history := history + [Boundary(r.state, rows.nodes)];
      var end := Conclude(rows, job, r.state, |st.trace| < |r.state.trace|);
      if end.Some? {
        outcome := end.value;
        return;
      }
      st := r.state;
    }
  }

  /**
   `GenericFlowWorkflow.run`: the outcome is that of the sweep executor over the sorted node ids; at every
   sweep boundary the node rows mirror the statuses; at the end the rows of the run and of its nodes agree
   with the outcome.
   */
  method Run(rows: RunRows, world: World, content: FlowContent, input: Json)
    returns (outcome: Outcome, ghost order: seq<NodeId>, ghost history: seq<Boundary>)
    requires RespectsPollLimit(world.tries)
    requires Job(content, input, Behaviour(world)).Runnable()
    requires rows.nodes == map id | id in Ids(content.nodes) :: NodeRow(RowPending, 0, None, None)
    modifies rows
    ensures Sorted(order) && Enumerates(order, Ids(content.nodes))
    ensures outcome == Execute(Job(content, input, Behaviour(world)), order)
    ensures Boundaries(Job(content, input, Behaviour(world)), order, history)
    ensures FinalRows(rows.status, rows.output, rows.nodes, outcome)
  {
    var job := Job(content, input, Behaviour(world));
    var ids := SortIds(job.Nodes().Keys);
    order := ids;
    rows.MarkRun(RunRunning, None, None);
    outcome, history := SweepToEnd(rows, world, job, ids);
  }

  lemma CompletedRows(nodes: map<NodeId, NodeRow>, st: State)
    requires Mirrors(nodes, st) && PendingIn(st) == {}
    ensures forall id :: id in nodes ==> nodes[id].status == RowSuccess || nodes[id].status == RowSkipped
  {
    forall id | id in nodes ensures nodes[id].status == RowSuccess || nodes[id].status == RowSkipped {
      assert id !in PendingIn(st);
    }
  }

  lemma OnlyFailedRow(nodes: map<NodeId, NodeRow>, st: State, failed: NodeId)
    requires failed in nodes && failed in st.statuses && nodes[failed].status == RowFailed
    requires Mirrors(nodes[failed := nodes[failed].(status := RowOf(st.statuses[failed]))], st)
    ensures forall id :: id in nodes ==> (nodes[id].status == RowFailed <==> id == failed)
  {
    var shown := nodes[failed := nodes[failed].(status := RowOf(st.statuses[failed]))];
    forall id | id in nodes && id != failed ensures nodes[id].status != RowFailed {
      assert shown[id].status == RowOf(st.statuses[id]);
    }
  }

  /** What the rows show a reader once the workflow has returned. */
  lemma FinalRowsMeaning(job: Job, order: seq<NodeId>, status: RunStatus, output: Option<Object>, nodes: map<NodeId, NodeRow>)
    requires job.Runnable() && Enumerates(order, job.Nodes().Keys)
    requires FinalRows(status, output, nodes, Execute(job, order))
    ensures status == RunSuccess <==> Execute(job, order).Completed?
    ensures status == RunSuccess ==> forall id :: id in nodes ==> nodes[id].status == RowSuccess || nodes[id].status == RowSkipped
    ensures status == RunSuccess || status == RunFailed
    ensures Execute(job, order).NodeFailed? ==> forall id :: id in nodes ==> (nodes[id].status == RowFailed <==> id == Execute(job, order).id)
    ensures Execute(job, order).NoProgress? ==> forall id :: id in nodes ==> nodes[id].status != RowFailed
  {
    ExecuteExplained(job, order);
    match Execute(job, order)
    case Completed(st, _) => CompletedRows(nodes, st);
    case NodeFailed(st, id, _) => OnlyFailedRow(nodes, st, id);
    case NoProgress(_) =>
  }
}
