/** The callback protocol inside a run: what a callback node of the workflow hands on is what its wait received. */
module CallbackRuns {
  import opened Wrappers
  import opened Json
  import opened Digraphs
  import opened Flows
  import opened Polling
  import opened Engine
  import opened EngineInvariants
  import opened Workflow
  import CallbackProtocol

  /** A history of the protocol for one node, started by the workflow with the node's inputs. */
  type History = seq<CallbackProtocol.Step>

  function WaitAfter(inputs: Json, history: History): CallbackProtocol.System {
    CallbackProtocol.TakeAll(CallbackProtocol.Start(Fields(inputs), true), history)
  }

  /** After this history the blocked workflow finds the signal that it goes on with. */
  predicate Delivers(world: World, id: NodeId, inputs: Json, history: History) {
    var s := WaitAfter(inputs, history);
    s.phase == CallbackProtocol.Blocked && s.signal == Some(world.callback(id).data)
  }

  /** The wait was received, and apart from its record the output is the inputs overlaid by the stored payload. */
  ghost predicate HandsOnPayload(inputs: Json, history: History, output: Object) {
    var wait := WaitAfter(inputs, history).rows.wait;
    && wait.Some? && wait.value.status == CallbackProtocol.Received && wait.value.payload.Some?
    && output - {"_callback"} == (Fields(inputs) + wait.value.payload.value) - {"_callback"}
  }

  /** Consuming the signal completes the wait with the output the workflow computes. */
  lemma ConsumingCompletes(world: World, id: NodeId, inputs: Json, history: History)
    requires Delivers(world, id, inputs, history)
    ensures var s, signal := WaitAfter(inputs, history), world.callback(id);
            var done := CallbackProtocol.Take(s, CallbackProtocol.CompleteWait(signal.callbackId, signal.receivedAt));
            && CallbackProtocol.Invariant(s) && CallbackProtocol.Invariant(done) && done.rows.node == CallbackProtocol.Succeeded
            && done.rows.wait == s.rows.wait && done.rows.input == Fields(inputs)
            && done.rows.output == Some(CallbackOutput(inputs, signal))
  {
    var signal := world.callback(id);
    var s := WaitAfter(inputs, history);
    var complete := CallbackProtocol.CompleteWait(signal.callbackId, signal.receivedAt);
    CallbackProtocol.EveryInterleavingKeepsInvariant(Fields(inputs), true, history);
    CallbackProtocol.InputStays(Fields(inputs), true, history);
    CallbackProtocol.StepKeepsInvariant(s, complete);
    assert s.phase.Blocked? && s.signal.Some?;
  }

  /** The node's behaviour in the run hands on what the wait received. */
  lemma CallbackNodeOutput(world: World, node: Node, inputs: Json, history: History)
    requires RespectsPollLimit(world.tries) && node.data.nodeType == "http_callback"
    requires Delivers(world, node.id, inputs, history)
    ensures Behaviour(world)(node, inputs).Ok? && HandsOnPayload(inputs, history, Behaviour(world)(node, inputs).value)
  {
    ConsumingCompletes(world, node.id, inputs, history);
    var signal := world.callback(node.id);
    var s := WaitAfter(inputs, history);
    var done := CallbackProtocol.Take(s, CallbackProtocol.CompleteWait(signal.callbackId, signal.receivedAt));
    CallbackProtocol.OutputIsPayload(done);
  }

  /** The inputs with which a node that succeeded was executed. */
  function InputsOf(job: Job, st: State, id: NodeId): Json {
    var verdict := Decide(job, st.statuses, st.outputs, id);
    if verdict.Run? then verdict.inputs else job.input
  }

  /** The signals that the run's callback nodes consumed came out of these histories. */
  ghost predicate Signalled(world: World, job: Job, st: State, histories: NodeId -> History) {
    forall id :: id in job.Nodes() && job.Type(id) == "http_callback" && id in st.statuses && st.statuses[id] == Success ==>
      Delivers(world, id, InputsOf(job, st, id), histories(id))
  }

  /**
   In a run, in whatever order its nodes are visited and however it ends, a callback node has succeeded only with a wait
   that was received, and its output is its input overlaid by the payload stored with that wait.
   */
  lemma CallbackOutputsArePayloads(world: World, job: Job, order: seq<NodeId>, histories: NodeId -> History)
    requires RespectsPollLimit(world.tries) && job.handler == Behaviour(world) && Enumerates(order, job.Nodes().Keys)
    requires Signalled(world, job, Execute(job, order).state, histories)
    ensures var st := Execute(job, order).state;
            forall id :: id in job.Nodes() && job.Type(id) == "http_callback" && id in st.statuses && st.statuses[id] == Success ==>
              id in st.outputs && HandsOnPayload(InputsOf(job, st, id), histories(id), st.outputs[id])
  {
    ExecuteExplained(job, order);
    var st := Execute(job, order).state;
    forall id | id in job.Nodes() && job.Type(id) == "http_callback" && id in st.statuses && st.statuses[id] == Success
      ensures id in st.outputs && HandsOnPayload(InputsOf(job, st, id), histories(id), st.outputs[id])
    {
      assert Justified(job, st, id);
      ByIdFinds(job.content.nodes, id);
      CallbackNodeOutput(world, job.Nodes()[id], InputsOf(job, st, id), histories(id));
    }
  }
}
