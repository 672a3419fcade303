/**
 A meaning of a flow without any execution order: what each node does is defined by recursion
 over its upstream nodes. On a graph without directed cycles the sweep executor computes exactly
 this meaning, whatever the order in which a sweep visits the nodes.
 */
module EngineMeaning {
  import opened Wrappers
  import opened Json
  import opened Digraphs
  import opened Flows
  import opened Engine
  import opened EngineInvariants

  /** `Blocked`: some upstream node broke, so the node is never looked at. */
  datatype Meaning = Ran(output: Object) | Broke(error: string) | Passed | Blocked

  /** The edge hands data on, given what its source means. */
  predicate Carries(job: Job, upstream: map<NodeId, Meaning>, edge: Edge) {
    && edge.source in upstream && upstream[edge.source].Ran? && edge.source in job.Nodes()
    && (job.Type(edge.source) == "condition" ==>
          upstream[edge.source].output != map[] && Get(upstream[edge.source].output, "branch") == HandleValue(edge.sourceHandle))
  }

  function Live(job: Job, upstream: map<NodeId, Meaning>, edges: seq<Edge>): seq<Edge> {
    if edges == [] then []
    else (if Carries(job, upstream, edges[0]) then [edges[0]] else []) + Live(job, upstream, edges[1..])
  }

  function RanOutputs(upstream: map<NodeId, Meaning>): map<NodeId, Object> {
    map source | source in upstream && upstream[source].Ran? :: upstream[source].output
  }

  ghost predicate Stopping(upstream: map<NodeId, Meaning>) {
    exists source :: source in upstream && (upstream[source].Broke? || upstream[source].Blocked?)
  }

  /** What a node means, given the meanings of its upstream nodes. */
  ghost function Local(job: Job, upstream: map<NodeId, Meaning>, id: NodeId): Meaning
    requires id in job.Nodes()
  {
    var live := Live(job, upstream, job.Into(id));
    if Stopping(upstream) then Blocked
    else if job.Into(id) != [] && live == [] then Passed
    else
      match job.handler(job.Nodes()[id], Inputs(job, RanOutputs(upstream), live))
      case Ok(output) => Ran(output)
      case Err(error) => Broke(error)
  }

  lemma SourcesAreBelow(job: Job, rank: map<NodeId, nat>, id: NodeId)
    requires job.Runnable() && Ranked(GraphOf(job.content), rank) && id in job.Nodes()
    ensures forall source :: source in Sources(job.Into(id)) ==> source in job.Nodes() && rank[source] < rank[id]
  {
    IntoMembers(job.content.edges, id);
    forall source | source in Sources(job.Into(id)) ensures source in job.Nodes() && rank[source] < rank[id] {
      var edge :| edge in job.Into(id) && edge.source == source;
      assert Joined(job.Nodes().Keys, edge);
      ArcIsJoinedEdge(job.content, source, id);
    }
  }

  /** The recursive meaning of a node; `rank` is any topological numbering of the graph. */
  ghost function Means(job: Job, rank: map<NodeId, nat>, id: NodeId): Meaning
    requires job.Runnable() && Ranked(GraphOf(job.content), rank) && id in job.Nodes()
    decreases rank[id]
  {
    SourcesAreBelow(job, rank, id);
    Local(job, map source | source in Sources(job.Into(id)) :: Means(job, rank, source), id)
  }

  ghost function UpstreamMeanings(job: Job, rank: map<NodeId, nat>, id: NodeId): map<NodeId, Meaning>
    requires job.Runnable() && Ranked(GraphOf(job.content), rank) && id in job.Nodes()
  {
    SourcesAreBelow(job, rank, id);
    map source | source in Sources(job.Into(id)) :: Means(job, rank, source)
  }

  /** The recorded fate of a finished node is its meaning. */
  ghost predicate Agrees(st: State, id: NodeId, meaning: Meaning)
    requires id in st.statuses
  {
    match st.statuses[id]
    case Pending => true
    case Success => id in st.outputs && meaning == Ran(st.outputs[id])
    case Skipped => id !in st.outputs && meaning == Passed
  }

  /** The state that the meanings of the upstream nodes amount to. */
  ghost function AsState(upstream: map<NodeId, Meaning>): State {
    State(map source | source in upstream :: if upstream[source].Ran? then Success else Skipped, RanOutputs(upstream), [])
  }

  lemma {:induction false} LiveIsFiring(job: Job, upstream: map<NodeId, Meaning>, edges: seq<Edge>)
    ensures Live(job, upstream, edges) == FiringEdges(job, AsState(upstream).statuses, AsState(upstream).outputs, edges)
  {
    if edges == [] {
    } else {
      LiveIsFiring(job, upstream, edges[1..]);
    }
  }

  ghost function Executed(job: Job, id: NodeId, inputs: Json): Meaning
    requires id in job.Nodes()
  {
    match job.handler(job.Nodes()[id], inputs)
    case Ok(output) => Ran(output)
    case Err(error) => Broke(error)
  }

  ghost predicate Follows(job: Job, verdict: Verdict, id: NodeId, meaning: Meaning)
    requires id in job.Nodes()
  {
    match verdict
    case Wait => false
    case Skip => meaning == Passed
    case Run(inputs) => meaning == Executed(job, id, inputs)
  }

  lemma DecideOnMeanings(job: Job, upstream: map<NodeId, Meaning>, id: NodeId)
    requires id in job.Nodes() && upstream.Keys == Sources(job.Into(id)) && !Stopping(upstream)
    ensures Follows(job, Decide(job, AsState(upstream).statuses, AsState(upstream).outputs, id), id, Local(job, upstream, id))
  {
    var up, into := AsState(upstream), job.Into(id);
    LiveIsFiring(job, upstream, into);
    forall edge | edge in into ensures edge.source in up.statuses && up.statuses[edge.source] != Pending {
      assert edge.source in Sources(into);
    }
  }

  /** When all upstream nodes are done and agree with their meanings, deciding about `id` follows its meaning. */
  lemma DecideFollowsMeaning(job: Job, st: State, upstream: map<NodeId, Meaning>, id: NodeId)
    requires id in job.Nodes() && st.statuses.Keys == job.Nodes().Keys
    requires upstream.Keys == Sources(job.Into(id))
    requires forall source :: source in upstream ==> source in st.statuses && st.statuses[source] != Pending && Agrees(st, source, upstream[source])
    ensures Follows(job, Decide(job, st.statuses, st.outputs, id), id, Local(job, upstream, id))
  {
    forall source | source in upstream ensures AgreeOn(st, AsState(upstream), source) && !upstream[source].Broke? && !upstream[source].Blocked? {
      assert Agrees(st, source, upstream[source]);
    }
    forall edge | edge in job.Into(id) ensures AgreeOn(st, AsState(upstream), edge.source) {
      assert edge.source in Sources(job.Into(id));
    }
    DecideFrame(job, st, AsState(upstream), id);
    DecideOnMeanings(job, upstream, id);
  }

  /** Every node the executor has finished has its meaning. */
  lemma {:induction false} FinishedMeans(job: Job, rank: map<NodeId, nat>, st: State, id: NodeId)
    requires job.Runnable() && Ranked(GraphOf(job.content), rank)
    requires Sound(job, st) && id in job.Nodes()
    requires Decide(job, st.statuses, st.outputs, id) != Wait
    ensures forall source :: source in Sources(job.Into(id)) ==> source in job.Nodes() && st.statuses[source] != Pending
    ensures var upstream := UpstreamMeanings(job, rank, id);
            forall source :: source in upstream ==> source in st.statuses && st.statuses[source] != Pending && Agrees(st, source, upstream[source])
    ensures Agrees(st, id, Means(job, rank, id))
    decreases rank[id]
  {
    SourcesAreBelow(job, rank, id);
    var upstream := UpstreamMeanings(job, rank, id);
    forall source | source in upstream
      ensures source in job.Nodes() && st.statuses[source] != Pending && Agrees(st, source, upstream[source])
    {
      var edge :| edge in job.Into(id) && edge.source == source;
      assert st.statuses[edge.source] != Pending;
      assert Justified(job, st, source);
      FinishedMeans(job, rank, st, source);
    }
    DecideFollowsMeaning(job, st, upstream, id);
    assert Justified(job, st, id);
  }

  lemma FailureMeans(job: Job, rank: map<NodeId, nat>, st: State, id: NodeId, error: string)
    requires job.Runnable() && Ranked(GraphOf(job.content), rank)
    requires Sound(job, st) && FailedAt(job, st, id, error)
    ensures Means(job, rank, id) == Broke(error)
  {
    FinishedMeans(job, rank, st, id);
    DecideFollowsMeaning(job, st, UpstreamMeanings(job, rank, id), id);
  }

  /** If every pending node has to wait, the pending nodes hold a cycle. */
  lemma WaitingIsCyclic(job: Job, st: State)
    requires job.Runnable() && st.statuses.Keys == job.Nodes().Keys
    requires PendingIn(st) != {}
    requires forall id :: id in PendingIn(st) ==> Decide(job, st.statuses, st.outputs, id) == Wait
    ensures HasCycle(GraphOf(job.content))
  {
    var g := GraphOf(job.content);
    forall id | id in PendingIn(st) ensures HasPredecessorIn(g, PendingIn(st), id) {
      assert Decide(job, st.statuses, st.outputs, id) == Wait;
      IntoMembers(job.content.edges, id);
      var edge :| edge in job.Into(id) && !(edge.source in st.statuses && st.statuses[edge.source] != Pending);
      assert Joined(job.Nodes().Keys, edge);
      ArcIsJoinedEdge(job.content, edge.source, id);
    }
    BackClosedHasCycle(g, PendingIn(st));
  }

  ghost function MeantEnds(job: Job, rank: map<NodeId, nat>): set<NodeId>
    requires job.Runnable() && Ranked(GraphOf(job.content), rank)
  {
    set id | id in job.Nodes() && job.Type(id) == "end" && Means(job, rank, id).Ran?
  }

  /** The run output: what the one End that ran produced, or the outputs of all of them by id. */
  ghost predicate IsMeantOutput(job: Job, rank: map<NodeId, nat>, output: Object)
    requires job.Runnable() && Ranked(GraphOf(job.content), rank)
  {
    var ends := MeantEnds(job, rank);
    if |ends| == 1 then forall id :: id in ends ==> output == Means(job, rank, id).output
    else output.Keys == ends && forall id :: id in ends ==> output[id] == Obj(Means(job, rank, id).output)
  }

  lemma EndsAreMeant(job: Job, rank: map<NodeId, nat>, st: State)
    requires job.Runnable() && Ranked(GraphOf(job.content), rank) && st.statuses.Keys == job.Nodes().Keys
    requires forall id :: id in job.Nodes() ==> st.statuses[id] != Pending && Agrees(st, id, Means(job, rank, id))
    ensures FinishedEnds(job, st) == MeantEnds(job, rank)
    ensures forall id :: id in FinishedEnds(job, st) ==> id in st.outputs && st.outputs[id] == Means(job, rank, id).output
  {
  }

  lemma EndOutputParts(job: Job, st: State)
    requires forall id :: id in FinishedEnds(job, st) ==> id in st.outputs
    ensures var ends := FinishedEnds(job, st);
            if |ends| == 1 then forall id :: id in ends ==> EndOutput(job, st) == st.outputs[id]
            else EndOutput(job, st).Keys == ends && forall id :: id in ends ==> EndOutput(job, st)[id] == Obj(st.outputs[id])
  {
    var ends := FinishedEnds(job, st);
    if |ends| == 1 {
      forall a, b | a in ends && b in ends ensures a == b { OnlyMember(ends, a, b); }
    }
  }

  lemma EndOutputIsMeant(job: Job, rank: map<NodeId, nat>, st: State)
    requires job.Runnable() && Ranked(GraphOf(job.content), rank) && st.statuses.Keys == job.Nodes().Keys
    requires forall id :: id in job.Nodes() ==> st.statuses[id] != Pending && Agrees(st, id, Means(job, rank, id))
    ensures IsMeantOutput(job, rank, EndOutput(job, st))
  {
    EndsAreMeant(job, rank, st);
    EndOutputParts(job, st);
  }

  /** The outcome is the one the recursive meaning dictates. */
  ghost predicate Realises(job: Job, rank: map<NodeId, nat>, outcome: Outcome)
    requires job.Runnable() && Ranked(GraphOf(job.content), rank)
  {
    && outcome.state.statuses.Keys == job.Nodes().Keys
    && (forall id :: id in job.Nodes() ==> Agrees(outcome.state, id, Means(job, rank, id)))
    && match outcome
       case Completed(st, output) =>
         && (forall id :: id in job.Nodes() ==> st.statuses[id] != Pending)
         && (forall id :: id in job.Nodes() ==> Means(job, rank, id).Ran? || Means(job, rank, id).Passed?)
         && IsMeantOutput(job, rank, output)
       case NodeFailed(_, id, error) => id in job.Nodes() && Means(job, rank, id) == Broke(error)
       case NoProgress(_) => false
  }

  lemma AllAgree(job: Job, rank: map<NodeId, nat>, st: State)
    requires job.Runnable() && Ranked(GraphOf(job.content), rank) && Sound(job, st)
    ensures forall id :: id in job.Nodes() ==> Agrees(st, id, Means(job, rank, id))
  {
    forall id | id in job.Nodes() ensures Agrees(st, id, Means(job, rank, id)) {
      assert Justified(job, st, id);
      if st.statuses[id] != Pending { FinishedMeans(job, rank, st, id); }
    }
  }

  /** On an acyclic flow the executor realises the recursive meaning, for every visiting order. */
  lemma ExecuteRealisesMeaning(job: Job, rank: map<NodeId, nat>, order: seq<NodeId>)
    requires job.Runnable() && Ranked(GraphOf(job.content), rank)
    requires Enumerates(order, job.Nodes().Keys)
    ensures Realises(job, rank, Execute(job, order))
  {
    var outcome := Execute(job, order);
    var st := outcome.state;
    ExecuteExplained(job, order);
    AllAgree(job, rank, st);
    match outcome
    case Completed(_, _) => CompletedRealises(job, rank, outcome);
    case NodeFailed(_, id, error) => FailureMeans(job, rank, st, id, error);
    case NoProgress(_) =>
      WaitingIsCyclic(job, st);
      AcyclicIffRanked(GraphOf(job.content));
  }

  lemma AllFinished(job: Job, rank: map<NodeId, nat>, st: State)
    requires job.Runnable() && Ranked(GraphOf(job.content), rank)
    requires st.statuses.Keys == job.Nodes().Keys && PendingIn(st) == {}
    requires forall id :: id in job.Nodes() ==> Agrees(st, id, Means(job, rank, id))
    ensures forall id :: id in job.Nodes() ==> st.statuses[id] != Pending && (Means(job, rank, id).Ran? || Means(job, rank, id).Passed?)
  {
    forall id | id in job.Nodes() ensures st.statuses[id] != Pending && (Means(job, rank, id).Ran? || Means(job, rank, id).Passed?) {
      assert id !in PendingIn(st);
      assert Agrees(st, id, Means(job, rank, id));
    }
  }

  lemma CompletedRealises(job: Job, rank: map<NodeId, nat>, outcome: Outcome)
    requires job.Runnable() && Ranked(GraphOf(job.content), rank)
    requires Explained(job, outcome) && outcome.Completed?
    requires forall id :: id in job.Nodes() ==> Agrees(outcome.state, id, Means(job, rank, id))
    ensures Realises(job, rank, outcome)
  {
    AllFinished(job, rank, outcome.state);
    EndOutputIsMeant(job, rank, outcome.state);
  }

  /** Two visiting orders end alike: both fail, or both complete with the same statuses, outputs and run output. */
  lemma OrderDoesNotMatter(job: Job, first: seq<NodeId>, second: seq<NodeId>)
    requires job.Runnable() && !HasCycle(GraphOf(job.content))
    requires Enumerates(first, job.Nodes().Keys) && Enumerates(second, job.Nodes().Keys)
    ensures var a, b := Execute(job, first), Execute(job, second);
            || (a.NodeFailed? && b.NodeFailed?)
            || (a.Completed? && b.Completed? && a.output == b.output
                && a.state.statuses == b.state.statuses && a.state.outputs == b.state.outputs)
  {
    AcyclicIffRanked(GraphOf(job.content));
    var rank :| Ranked(GraphOf(job.content), rank);
    var a, b := Execute(job, first), Execute(job, second);
    ExecuteRealisesMeaning(job, rank, first);
    ExecuteRealisesMeaning(job, rank, second);
    ExecuteExplained(job, first);
    ExecuteExplained(job, second);
    SameFate(job, rank, a, b);
    if a.Completed? && b.Completed? {
      SameOutputs(job, rank, a.state, b.state);
    }
  }

  lemma SameFate(job: Job, rank: map<NodeId, nat>, a: Outcome, b: Outcome)
    requires job.Runnable() && Ranked(GraphOf(job.content), rank)
    requires Realises(job, rank, a) && Realises(job, rank, b)
    ensures (a.NodeFailed? && b.NodeFailed?) || (a.Completed? && b.Completed?)
  {
  }

  lemma SameOutputs(job: Job, rank: map<NodeId, nat>, a: State, b: State)
    requires job.Runnable() && Ranked(GraphOf(job.content), rank)
    requires Sound(job, a) && Sound(job, b)
    requires forall id :: id in job.Nodes() ==> a.statuses[id] != Pending && Agrees(a, id, Means(job, rank, id))
    requires forall id :: id in job.Nodes() ==> b.statuses[id] != Pending && Agrees(b, id, Means(job, rank, id))
    ensures a.statuses == b.statuses && a.outputs == b.outputs
    ensures EndOutput(job, a) == EndOutput(job, b)
  {
    forall id | id in job.Nodes() ensures a.statuses[id] == b.statuses[id] && OutputOf(a.outputs, id) == OutputOf(b.outputs, id) {
      SameNode(a, b, id, Means(job, rank, id));
    }
    SameStates(job, a, b);
    SameEndOutput(job, a, b);
  }

  lemma SameStates(job: Job, a: State, b: State)
    requires Sound(job, a) && Sound(job, b)
    requires forall id :: id in job.Nodes() ==> a.statuses[id] == b.statuses[id] && OutputOf(a.outputs, id) == OutputOf(b.outputs, id)
    ensures a.statuses == b.statuses && a.outputs == b.outputs
  {
    assert a.statuses == b.statuses;
    forall id ensures OutputOf(a.outputs, id) == OutputOf(b.outputs, id) {
      assert id !in job.Nodes() ==> id !in a.outputs && id !in b.outputs;
    }
    SameMaps(a.outputs, b.outputs);
  }

  lemma SameNode(a: State, b: State, id: NodeId, meaning: Meaning)
    requires id in a.statuses && id in b.statuses && a.statuses[id] != Pending && b.statuses[id] != Pending
    requires Agrees(a, id, meaning) && Agrees(b, id, meaning)
    ensures a.statuses[id] == b.statuses[id] && OutputOf(a.outputs, id) == OutputOf(b.outputs, id)
  {
  }

  lemma SameMaps(x: map<NodeId, Object>, y: map<NodeId, Object>)
    requires forall id :: OutputOf(x, id) == OutputOf(y, id)
    ensures x == y
  {
    forall id ensures id in x <==> id in y {
      assert OutputOf(x, id) == OutputOf(y, id);
    }
    forall id | id in x ensures x[id] == y[id] {
      assert OutputOf(x, id) == OutputOf(y, id);
    }
  }

  lemma SameEndOutput(job: Job, a: State, b: State)
    requires a.outputs == b.outputs && a.statuses == b.statuses
    ensures EndOutput(job, a) == EndOutput(job, b)
  {
    assert FinishedEnds(job, a) == FinishedEnds(job, b);
  }
}
