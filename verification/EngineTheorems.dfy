/** What the validator's verdict says about every execution of the flow. */
module EngineTheorems {
  import opened Wrappers
  import opened Json
  import opened Digraphs
  import opened Flows
  import opened ValidatorRules
  import opened Validator
  import opened Engine
  import opened EngineInvariants
  import opened EngineMeaning

  /** A condition that succeeds takes one of its two branches (nodes/catalog/condition/handler.py). */
  ghost predicate ConditionsBranch(job: Job) {
    forall id, inputs :: id in job.Nodes() && job.Type(id) == "condition" ==>
      match job.handler(job.Nodes()[id], inputs)
      case Ok(output) => "branch" in output && (output["branch"] == Str("true") || output["branch"] == Str("false"))
      case Err(_) => true
  }

  // ----- "made no progress" and cycles -----

  /** Nodes that wait for each other stay pending. */
  lemma {:induction false} CycleStaysPendingInSweep(job: Job, order: seq<NodeId>, st: State, s: set<NodeId>)
    requires st.statuses.Keys == job.Nodes().Keys && forall id :: id in order ==> id in job.Nodes()
    requires BackClosed(GraphOf(job.content), s) && s <= PendingIn(st)
    ensures s <= PendingIn(Sweep(job, order, st).state)
  {
    if order == [] {
    } else {
      var id := order[0];
      if id in s { CycleNodeWaits(job, st, s, id); }
      var r := Visit(job, st, id);
      assert s <= PendingIn(r.state);
      if r.Moved? { CycleStaysPendingInSweep(job, order[1..], r.state, s); }
    }
  }

  lemma CycleNodeWaits(job: Job, st: State, s: set<NodeId>, id: NodeId)
    requires st.statuses.Keys == job.Nodes().Keys
    requires BackClosed(GraphOf(job.content), s) && s <= PendingIn(st) && id in s
    ensures Decide(job, st.statuses, st.outputs, id) == Wait
  {
    assert HasPredecessorIn(GraphOf(job.content), s, id);
    var u :| u in s && Arc(GraphOf(job.content), u, id);
    ArcIsJoinedEdge(job.content, u, id);
    var edge :| edge in job.content.edges && Joined(Ids(job.content.nodes), edge) && edge.source == u && edge.target == id;
    IntoMembers(job.content.edges, id);
    assert edge in job.Into(id) && st.statuses[edge.source] == Pending;
  }

  lemma {:induction false} CycleStaysPending(job: Job, order: seq<NodeId>, st: State, s: set<NodeId>)
    requires st.statuses.Keys == job.Nodes().Keys && forall id :: id in order ==> id in job.Nodes()
    requires BackClosed(GraphOf(job.content), s) && s <= PendingIn(st)
    ensures s <= PendingIn(Drive(job, order, st).state)
    decreases |PendingIn(st)|
  {
    CycleStaysPendingInSweep(job, order, st, s);
    var r := Sweep(job, order, st);
    if r.Moved? && PendingIn(r.state) != {} && |r.state.trace| != |st.trace| {
      CycleStaysPending(job, order, r.state, s);
    }
  }

  /**
   Unless a node fails, a run ends in "made no progress" exactly when the graph has a directed
   cycle (parallel edges and self-loops included), which is exactly when the validator says CYCLE.
   */
  lemma NoProgressIffCycle(registry: Registry, job: Job, order: seq<NodeId>)
    requires job.Runnable() && Enumerates(order, job.Nodes().Keys)
    requires !Execute(job, order).NodeFailed?
    ensures Execute(job, order).NoProgress? <==> HasCycle(GraphOf(job.content))
    ensures Execute(job, order).NoProgress? <==> Raises(registry, job.content, Issue(Cycle, None))
  {
    var outcome := Execute(job, order);
    ExecuteExplained(job, order);
    if HasCycle(GraphOf(job.content)) {
      var s := CycleGivesBackClosed(GraphOf(job.content));
      assert s <= PendingIn(Initial(job));
      CycleStaysPending(job, order, Initial(job), s);
      assert PendingIn(outcome.state) != {};
    } else if outcome.NoProgress? {
      WaitingIsCyclic(job, outcome.state);
    }
    CycleIssueIffCycle(registry, job.content);
  }

  lemma CycleIssueIffCycle(registry: Registry, content: FlowContent)
    ensures Raises(registry, content, Issue(Cycle, None)) <==> HasCycle(GraphOf(content))
  {
    assert RaisedByGraph(content, Issue(Cycle, None)) <==> HasCycle(GraphOf(content));
    assert !RaisedByCounts(content, Issue(Cycle, None));
    assert !RaisedByEdges(registry, content, |content.edges|, Issue(Cycle, None));
  }

  /** With failing nodes allowed, "made no progress" still needs a cycle. */
  lemma NoProgressNeedsCycle(job: Job, order: seq<NodeId>)
    requires job.Runnable() && Enumerates(order, job.Nodes().Keys)
    ensures Execute(job, order).NoProgress? ==> HasCycle(GraphOf(job.content))
  {
    ExecuteExplained(job, order);
    if Execute(job, order).NoProgress? {
      WaitingIsCyclic(job, Execute(job, order).state);
    }
  }

  // ----- accepted flows -----

  lemma AcceptedIsRunnable(registry: Registry, job: Job)
    requires Accepted(registry, job.content)
    ensures WellFormed(job.content) && job.Runnable() && !HasCycle(GraphOf(job.content))
  {
    AcceptedIsWellFormed(registry, job.content);
  }

  /** No execution of an accepted flow ends in "made no progress". */
  lemma AcceptedNeverStalls(registry: Registry, job: Job, order: seq<NodeId>)
    requires Accepted(registry, job.content) && Enumerates(order, job.Nodes().Keys)
    ensures !Execute(job, order).NoProgress?
  {
    AcceptedIsRunnable(registry, job);
    NoProgressNeedsCycle(job, order);
  }

  lemma IntoIffHasInput(job: Job, id: NodeId)
    requires job.Runnable()
    ensures job.Into(id) != [] <==> HasInput(job.content, id)
  {
    IntoMembers(job.content.edges, id);
    if job.Into(id) != [] {
      assert job.Into(id)[0] in job.Into(id);
    }
  }

  /** In a state without pending nodes, a node with inputs succeeded exactly when some edge into it fires. */
  lemma SuccessIffFires(job: Job, st: State, id: NodeId)
    requires job.Runnable() && Sound(job, st) && PendingIn(st) == {} && id in job.Nodes()
    ensures st.statuses[id] == Success <==>
            (job.Into(id) == [] || exists edge :: edge in job.Into(id) && Fires(job, st.statuses, st.outputs, edge))
    ensures st.statuses[id] == Skipped || st.statuses[id] == Success
  {
    assert id !in PendingIn(st);
    assert Justified(job, st, id);
    var active := FiringEdges(job, st.statuses, st.outputs, job.Into(id));
    FiringMembers(job, st.statuses, st.outputs, job.Into(id));
    if active != [] { assert active[0] in active; }
  }

  /** The successes of a finished run keep handing on: each one that is not an End activates a successor. */
  lemma SuccessHasSuccessor(job: Job, st: State, id: NodeId)
    requires WellFormed(job.content) && job.Runnable() && ConditionsBranch(job)
    requires Sound(job, st) && PendingIn(st) == {}
    requires id in job.Nodes() && st.statuses[id] == Success && job.Type(id) != "end"
    ensures exists next :: next in job.Nodes() && st.statuses[next] == Success && Arc(GraphOf(job.content), id, next)
  {
    var content := job.content;
    var node := job.Nodes()[id];
    assert Justified(job, st, id);
    var edge :| edge in content.edges && Joined(Ids(content.nodes), edge) && edge.source == id && Fires(job, st.statuses, st.outputs, edge) by {
      FiringEdgeExists(job, st, id, node);
    }
    var next := edge.target;
    IntoMembers(content.edges, next);
    assert edge in job.Into(next);
    SuccessIffFires(job, st, next);
    ArcIsJoinedEdge(content, id, next);
  }

  lemma FiringEdgeExists(job: Job, st: State, id: NodeId, node: Node)
    requires WellFormed(job.content) && ConditionsBranch(job)
    requires st.statuses.Keys == job.Nodes().Keys && id in job.Nodes() && node == job.Nodes()[id]
    requires Justified(job, st, id) && st.statuses[id] == Success && job.Type(id) != "end"
    ensures exists edge :: edge in job.content.edges && Joined(Ids(job.content.nodes), edge) && edge.source == id
                           && Fires(job, st.statuses, st.outputs, edge)
  {
    if node.data.nodeType == "condition" {
      FiringBranchExists(job, st, id, node);
    } else {
      ByIdFinds(job.content.nodes, id);
      assert HasOutput(job.content, id);
      var edge :| edge in job.content.edges && Joined(Ids(job.content.nodes), edge) && edge.source == id;
      assert Fires(job, st.statuses, st.outputs, edge);
    }
  }

  /** The branch a successful condition took. */
  lemma BranchTaken(job: Job, st: State, id: NodeId) returns (name: string)
    requires ConditionsBranch(job) && st.statuses.Keys == job.Nodes().Keys && id in job.Nodes()
    requires Justified(job, st, id) && st.statuses[id] == Success && job.Type(id) == "condition"
    ensures name == "true" || name == "false"
    ensures id in st.outputs && "branch" in st.outputs[id] && st.outputs[id]["branch"] == Str(name)
  {
    name := if st.outputs[id]["branch"] == Str("true") then "true" else "false";
  }

  lemma FiringBranchExists(job: Job, st: State, id: NodeId, node: Node)
    requires WellFormed(job.content) && ConditionsBranch(job)
    requires st.statuses.Keys == job.Nodes().Keys && id in job.Nodes() && node == job.Nodes()[id]
    requires Justified(job, st, id) && st.statuses[id] == Success && node.data.nodeType == "condition"
    ensures exists edge :: edge in job.content.edges && Joined(Ids(job.content.nodes), edge) && edge.source == id
                           && Fires(job, st.statuses, st.outputs, edge)
  {
    var name := BranchTaken(job, st, id);
    ByIdFinds(job.content.nodes, id);
    BranchFires(job, st, id, name);
  }

  lemma BranchFires(job: Job, st: State, id: NodeId, name: string)
    requires HasBranch(job.content, id, name) && id in job.Nodes()
    requires id in st.statuses && st.statuses[id] == Success
    requires id in st.outputs && "branch" in st.outputs[id] && st.outputs[id]["branch"] == Str(name)
    ensures exists edge :: edge in job.content.edges && Joined(Ids(job.content.nodes), edge) && edge.source == id
                           && Fires(job, st.statuses, st.outputs, edge)
  {
    var edge :| edge in job.content.edges && Joined(Ids(job.content.nodes), edge) && edge.source == id && edge.sourceHandle == Some(name);
    assert st.outputs[id] != map[];
    assert Fires(job, st.statuses, st.outputs, edge);
  }

  lemma TheStart(content: FlowContent) returns (start: Node)
    requires WellFormed(content)
    ensures start in content.nodes && start.data.nodeType == "start" && OfType(content.nodes, "start") == [start]
    ensures ById(content.nodes)[start.id] == start
    ensures forall node :: node in content.nodes && node.data.nodeType == "start" ==> node == start
  {
    var starts := OfType(content.nodes, "start");
    start := starts[0];
    assert start in starts && starts == [start];
    OfTypeMembers(content.nodes, "start");
    UniqueById(content, start);
  }

  /** Without repeated ids, looking a node up by its id finds it. */
  lemma UniqueById(content: FlowContent, node: Node)
    requires !RepeatedId(content.nodes) && node in content.nodes
    ensures ById(content.nodes)[node.id] == node
  {
    var found := ById(content.nodes)[node.id];
    ByIdFinds(content.nodes, node.id);
    var i :| 0 <= i < |content.nodes| && content.nodes[i] == node;
    var j :| 0 <= j < |content.nodes| && content.nodes[j] == found;
    assert i == j;
  }

  lemma StartSucceeds(job: Job, st: State) returns (start: Node)
    requires WellFormed(job.content) && job.Runnable() && Sound(job, st) && PendingIn(st) == {}
    ensures start in job.content.nodes && OfType(job.content.nodes, "start") == [start] && start.id in job.Nodes()
    ensures st.statuses[start.id] == Success
  {
    start := TheStart(job.content);
    IntoIffHasInput(job, start.id);
    SuccessIffFires(job, st, start.id);
  }

  /** A completed run of an accepted flow executed at least one End. */
  lemma AcceptedReachesAnEnd(job: Job, st: State)
    requires WellFormed(job.content) && job.Runnable() && ConditionsBranch(job)
    requires Sound(job, st) && PendingIn(st) == {}
    ensures FinishedEnds(job, st) != {}
  {
    var start := StartSucceeds(job, st);
    if FinishedEnds(job, st) == {} {
      SuccessesAreForwardClosed(job, st, start.id);
      ForwardClosedHasCycle(GraphOf(job.content), Successes(job, st));
    }
  }

  ghost function Successes(job: Job, st: State): set<NodeId> {
    set id | id in job.Nodes() && id in st.statuses && st.statuses[id] == Success
  }

  lemma SuccessesAreForwardClosed(job: Job, st: State, start: NodeId)
    requires WellFormed(job.content) && job.Runnable() && ConditionsBranch(job)
    requires Sound(job, st) && PendingIn(st) == {} && FinishedEnds(job, st) == {}
    requires start in job.Nodes() && st.statuses[start] == Success
    ensures ForwardClosed(GraphOf(job.content), Successes(job, st))
  {
    assert start in Successes(job, st);
    forall id | id in Successes(job, st) ensures HasSuccessorIn(GraphOf(job.content), Successes(job, st), id) {
      assert id !in FinishedEnds(job, st);
      SuccessHasSuccessor(job, st, id);
    }
  }

  /**
   A run of an accepted flow in which no node fails finishes: within as many sweeps as it has nodes, with
   every node executed or skipped exactly once, and with the output of at least one End.
   */
  lemma AcceptedRunFinishes(registry: Registry, job: Job, order: seq<NodeId>)
    requires Accepted(registry, job.content) && ConditionsBranch(job)
    requires Enumerates(order, job.Nodes().Keys) && !Execute(job, order).NodeFailed?
    ensures var outcome := Execute(job, order);
            && outcome.Completed?
            && SweepCount(job, order, Initial(job)) <= |job.Nodes()|
            && Distinct(outcome.state.trace) && (forall id :: id in outcome.state.trace <==> id in job.Nodes())
            && FinishedEnds(job, outcome.state) != {}
  {
    AcceptedIsRunnable(registry, job);
    AcceptedNeverStalls(registry, job, order);
    ExecuteExplained(job, order);
    var outcome := Execute(job, order);
    var _ := TheStart(job.content);
    assert job.content.nodes != [];
    AcceptedSweeps(job, order);
    AcceptedReachesAnEnd(job, outcome.state);
    TraceCovers(job, outcome.state);
  }

  lemma AcceptedSweeps(job: Job, order: seq<NodeId>)
    requires job.content.nodes != [] && Enumerates(order, job.Nodes().Keys) && Execute(job, order).Completed?
    ensures SweepCount(job, order, Initial(job)) <= |job.Nodes()|
  {
    var pending := PendingIn(Initial(job));
    assert job.content.nodes[0] in job.content.nodes;
    assert job.content.nodes[0].id in pending;
    assert pending == job.Nodes().Keys;
    SweepsBounded(job, order, Initial(job));
  }

  lemma TraceCovers(job: Job, st: State)
    requires Sound(job, st) && PendingIn(st) == {}
    ensures forall id :: id in st.trace <==> id in job.Nodes()
  {
    forall id | id in job.Nodes() ensures id in st.trace {
      assert id !in PendingIn(st);
    }
  }

  // ----- active paths -----

  /** The edges that carried data in a finished run. */
  ghost function ActiveGraph(job: Job, st: State): Digraph {
    Digraph(job.Nodes().Keys, set edge | edge in job.content.edges && Fires(job, st.statuses, st.outputs, edge) :: (edge.source, edge.target))
  }

  lemma ActiveArc(job: Job, st: State, a: NodeId, b: NodeId)
    requires job.Runnable()
    ensures Arc(ActiveGraph(job, st), a, b) <==>
            exists edge :: edge in job.Into(b) && edge.source == a && Fires(job, st.statuses, st.outputs, edge)
  {
    IntoMembers(job.content.edges, b);
    if Arc(ActiveGraph(job, st), a, b) {
      var edge :| edge in job.content.edges && Fires(job, st.statuses, st.outputs, edge) && (edge.source, edge.target) == (a, b);
      assert edge in job.Into(b);
    }
  }

  lemma ActiveArcFacts(job: Job, st: State, a: NodeId, b: NodeId)
    requires job.Runnable() && Sound(job, st) && PendingIn(st) == {} && Arc(ActiveGraph(job, st), a, b)
    ensures st.statuses[b] == Success && Arc(GraphOf(job.content), a, b)
  {
    ActiveArc(job, st, a, b);
    SuccessIffFires(job, st, b);
    IntoMembers(job.content.edges, b);
    ArcIsJoinedEdge(job.content, a, b);
  }

  /** A success that is not the Start was activated by another success. */
  lemma ActivatedBy(job: Job, st: State, start: Node, id: NodeId) returns (source: NodeId)
    requires WellFormed(job.content) && job.Runnable() && Sound(job, st) && PendingIn(st) == {}
    requires OfType(job.content.nodes, "start") == [start]
    requires id in job.Nodes() && st.statuses[id] == Success && id != start.id
    ensures source in job.Nodes() && st.statuses[source] == Success && Arc(ActiveGraph(job, st), source, id)
  {
    OfTypeMembers(job.content.nodes, "start");
    ByIdFinds(job.content.nodes, id);
    assert job.Nodes()[id] in job.content.nodes && job.Nodes()[id] !in [start];
    assert HasInput(job.content, id);
    IntoIffHasInput(job, id);
    SuccessIffFires(job, st, id);
    var edge :| edge in job.Into(id) && Fires(job, st.statuses, st.outputs, edge);
    source := edge.source;
    ActiveArc(job, st, source, id);
  }

  /**
   In a completed run of an accepted flow a node succeeded exactly when a path of active edges
   leads to it from Start; every other node was skipped.
   */
  lemma SuccessIffActivePath(registry: Registry, job: Job, order: seq<NodeId>, start: Node)
    requires Accepted(registry, job.content) && Enumerates(order, job.Nodes().Keys)
    requires Execute(job, order).Completed? && OfType(job.content.nodes, "start") == [start]
    ensures var st := Execute(job, order).state;
            forall id :: id in job.Nodes() ==>
              id in st.statuses && st.statuses[id] == if Reaches(ActiveGraph(job, st), start.id, id) then Success else Skipped
  {
    AcceptedIsRunnable(registry, job);
    ExecuteExplained(job, order);
    var st := Execute(job, order).state;
    var _ := StartSucceeds(job, st);
    ReachedIsSuccess(job, st, start);
    SuccessIsReached(job, st, start);
    forall id | id in job.Nodes() ensures st.statuses[id] == if Reaches(ActiveGraph(job, st), start.id, id) then Success else Skipped {
      SuccessIffFires(job, st, id);
    }
  }

  lemma ReachedIsSuccess(job: Job, st: State, start: Node)
    requires job.Runnable() && Sound(job, st) && PendingIn(st) == {}
    requires start.id in job.Nodes() && st.statuses[start.id] == Success
    ensures forall id :: Reaches(ActiveGraph(job, st), start.id, id) ==> id in job.Nodes() && st.statuses[id] == Success
  {
    var g := ActiveGraph(job, st);
    var successes := set id | id in job.Nodes() && st.statuses[id] == Success;
    forall u, v | u in successes && Arc(g, u, v) ensures v in successes {
      ActiveArcFacts(job, st, u, v);
    }
    forall id | Reaches(g, start.id, id) ensures id in successes {
      var p :| WalkBetween(g, start.id, id, p);
      ClosedContains(g, successes, p);
    }
  }

  lemma SuccessIsReached(job: Job, st: State, start: Node)
    requires WellFormed(job.content) && job.Runnable() && Sound(job, st) && PendingIn(st) == {}
    requires OfType(job.content.nodes, "start") == [start] && start.id in job.Nodes()
    ensures forall id :: id in job.Nodes() && st.statuses[id] == Success ==> Reaches(ActiveGraph(job, st), start.id, id)
  {
    var g, active := GraphOf(job.content), ActiveGraph(job, st);
    var lost := set id | id in job.Nodes() && st.statuses[id] == Success && !Reaches(active, start.id, id);
    ReachesSelf(active, start.id);
    forall id | id in lost ensures HasPredecessorIn(g, lost, id) {
      var source := ActivatedBy(job, st, start, id);
      if Reaches(active, start.id, source) { ReachesStep(active, start.id, source, id); }
      ActiveArcFacts(job, st, source, id);
      assert source in lost;
    }
    if lost != {} { BackClosedHasCycle(g, lost); }
    forall id | id in job.Nodes() && st.statuses[id] == Success ensures Reaches(active, start.id, id) {
      assert id !in lost;
    }
  }

  // ----- what a node is given -----

  ghost predicate SameSource(active: seq<Edge>) {
    forall i, j :: 0 <= i < |active| && 0 <= j < |active| ==> active[i].source == active[j].source
  }

  /**
   A node fed by one source, over however many parallel edges, receives what that source hands on; a node fed by
   several receives one entry for each of them under `sources`. A condition hands on its `data`, any other node its output.
   */
  lemma InputsBySource(job: Job, outputs: map<NodeId, Object>, active: seq<Edge>)
    requires active != []
    requires forall edge :: edge in active ==> edge.source in outputs && edge.source in job.Nodes()
    ensures SameSource(active) ==> Inputs(job, outputs, active) == Contribution(job, outputs, active[0].source)
    ensures !SameSource(active) ==>
              var inputs := Inputs(job, outputs, active);
              && inputs.Obj? && inputs.fields.Keys == {"sources"} && inputs.fields["sources"].Obj?
              && inputs.fields["sources"].fields.Keys == Sources(active)
              && forall id :: id in Sources(active) ==>
                   inputs.fields["sources"].fields[id] ==
                     if job.Type(id) != "condition" then Obj(outputs[id])
                     else if "data" in outputs[id] then outputs[id]["data"] else Obj(map[])
  {
    var collected := Collected(job, outputs, active);
    assert collected.Keys == Sources(active);
    assert |collected| == |collected.Keys|;
    if SameSource(active) {
      assert Sources(active) == {active[0].source};
    } else {
      var i, j :| 0 <= i < |active| && 0 <= j < |active| && active[i].source != active[j].source;
      assert active[i] in active && active[j] in active;
      if |Sources(active)| == 1 { OnlyMember(Sources(active), active[i].source, active[j].source); }
    }
  }

  /** A finished condition activates exactly the edges of the one branch it took. */
  lemma ConditionActivatesOneBranch(job: Job, st: State, id: NodeId) returns (branch: string)
    requires ConditionsBranch(job) && Sound(job, st) && id in job.Nodes()
    requires st.statuses[id] == Success && job.Type(id) == "condition"
    ensures branch == "true" || branch == "false"
    ensures forall edge: Edge :: edge.source == id ==> (Fires(job, st.statuses, st.outputs, edge) <==> edge.sourceHandle == Some(branch))
  {
    assert Justified(job, st, id);
    branch := BranchTaken(job, st, id);
  }

  /** A node without incoming edges, like the Start of an accepted flow, is executed on the run's input. */
  lemma StartReceivesRunInput(job: Job, order: seq<NodeId>, id: NodeId)
    requires Enumerates(order, job.Nodes().Keys) && id in job.Nodes()
    requires forall edge :: edge in job.content.edges ==> edge.target != id
    ensures var outcome := Execute(job, order);
            match job.handler(job.Nodes()[id], job.input)
            case Ok(output) =>
              outcome.Completed? ==> id in outcome.state.statuses && outcome.state.statuses[id] == Success && OutputOf(outcome.state.outputs, id) == Some(output)
            case Err(error) => !outcome.Completed? && !outcome.NoProgress? && (outcome.NodeFailed? && outcome.id == id ==> outcome.error == error)
  {
    IntoMembers(job.content.edges, id);
    assert forall edge :: edge !in job.Into(id);
    ExecuteExplained(job, order);
    var outcome := Execute(job, order);
    assert Justified(job, outcome.state, id);
    assert Decide(job, outcome.state.statuses, outcome.state.outputs, id) == Run(job.input);
    if outcome.Completed? { assert id !in PendingIn(outcome.state); }
    assert outcome.state.statuses[id] == Pending <==> id in PendingIn(outcome.state);
  }

  /** A condition whose output names no branch activates just the edges without a handle, and none if the output is empty. */
  lemma UnbranchedCondition(job: Job, st: State, edge: Edge)
    requires edge.source in job.Nodes() && job.Type(edge.source) == "condition"
    requires edge.source in st.statuses && st.statuses[edge.source] == Success
    requires edge.source in st.outputs && "branch" !in st.outputs[edge.source]
    ensures Fires(job, st.statuses, st.outputs, edge) <==> st.outputs[edge.source] != map[] && edge.sourceHandle == None
  {
  }
}
