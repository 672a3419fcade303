/** What every sweep keeps, and what holds of the state in which `Execute` stops. */
module EngineInvariants {
  import opened Wrappers
  import opened Digraphs
  import opened Flows
  import opened Engine

  /** The recorded fate of `id` is the one its upstream nodes dictate. */
  ghost predicate Justified(job: Job, st: State, id: NodeId)
    requires id in job.Nodes() && id in st.statuses
  {
    match st.statuses[id]
    case Pending => id !in st.outputs
    case Skipped => id !in st.outputs && Decide(job, st.statuses, st.outputs, id) == Skip
    case Success =>
      var verdict := Decide(job, st.statuses, st.outputs, id);
      id in st.outputs && verdict.Run? && job.handler(job.Nodes()[id], verdict.inputs) == Ok(st.outputs[id])
  }

  /** Every finished node is justified, and the trace lists the finished nodes once each. */
  ghost predicate Sound(job: Job, st: State) {
    && st.statuses.Keys == job.Nodes().Keys
    && (forall id :: id in st.outputs ==> id in job.Nodes())
    && (forall id :: id in job.Nodes() ==> Justified(job, st, id))
    && Distinct(st.trace)
    && (forall id :: id in st.trace <==> id in job.Nodes() && st.statuses[id] != Pending)
  }

  /** Nodes outside `changed` have the same status and output in both states. */
  ghost predicate AgreeOn(a: State, b: State, id: NodeId) {
    && (id in a.statuses <==> id in b.statuses)
    && (id in a.statuses ==> a.statuses[id] == b.statuses[id])
    && OutputOf(a.outputs, id) == OutputOf(b.outputs, id)
  }

  lemma {:induction false} FiringFrame(job: Job, a: State, b: State, edges: seq<Edge>)
    requires forall edge :: edge in edges ==> AgreeOn(a, b, edge.source)
    ensures FiringEdges(job, a.statuses, a.outputs, edges) == FiringEdges(job, b.statuses, b.outputs, edges)
  {
    if edges == [] {
    } else {
      assert edges[0] in edges;
      assert forall edge :: edge in edges[1..] ==> edge in edges;
      FiringFrame(job, a, b, edges[1..]);
    }
  }

  lemma DoneFrame(a: State, b: State, edges: seq<Edge>)
    requires forall edge :: edge in edges ==> AgreeOn(a, b, edge.source)
    ensures UpstreamDone(a.statuses, edges) == UpstreamDone(b.statuses, edges)
  {
    forall edge | edge in edges
      ensures (edge.source in a.statuses && a.statuses[edge.source] != Pending) <==> (edge.source in b.statuses && b.statuses[edge.source] != Pending)
    {
      assert AgreeOn(a, b, edge.source);
    }
  }

  lemma InputsFrame(job: Job, a: State, b: State, active: seq<Edge>)
    requires forall edge :: edge in active ==> AgreeOn(a, b, edge.source)
    ensures Inputs(job, a.outputs, active) == Inputs(job, b.outputs, active)
  {
    forall source | source in Sources(active) ensures Contribution(job, a.outputs, source) == Contribution(job, b.outputs, source) {
      var edge :| edge in active && edge.source == source;
      assert AgreeOn(a, b, edge.source);
    }
    assert Collected(job, a.outputs, active) == Collected(job, b.outputs, active);
  }

  /** The decision about a node depends on its upstream nodes alone. */
  lemma DecideFrame(job: Job, a: State, b: State, id: NodeId)
    requires forall edge :: edge in job.Into(id) ==> AgreeOn(a, b, edge.source)
    ensures Decide(job, a.statuses, a.outputs, id) == Decide(job, b.statuses, b.outputs, id)
  {
    var into := job.Into(id);
    DoneFrame(a, b, into);
    FiringFrame(job, a, b, into);
    FiringMembers(job, a.statuses, a.outputs, into);
    InputsFrame(job, a, b, FiringEdges(job, a.statuses, a.outputs, into));
  }

  /** Finishing a pending node does not disturb what was decided before. */
  lemma FinishFrame(job: Job, a: State, b: State, id: NodeId, other: NodeId)
    requires id in a.statuses && a.statuses[id] == Pending
    requires forall x :: x != id ==> AgreeOn(a, b, x)
    requires Decide(job, a.statuses, a.outputs, other) != Wait
    ensures Decide(job, b.statuses, b.outputs, other) == Decide(job, a.statuses, a.outputs, other)
  {
    forall edge | edge in job.Into(other) ensures AgreeOn(a, b, edge.source) {}
    DecideFrame(job, a, b, other);
  }

  lemma FinishKeepsSound(job: Job, st: State, next: State, id: NodeId)
    requires Sound(job, st) && id in job.Nodes() && st.statuses[id] == Pending
    requires next.statuses.Keys == st.statuses.Keys && next.statuses[id] != Pending && next.trace == st.trace + [id]
    requires forall x :: x != id ==> AgreeOn(st, next, x)
    requires Decide(job, st.statuses, st.outputs, id) != Wait
    requires match Decide(job, st.statuses, st.outputs, id)
             case Run(inputs) => next.statuses[id] == Success && id in next.outputs && job.handler(job.Nodes()[id], inputs) == Ok(next.outputs[id])
             case _ => next.statuses[id] == Skipped && id !in next.outputs
    ensures Sound(job, next)
  {
    FinishFrame(job, st, next, id, id);
    forall x | x in job.Nodes() ensures Justified(job, next, x) {
      if x != id {
        assert Justified(job, st, x) && AgreeOn(st, next, x);
        if st.statuses[x] != Pending { FinishFrame(job, st, next, id, x); }
      }
    }
    assert id !in st.trace;
    forall x | x in next.outputs ensures x in job.Nodes() {
      if x != id { assert AgreeOn(st, next, x); }
    }
    forall x ensures x in next.trace <==> x in job.Nodes() && next.statuses[x] != Pending {
      if x != id { assert AgreeOn(st, next, x); }
    }
  }

  lemma VisitKeepsSound(job: Job, st: State, id: NodeId)
    requires Sound(job, st) && id in job.Nodes()
    ensures Sound(job, Visit(job, st, id).state)
  {
    var next := Visit(job, st, id).state;
    if next != st {
      FinishKeepsSound(job, st, next, id);
    }
  }

  lemma {:induction false} SweepKeepsSound(job: Job, order: seq<NodeId>, st: State)
    requires Sound(job, st) && forall id :: id in order ==> id in job.Nodes()
    ensures Sound(job, Sweep(job, order, st).state)
  {
    if order == [] {
    } else {
      VisitKeepsSound(job, st, order[0]);
      var r := Visit(job, st, order[0]);
      if r.Moved? { SweepKeepsSound(job, order[1..], r.state); }
    }
  }

  /** Why a sweep stopped at `id`. */
  ghost predicate FailedAt(job: Job, st: State, id: NodeId, error: string) {
    && id in job.Nodes() && id in st.statuses && st.statuses[id] == Pending
    && var verdict := Decide(job, st.statuses, st.outputs, id);
       verdict.Run? && job.handler(job.Nodes()[id], verdict.inputs) == Err(error)
  }

  lemma {:induction false} SweepStops(job: Job, order: seq<NodeId>, st: State)
    requires st.statuses.Keys == job.Nodes().Keys && forall id :: id in order ==> id in job.Nodes()
    ensures var r := Sweep(job, order, st); r.Stopped? ==> FailedAt(job, r.state, r.id, r.error)
  {
    if order == [] {
    } else {
      var r := Visit(job, st, order[0]);
      if r.Moved? { SweepStops(job, order[1..], r.state); }
    }
  }

  /** A sweep that finishes nothing leaves the state alone: every pending node it passed has to wait. */
  lemma {:induction false} IdleSweep(job: Job, order: seq<NodeId>, st: State)
    requires st.statuses.Keys == job.Nodes().Keys && forall id :: id in order ==> id in job.Nodes()
    requires Sweep(job, order, st).Moved? && |Sweep(job, order, st).state.trace| == |st.trace|
    ensures Sweep(job, order, st).state == st
    ensures forall id :: id in order && st.statuses[id] == Pending ==> Decide(job, st.statuses, st.outputs, id) == Wait
  {
    if order == [] {
    } else {
      var next := Visit(job, st, order[0]).state;
      assert |next.trace| <= |Sweep(job, order[1..], next).state.trace|;
      assert next == st;
      IdleSweep(job, order[1..], st);
    }
  }

  /** The state in which an execution stops, and why it stops there. */
  ghost predicate Explained(job: Job, outcome: Outcome) {
    && Sound(job, outcome.state)
    && match outcome
       case Completed(st, output) => PendingIn(st) == {} && output == EndOutput(job, st)
       case NodeFailed(st, id, error) => FailedAt(job, st, id, error)
       case NoProgress(st) =>
         && PendingIn(st) != {}
         && forall id :: id in PendingIn(st) ==> Decide(job, st.statuses, st.outputs, id) == Wait
  }

  lemma {:induction false} DriveExplained(job: Job, order: seq<NodeId>, st: State)
    requires Sound(job, st) && Enumerates(order, job.Nodes().Keys)
    ensures Explained(job, Drive(job, order, st))
    decreases |PendingIn(st)|
  {
    SweepKeepsSound(job, order, st);
    SweepStops(job, order, st);
    var r := Sweep(job, order, st);
    if r.Moved? {
      if PendingIn(r.state) == {} {
      } else if |r.state.trace| == |st.trace| {
        IdleSweep(job, order, st);
      } else {
        DriveExplained(job, order, r.state);
      }
    }
  }

  lemma ExecuteExplained(job: Job, order: seq<NodeId>)
    requires Enumerates(order, job.Nodes().Keys)
    ensures Explained(job, Execute(job, order))
  {
    DriveExplained(job, order, Initial(job));
  }

  /** Each sweep but the last finishes at least one node. */
  lemma {:induction false} SweepsBounded(job: Job, order: seq<NodeId>, st: State)
    requires st.statuses.Keys == job.Nodes().Keys && forall id :: id in order ==> id in job.Nodes()
    ensures SweepCount(job, order, st) <= 1 + |PendingIn(st)|
    ensures Drive(job, order, st).Completed? && PendingIn(st) != {} ==> SweepCount(job, order, st) <= |PendingIn(st)|
    decreases |PendingIn(st)|
  {
    var r := Sweep(job, order, st);
    if r.Moved? && PendingIn(r.state) != {} && |r.state.trace| != |st.trace| {
      SweepsBounded(job, order, r.state);
    }
  }
}
