/** The behaviour of the built-in nodes meets what the executor's theorems ask of handlers. */
module Builtins {
  import opened Wrappers
  import opened Json
  import opened Digraphs
  import opened Flows
  import opened NodeHandlers
  import opened Paths
  import opened Redaction
  import opened Polling
  import opened ValidatorRules
  import opened Engine
  import opened EngineTheorems
  import opened Workflow

  /** Every other handler returns or raises: none of them but HTTP Poll knows `PollPending`. */
  type Plain = (Node, Json, nat, nat) -> Result<Object, string>

  function Table(python: Python, coerce: (Json, Json) -> Json, responses: (Node, Json, nat) -> Result<Object, string>, plain: Plain): Tries {
    (node: Node, inputs: Json, attempt: nat, k: nat) =>
      if node.data.nodeType == "condition" then ConditionExecute(python, inputs, node.data.config)
      else if node.data.nodeType == "http_poll" then PollDecide(python, coerce, node.data.config, attempt, responses(node, inputs, k))
      else match plain(node, inputs, attempt, k) case Ok(output) => Returned(output) case Err(error) => Raised(error)
  }

  lemma TableRespectsLimit(python: Python, coerce: (Json, Json) -> Json, responses: (Node, Json, nat) -> Result<Object, string>, plain: Plain)
    ensures RespectsPollLimit(Table(python, coerce, responses, plain))
  {
    var tries := Table(python, coerce, responses, plain);
    forall node, inputs, attempt: nat, k: nat | tries(node, inputs, attempt, k).PollPending? ensures attempt < MaxAttempts(node.data) {
      if node.data.nodeType == "condition" {
        ConditionDecides(python, inputs, node.data.config);
      } else {
        PollPutsOffBelowLimit(python, coerce, node.data, attempt, responses(node, inputs, k));
      }
    }
  }

  ghost predicate BranchingTries(tries: Tries) {
    forall node: Node, inputs, attempt: nat, k: nat :: node.data.nodeType == "condition" ==>
      var t := tries(node, inputs, attempt, k); t.Returned? ==> TakesABranch(t.output)
  }

  lemma TableBranches(python: Python, coerce: (Json, Json) -> Json, responses: (Node, Json, nat) -> Result<Object, string>, plain: Plain)
    ensures BranchingTries(Table(python, coerce, responses, plain))
  {
    var tries := Table(python, coerce, responses, plain);
    forall node: Node, inputs, attempt: nat, k: nat | node.data.nodeType == "condition" && tries(node, inputs, attempt, k).Returned?
      ensures TakesABranch(tries(node, inputs, attempt, k).output)
    {
      ConditionDecides(python, inputs, node.data.config);
    }
  }

  lemma {:induction false} ActivityBranches(tries: Tries, node: Node, inputs: Json, round: nat, retry: nat, k: nat)
    requires BranchingTries(tries) && node.data.nodeType == "condition" && 1 <= retry <= MaxAttempts(node.data)
    ensures var t := Activity(tries, node, inputs, round, retry, k).0; t.Returned? ==> TakesABranch(t.output)
    decreases MaxAttempts(node.data) - retry
  {
    if retry < MaxAttempts(node.data) { ActivityBranches(tries, node, inputs, round, retry + 1, k + 1); }
  }

  lemma {:induction false} SettleBranches(tries: Tries, node: Node, inputs: Json, round: nat, k: nat)
    requires RespectsPollLimit(tries) && BranchingTries(tries) && node.data.nodeType == "condition"
    ensures var r := Settle(tries, node, inputs, round, k).result; r.Ok? ==> TakesABranch(r.value)
    decreases MaxAttempts(node.data) - round
  {
    ActivityBranches(tries, node, inputs, round, 1, k);
    var (t, calls) := Activity(tries, node, inputs, round, 1, k);
    match t
    case Returned(output) => RedactKeepsBranch(output);
    case Raised(_) =>
    case PollPending(_) =>
      PendingRoundIsBelowLimit(tries, node, inputs, round, 1, k);
      SettleBranches(tries, node, inputs, round + 1, calls);
  }

  lemma ConditionsBranchInRun(world: World, content: FlowContent, input: Json)
    requires RespectsPollLimit(world.tries) && BranchingTries(world.tries)
    ensures ConditionsBranch(Job(content, input, Behaviour(world)))
  {
    var job := Job(content, input, Behaviour(world));
    forall id, inputs | id in job.Nodes() && job.Type(id) == "condition"
      ensures match job.handler(job.Nodes()[id], inputs) case Ok(output) => TakesABranch(output) case Err(_) => true
    {
      SettleBranches(world.tries, job.Nodes()[id], inputs, 1, 0);
    }
  }

  /**
   The workflow on an accepted flow with the built-in nodes: it never stalls; unless a node fails it completes,
   after at most one sweep per node, each node executed or skipped exactly once, with an End among the executed.
   */
  lemma BuiltinRunOfAcceptedFlow(registry: Registry, world: World, content: FlowContent, input: Json, order: seq<NodeId>,
                                 python: Python, coerce: (Json, Json) -> Json, responses: (Node, Json, nat) -> Result<Object, string>, plain: Plain)
    requires Accepted(registry, content) && world.tries == Table(python, coerce, responses, plain)
    requires Enumerates(order, Ids(content.nodes))
    ensures RespectsPollLimit(world.tries)
    ensures var job := Job(content, input, Behaviour(world));
            var outcome := Execute(job, order);
            || outcome.NodeFailed?
            || (outcome.Completed? && FinishedEnds(job, outcome.state) != {} && SweepCount(job, order, Initial(job)) <= |Ids(content.nodes)|
                && Distinct(outcome.state.trace) && forall id :: id in outcome.state.trace <==> id in Ids(content.nodes))
  {
    TableRespectsLimit(python, coerce, responses, plain);
    TableBranches(python, coerce, responses, plain);
    ConditionsBranchInRun(world, content, input);
    var job := Job(content, input, Behaviour(world));
    if !Execute(job, order).NodeFailed? {
      AcceptedRunFinishes(registry, job, order);
      assert |job.Nodes()| == |job.Nodes().Keys|;
    }
  }

  /**
   In a run with the built-in handlers an HTTP Poll node succeeds only with a response whose observed value compared as
   expected, and what it hands on, its record apart, is that response, redacted.
   */
  lemma PollSucceedsOnMatch(world: World, node: Node, inputs: Json,
                            python: Python, coerce: (Json, Json) -> Json, responses: (Node, Json, nat) -> Result<Object, string>, plain: Plain)
    requires world.tries == Table(python, coerce, responses, plain) && node.data.nodeType == "http_poll"
    ensures RespectsPollLimit(world.tries)
    ensures var result := Behaviour(world)(node, inputs);
            result.Ok? ==> exists k: nat :: Matched(python, coerce, node.data.config, responses(node, inputs, k), result.value)
  {
    TableRespectsLimit(python, coerce, responses, plain);
    assert |"http_poll"| != |"manual_approval"| && |"http_poll"| != |"http_callback"|;
    assert "http_poll"[0] != "condition"[0];
    HandlerOutcome(world, node, inputs);
    var result := Behaviour(world)(node, inputs);
    if result.Ok? {
      var out :| result.value == RedactObject(out) && SomeTry(world, node, inputs, Returned(out));
      var attempt: nat, k: nat :| world.tries(node, inputs, attempt, k) == Returned(out);
      ReturnedMatches(python, coerce, node.data, attempt, responses(node, inputs, k), result.value);
    }
  }

  lemma ReturnedMatches(python: Python, coerce: (Json, Json) -> Json, data: NodeData, attempt: nat, response: Result<Object, string>, output: Object)
    requires data.nodeType == "http_poll"
    requires var t := PollDecide(python, coerce, data.config, attempt, response); t.Returned? && output == RedactObject(t.output)
    ensures Matched(python, coerce, data.config, response, output)
  {
    PollDecides(python, coerce, data, attempt, response);
    RedactWithout(PollDecide(python, coerce, data.config, attempt, response).output, response.value);
  }

  /** The response compares as expected, and redacted it is the output without its record. */
  predicate Matched(python: Python, coerce: (Json, Json) -> Json, config: Object, response: Result<Object, string>, output: Object) {
    && response.Ok? && Observed(python, config, response).Some?
    && Comparison(python, coerce, config, Observed(python, config, response).value) == Some(true)
    && output - {"_poll"} == RedactObject(response.value) - {"_poll"}
  }

  lemma RedactWithout(a: Object, b: Object)
    requires a - {"_poll"} == b - {"_poll"}
    ensures RedactObject(a) - {"_poll"} == RedactObject(b) - {"_poll"}
  {
    forall key | key != "_poll" ensures key in a <==> key in b {
      assert key in a <==> key in a - {"_poll"};
      assert key in b <==> key in b - {"_poll"};
    }
    forall key | key in a && key != "_poll" ensures a[key] == b[key] {
      assert (a - {"_poll"})[key] == (b - {"_poll"})[key];
    }
  }

  /** And a condition succeeds with the branch that its comparison says, or not at all. */
  lemma ConditionSucceedsAsCompared(world: World, node: Node, inputs: Json,
                                    python: Python, coerce: (Json, Json) -> Json, responses: (Node, Json, nat) -> Result<Object, string>, plain: Plain)
    requires world.tries == Table(python, coerce, responses, plain) && node.data.nodeType == "condition"
    ensures RespectsPollLimit(world.tries)
    ensures var result, config := Behaviour(world)(node, inputs), node.data.config;
            && (result.Err? <==> ConditionFails(python, inputs, config))
            && (result.Ok? ==>
                  var matched := python.compare(python.text(config["operator"]), GetPath(inputs, python.text(config["field"])).value, Get(config, "value"));
                  "branch" in result.value && result.value["branch"] == Str(if matched == Some(true) then "true" else "false"))
  {
    TableRespectsLimit(python, coerce, responses, plain);
    assert |"condition"| != |"manual_approval"| && |"condition"| != |"http_callback"|;
    HandlerOutcome(world, node, inputs);
    var result := Behaviour(world)(node, inputs);
    ConditionDecides(python, inputs, node.data.config);
    if result.Ok? {
      var out :| result.value == RedactObject(out) && SomeTry(world, node, inputs, Returned(out));
      assert ConditionExecute(python, inputs, node.data.config) == Returned(out);
      RedactKeepsBranch(out);
    } else {
      var error :| result.error == world.wrapped(error) && SomeTry(world, node, inputs, Raised(error));
      var attempt: nat, k: nat :| world.tries(node, inputs, attempt, k) == Raised(error);
      assert ConditionExecute(python, inputs, node.data.config) == Raised(error);
    }
  }
}
