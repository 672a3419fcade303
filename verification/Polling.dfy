/**
 Executing one node to its end: Temporal retries an activity that raises, and a `poll_pending` result
 starts the next round after a sleep. The attempt number a handler sees is the larger of the round
 and Temporal's own try count.
 */
module Polling {
  import opened Wrappers
  import opened Json
  import opened Flows
  import opened Redaction
  import opened NodeHandlers
  import opened Paths
  import opened Texts

  /** A handler's behaviour: its answer to the attempt number it is given, on its `k`-th call for this node. */
  type Tries = (Node, Json, nat, nat) -> Try

  function Max(a: nat, b: nat): nat {
    if a >= b then a else b
  }

  /** A handler asks for another poll only below its node's limit; `PollPutsOffBelowLimit` shows it of HTTP Poll. */
  ghost predicate RespectsPollLimit(tries: Tries) {
    forall node, inputs, attempt: nat, k: nat :: tries(node, inputs, attempt, k).PollPending? ==> attempt < MaxAttempts(node.data)
  }

  /** One activity: the answer of its last try, and the number of handler calls made for the node so far. */
  function Activity(tries: Tries, node: Node, inputs: Json, round: nat, retry: nat, k: nat): (r: (Try, nat))
    requires 1 <= retry <= MaxAttempts(node.data)
    decreases MaxAttempts(node.data) - retry
  {
    var t := tries(node, inputs, Max(round, retry), k);
    if t.Raised? && retry < MaxAttempts(node.data) then Activity(tries, node, inputs, round, retry + 1, k + 1)
    else (t, k + 1)
  }

  datatype Settled = Settled(result: Result<Object, string>, rounds: nat, calls: nat)

  lemma {:induction false} PendingRoundIsBelowLimit(tries: Tries, node: Node, inputs: Json, round: nat, retry: nat, k: nat)
    requires RespectsPollLimit(tries) && 1 <= retry <= MaxAttempts(node.data)
    ensures var (t, calls) := Activity(tries, node, inputs, round, retry, k);
            && k < calls <= k + MaxAttempts(node.data) - retry + 1
            && (t.PollPending? ==> round < MaxAttempts(node.data) && calls < k + MaxAttempts(node.data) - retry + 1)
    decreases MaxAttempts(node.data) - retry
  {
    var t := tries(node, inputs, Max(round, retry), k);
    if t.Raised? && retry < MaxAttempts(node.data) {
      PendingRoundIsBelowLimit(tries, node, inputs, round, retry + 1, k + 1);
    }
  }

  /** The poll loop of the workflow from `round` on, after `k` handler calls. Outputs are redacted by the activity. */
  function Settle(tries: Tries, node: Node, inputs: Json, round: nat, k: nat): Settled
    requires RespectsPollLimit(tries)
    decreases MaxAttempts(node.data) - round
  {
    var (t, calls) := Activity(tries, node, inputs, round, 1, k);
    match t
    case Returned(output) => Settled(Ok(RedactObject(output)), round, calls)
    case Raised(error) => Settled(Err(error), round, calls)
    case PollPending(_) =>
      PendingRoundIsBelowLimit(tries, node, inputs, round, 1, k);
      Settle(tries, node, inputs, round + 1, calls)
  }

  function Run(tries: Tries, node: Node, inputs: Json): Settled
    requires RespectsPollLimit(tries)
  {
    Settle(tries, node, inputs, 1, 0)
  }

  // ----- bounds -----

  /** The most handler calls a poll with limit `m` can make from `round` on. */
  function CallsFrom(m: nat, round: nat): int
    decreases m - round
  {
    if round >= m then m else m - 1 + CallsFrom(m, round + 1)
  }

  lemma {:induction false} CallsFromClosed(m: nat, round: nat)
    requires round <= m
    ensures CallsFrom(m, round) == (m - round) * (m - 1) + m
    decreases m - round
  {
    if round < m {
      CallsFromClosed(m, round + 1);
      assert (m - round) * (m - 1) == (m - round - 1) * (m - 1) + (m - 1);
    } else {
      assert (m - round) * (m - 1) == 0;
    }
  }

  /** The worst case over all rounds, and that it exceeds one budget of m as soon as m > 1. */
  lemma CallsInAll(m: nat)
    requires m >= 1
    ensures CallsFrom(m, 1) == m * m - m + 1
    ensures m > 1 ==> m * m - m + 1 > m
  {
    CallsFromClosed(m, 1);
    assert (m - 1) * (m - 1) + m == m * m - m + 1;
    if m > 1 { assert m * (m - 1) >= 2 * (m - 1); }
  }

  lemma {:induction false} CallsFromAtLeast(m: nat, round: nat)
    requires m >= 1
    ensures CallsFrom(m, round) >= m
    decreases m - round
  {
    if round < m { CallsFromAtLeast(m, round + 1); }
  }

  lemma {:induction false} SettleBounds(tries: Tries, node: Node, inputs: Json, round: nat, k: nat)
    requires RespectsPollLimit(tries) && 1 <= round <= MaxAttempts(node.data)
    ensures var m, s := MaxAttempts(node.data), Settle(tries, node, inputs, round, k);
            round <= s.rounds <= m && k < s.calls <= k + CallsFrom(m, round)
    decreases MaxAttempts(node.data) - round
  {
    var (t, calls) := Activity(tries, node, inputs, round, 1, k);
    PendingRoundIsBelowLimit(tries, node, inputs, round, 1, k);
    var m := MaxAttempts(node.data);
    if t.PollPending? {
      SettleBounds(tries, node, inputs, round + 1, calls);
    } else {
      CallsFromAtLeast(m, round);
    }
  }

  /** With limit M the loop ends within M rounds and the handler is called at most M*M - M + 1 times. */
  lemma PollTerminates(tries: Tries, node: Node, inputs: Json)
    requires RespectsPollLimit(tries)
    ensures var m, s := MaxAttempts(node.data), Run(tries, node, inputs);
            1 <= s.rounds <= m && 1 <= s.calls <= m * m - m + 1
  {
    SettleBounds(tries, node, inputs, 1, 0);
    CallsInAll(MaxAttempts(node.data));
  }

  // ----- what the result tells -----

  /** Calls `from` up to `upTo` all raised. */
  ghost predicate AllRaised(tries: Tries, node: Node, inputs: Json, round: nat, k: nat, retry: nat, upTo: nat) {
    forall i: nat :: 1 <= i && retry <= i < upTo ==> tries(node, inputs, Max(round, i), k + i - 1).Raised?
  }

  lemma {:induction false} ActivityTells(tries: Tries, node: Node, inputs: Json, round: nat, retry: nat, k: nat)
    requires 1 <= retry <= MaxAttempts(node.data)
    ensures var (t, calls) := Activity(tries, node, inputs, round, retry, k + retry - 1);
            && k + retry <= calls <= k + MaxAttempts(node.data)
            && t == tries(node, inputs, Max(round, calls - k), calls - 1)
            && AllRaised(tries, node, inputs, round, k, retry, calls - k)
            && (t.Raised? ==> calls == k + MaxAttempts(node.data))
    decreases MaxAttempts(node.data) - retry
  {
    var t := tries(node, inputs, Max(round, retry), k + retry - 1);
    if t.Raised? && retry < MaxAttempts(node.data) {
      ActivityTells(tries, node, inputs, round, retry + 1, k);
    }
  }

  /** The last activity of a settled node: it began after `k` calls, in the last round. */
  ghost predicate LastActivity(tries: Tries, node: Node, inputs: Json, s: Settled, k: nat) {
    && k < s.calls <= k + MaxAttempts(node.data)
    && AllRaised(tries, node, inputs, s.rounds, k, 1, s.calls - k)
    && var last := tries(node, inputs, Max(s.rounds, s.calls - k), s.calls - 1);
       match s.result
       case Ok(output) => last.Returned? && output == RedactObject(last.output)
       case Err(error) => last == Raised(error) && s.calls == k + MaxAttempts(node.data)
  }

  /**
   A node's output is what its last call returned, redacted; a node fails only when a whole activity of M tries
   raised, and what Temporal then wraps in an `ActivityError` is the last one's error.
   */
  lemma {:induction false} SettleTells(tries: Tries, node: Node, inputs: Json, round: nat, k: nat)
    requires RespectsPollLimit(tries)
    ensures exists last: nat :: last >= k && LastActivity(tries, node, inputs, Settle(tries, node, inputs, round, k), last)
    decreases MaxAttempts(node.data) - round
  {
    ActivityTells(tries, node, inputs, round, 1, k);
    var (t, calls) := Activity(tries, node, inputs, round, 1, k);
    if t.PollPending? {
      PendingRoundIsBelowLimit(tries, node, inputs, round, 1, k);
      SettleTells(tries, node, inputs, round + 1, calls);
    } else {
      assert LastActivity(tries, node, inputs, Settle(tries, node, inputs, round, k), k);
    }
  }

  // ----- the bound is met -----

  /** HTTP Poll against a server that answers the `k`-th request with `responses(k)`. */
  function HttpTries(python: Python, coerce: (Json, Json) -> Json, responses: nat -> Result<Object, string>): Tries {
    (node: Node, inputs: Json, attempt: nat, k: nat) =>
      if node.data.nodeType == "http_poll" then PollDecide(python, coerce, node.data.config, attempt, responses(k)) else Raised("")
  }

  lemma HttpRespectsLimit(python: Python, coerce: (Json, Json) -> Json, responses: nat -> Result<Object, string>)
    ensures RespectsPollLimit(HttpTries(python, coerce, responses))
  {
    forall node, inputs, attempt: nat, k: nat | HttpTries(python, coerce, responses)(node, inputs, attempt, k).PollPending?
      ensures attempt < MaxAttempts(node.data)
    {
      PollPutsOffBelowLimit(python, coerce, node.data, attempt, responses(k));
    }
  }

  /** The server can answer with something that does not match, which puts the poll off. */
  predicate Mismatch(python: Python, coerce: (Json, Json) -> Json, node: Node, payload: Object) {
    PollDecide(python, coerce, node.data.config, 0, Ok(payload)).PollPending?
  }

  lemma MismatchStays(python: Python, coerce: (Json, Json) -> Json, node: Node, payload: Object, attempt: nat)
    requires node.data.nodeType == "http_poll" && Mismatch(python, coerce, node, payload)
    ensures var t := PollDecide(python, coerce, node.data.config, attempt, Ok(payload));
            if attempt < MaxAttempts(node.data) then t.PollPending? else t.Raised?
  {
  }

  /** In every stretch of m - 1 requests, all but the last meet a transport error and the last does not match. */
  function WorstResponses(m: nat, payload: Object): nat -> Result<Object, string> {
    (k: nat) => if m > 1 && k % (m - 1) == m - 2 then Ok(payload) else Err("")
  }

  lemma SmallMultiple(t: int, d: int)
    requires -d < t * d < d
    ensures t == 0
  {
    assert t >= 1 ==> t * d >= d;
    assert t <= -1 ==> t * d <= -d;
  }

  lemma ModStep(k: nat, d: nat)
    requires d > 0
    ensures (k + 1) % d == if k % d == d - 1 then 0 else k % d + 1
  {
    var next := if k % d == d - 1 then 0 else k % d + 1;
    var q := if k % d == d - 1 then k / d + 1 else k / d;
    assert k == (k / d) * d + k % d;
    assert k + 1 == q * d + next;
    assert ((k + 1) / d - q) * d == next - (k + 1) % d;
    SmallMultiple((k + 1) / d - q, d);
  }

  lemma WorstAnswer(python: Python, coerce: (Json, Json) -> Json, node: Node, inputs: Json, payload: Object, attempt: nat, k: nat)
    requires node.data.nodeType == "http_poll" && Mismatch(python, coerce, node, payload)
    ensures var m := MaxAttempts(node.data);
            var t := HttpTries(python, coerce, WorstResponses(m, payload))(node, inputs, attempt, k);
            if m > 1 && k % (m - 1) == m - 2 && attempt < m then t.PollPending? else t.Raised?
  {
    var m := MaxAttempts(node.data);
    var response := WorstResponses(m, payload)(k);
    if m > 1 && k % (m - 1) == m - 2 {
      assert response == Ok(payload);
      MismatchStays(python, coerce, node, payload, attempt);
    } else {
      assert response == Err("");
      assert PollDecide(python, coerce, node.data.config, attempt, response) == Raised("");
    }
  }

  /** A worst round below the limit makes M - 1 calls and ends pending. */
  lemma {:induction false} WorstRound(python: Python, coerce: (Json, Json) -> Json, node: Node, inputs: Json, payload: Object,
                                      round: nat, retry: nat, k: nat)
    requires node.data.nodeType == "http_poll" && Mismatch(python, coerce, node, payload)
    requires 1 <= round < MaxAttempts(node.data) && 1 <= retry < MaxAttempts(node.data)
    requires k % (MaxAttempts(node.data) - 1) == retry - 1
    ensures var m := MaxAttempts(node.data);
            var (t, calls) := Activity(HttpTries(python, coerce, WorstResponses(m, payload)), node, inputs, round, retry, k);
            t.PollPending? && calls == k + m - retry && calls % (m - 1) == 0
    decreases MaxAttempts(node.data) - retry
  {
    var m := MaxAttempts(node.data);
    WorstAnswer(python, coerce, node, inputs, payload, Max(round, retry), k);
    ModStep(k, m - 1);
    if retry < m - 1 {
      WorstRound(python, coerce, node, inputs, payload, round, retry + 1, k + 1);
    }
  }

  /** At the limit every try raises. */
  lemma {:induction false} LastRound(python: Python, coerce: (Json, Json) -> Json, node: Node, inputs: Json, payload: Object, retry: nat, k: nat)
    requires node.data.nodeType == "http_poll" && Mismatch(python, coerce, node, payload)
    requires 1 <= retry <= MaxAttempts(node.data)
    ensures var m := MaxAttempts(node.data);
            var (t, calls) := Activity(HttpTries(python, coerce, WorstResponses(m, payload)), node, inputs, m, retry, k);
            t.Raised? && calls == k + m - retry + 1
    decreases MaxAttempts(node.data) - retry
  {
    WorstAnswer(python, coerce, node, inputs, payload, MaxAttempts(node.data), k);
    if retry < MaxAttempts(node.data) {
      LastRound(python, coerce, node, inputs, payload, retry + 1, k + 1);
    }
  }

  lemma {:induction false} WorstFrom(python: Python, coerce: (Json, Json) -> Json, node: Node, inputs: Json, payload: Object, round: nat, k: nat)
    requires node.data.nodeType == "http_poll" && Mismatch(python, coerce, node, payload)
    requires 1 <= round <= MaxAttempts(node.data)
    requires MaxAttempts(node.data) > 1 ==> k % (MaxAttempts(node.data) - 1) == 0
    requires RespectsPollLimit(HttpTries(python, coerce, WorstResponses(MaxAttempts(node.data), payload)))
    ensures var m := MaxAttempts(node.data);
            Settle(HttpTries(python, coerce, WorstResponses(m, payload)), node, inputs, round, k).calls == k + CallsFrom(m, round)
    decreases MaxAttempts(node.data) - round
  {
    var m := MaxAttempts(node.data);
    if round < m {
      WorstRound(python, coerce, node, inputs, payload, round, 1, k);
      WorstFrom(python, coerce, node, inputs, payload, round + 1, k + m - 1);
    } else {
      LastRound(python, coerce, node, inputs, payload, 1, k);
    }
  }

  /** Some server behaviour meets the bound M*M - M + 1. */
  lemma WorstCaseMeetsBound(python: Python, coerce: (Json, Json) -> Json, node: Node, inputs: Json, payload: Object)
    requires node.data.nodeType == "http_poll" && Mismatch(python, coerce, node, payload)
    ensures RespectsPollLimit(HttpTries(python, coerce, WorstResponses(MaxAttempts(node.data), payload)))
    ensures var m := MaxAttempts(node.data);
            Run(HttpTries(python, coerce, WorstResponses(m, payload)), node, inputs).calls == m * m - m + 1
  {
    var m := MaxAttempts(node.data);
    HttpRespectsLimit(python, coerce, WorstResponses(m, payload));
    WorstFrom(python, coerce, node, inputs, payload, 1, 0);
    CallsInAll(m);
  }

  // ----- the documented budget -----

  /** README.md line 361: polls and retries together stay within the one budget of M attempts. */
  ghost predicate SharesOneBudget(python: Python, coerce: (Json, Json) -> Json, node: Node) {
    forall responses: nat -> Result<Object, string>, inputs ::
      RespectsPollLimit(HttpTries(python, coerce, responses)) ==>
        Run(HttpTries(python, coerce, responses), node, inputs).calls <= MaxAttempts(node.data)
  }

  lemma {:induction false} NeverPutOff(python: Python, coerce: (Json, Json) -> Json, node: Node, inputs: Json,
                                       responses: nat -> Result<Object, string>, round: nat, retry: nat, k: nat)
    requires node.data.nodeType == "http_poll" && forall payload :: !Mismatch(python, coerce, node, payload)
    requires 1 <= retry <= MaxAttempts(node.data)
    ensures !Activity(HttpTries(python, coerce, responses), node, inputs, round, retry, k).0.PollPending?
    decreases MaxAttempts(node.data) - retry
  {
    assert responses(k).Ok? ==> !Mismatch(python, coerce, node, responses(k).value);
    if retry < MaxAttempts(node.data) {
      NeverPutOff(python, coerce, node, inputs, responses, round, retry + 1, k + 1);
    }
  }

  /**
   The code keeps the documented budget exactly for a limit of one (or for an expectation that no answer
   can fail): after every poll that is put off, the next round gets M tries of its own.
   */
  lemma OneBudgetIff(python: Python, coerce: (Json, Json) -> Json, node: Node)
    requires node.data.nodeType == "http_poll"
    ensures SharesOneBudget(python, coerce, node) <==>
            MaxAttempts(node.data) == 1 || forall payload :: !Mismatch(python, coerce, node, payload)
  {
    var m := MaxAttempts(node.data);
    if m == 1 {
      forall responses: nat -> Result<Object, string>, inputs | RespectsPollLimit(HttpTries(python, coerce, responses))
        ensures Run(HttpTries(python, coerce, responses), node, inputs).calls <= m
      {
        PollTerminates(HttpTries(python, coerce, responses), node, inputs);
      }
    } else if payload: Object :| Mismatch(python, coerce, node, payload) {
      WorstCaseMeetsBound(python, coerce, node, Null, payload);
      CallsInAll(m);
      assert Run(HttpTries(python, coerce, WorstResponses(m, payload)), node, Null).calls > m;
    } else {
      forall responses: nat -> Result<Object, string>, inputs | RespectsPollLimit(HttpTries(python, coerce, responses))
        ensures Run(HttpTries(python, coerce, responses), node, inputs).calls <= m
      {
        NeverPutOff(python, coerce, node, inputs, responses, 1, 1, 0);
        PendingRoundIsBelowLimit(HttpTries(python, coerce, responses), node, inputs, 1, 1, 0);
      }
    }
  }

  /** For instance: at most two polls for a status that says "busy" instead of "done". */
  lemma BudgetExceeded() returns (python: Python, coerce: (Json, Json) -> Json, node: Node)
    ensures node.data.nodeType == "http_poll" && MaxAttempts(node.data) == 2
    ensures !SharesOneBudget(python, coerce, node)
  {
    python := Python((operator: string, a: Json, b: Json) => Some(a == b), (value: Json) => if value.Str? then value.s else "");
    coerce := (expected: Json, actual: Json) => expected;
    node := Node("poll", NodeData("http_poll", "1", map["maxPolls" := Num(2.0), "responsePath" := Str("s"), "expectedValue" := Str("done")]));
    var payload: Object := map["s" := Str("busy")];
    assert Split("s") == ["s"] by { SplitWhole("s", '.'); }
    assert ["s"][1..] == [];
    assert GetPath(Obj(payload), "s") == Some(Str("busy"));
    assert "busy"[0] != "done"[0];
    assert Mismatch(python, coerce, node, payload);
    OneBudgetIff(python, coerce, node);
  }
}
