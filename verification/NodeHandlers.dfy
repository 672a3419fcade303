/** The two built-in handlers whose decisions the workflow depends on: Condition and HTTP Poll. */
module NodeHandlers {
  import opened Wrappers
  import opened Json
  import opened Flows
  import opened Paths
  import opened Redaction
  import opened Engine

  const OPERATORS := {
    "equals", "not_equals", "greater_than", "greater_than_or_equal", "less_than", "less_than_or_equal", "contains"
  }

  /** Python's comparisons and string conversion are foreign; `None` is a `TypeError`. */
  datatype Python = Python(compare: (string, Json, Json) -> Option<bool>, text: Json -> string)

  /** How one execution of a handler ends. */
  datatype Try = Returned(output: Object) | PollPending(lastOutput: Object) | Raised(error: string)

  // ----- Condition -----

  function ConditionExecute(python: Python, inputs: Json, config: Object): Try {
    if "field" !in config || "operator" !in config then Raised("KeyError")
    else
      var operator := python.text(config["operator"]);
      var expected := Get(config, "value");
      match GetPath(inputs, python.text(config["field"]))
      case None => Raised("Field does not exist in the node input")
      case Some(actual) =>
        if operator !in OPERATORS then Raised("Unsupported condition operator")
        else
          match python.compare(operator, actual, expected)
          case None => Raised("Cannot compare")
          case Some(matched) =>
            Returned(map[
              "branch" := Str(if matched then "true" else "false"),
              "data" := inputs,
              "evaluation" := Obj(map["field" := Str(python.text(config["field"])), "actual" := actual,
                                      "operator" := Str(operator), "expected" := expected, "matched" := Bool(matched)])
            ])
  }

  predicate TakesABranch(output: Object) {
    "branch" in output && (output["branch"] == Str("true") || output["branch"] == Str("false"))
  }

  /** Redaction, which every output passes before the workflow sees it, does not touch the branch. */
  lemma RedactKeepsBranch(output: Object)
    requires TakesABranch(output)
    ensures TakesABranch(RedactObject(output)) && RedactObject(output)["branch"] == output["branch"]
  {
    var lower := Lower("branch");
    assert |lower| == 6 && lower[0] == 'b';
    forall word | word in SENSITIVE_KEYS ensures word != lower {
      assert |word| != 6 || word[0] != 'b';
    }
  }

  ghost predicate ConditionFails(python: Python, inputs: Json, config: Object) {
    || "field" !in config || "operator" !in config
    || GetPath(inputs, python.text(config["field"])) == None
    || python.text(config["operator"]) !in OPERATORS
    || python.compare(python.text(config["operator"]), GetPath(inputs, python.text(config["field"])).value, Get(config, "value")) == None
  }

  /**
   A condition raises exactly when the field is missing, the operator unknown or the values incomparable;
   otherwise it takes the branch its comparison says and hands its inputs on.
   */
  lemma ConditionDecides(python: Python, inputs: Json, config: Object)
    ensures ConditionExecute(python, inputs, config).Raised? <==> ConditionFails(python, inputs, config)
    ensures match ConditionExecute(python, inputs, config)
            case Returned(output) =>
              && TakesABranch(output) && "data" in output && output["data"] == inputs
              && "evaluation" in output && output["evaluation"].Obj? && {"matched", "actual", "expected"} <= output["evaluation"].fields.Keys
              && output["evaluation"].fields["matched"] == Bool(output["branch"] == Str("true"))
              && Some(output["evaluation"].fields["actual"]) == GetPath(inputs, python.text(config["field"]))
              && output["evaluation"].fields["expected"] == Get(config, "value")
              && (output["branch"] == Str("true") <==>
                  python.compare(python.text(config["operator"]), GetPath(inputs, python.text(config["field"])).value, Get(config, "value")) == Some(true))
            case PollPending(_) => false
            case Raised(_) => true
  {
  }

  // ----- attempt limits -----

  function Clamp(low: int, value: int, high: int): (r: int)
    requires low <= high
    ensures low <= r <= high && (low <= value <= high ==> r == value)
  {
    if value < low then low else if value > high then high else value
  }

  /** `int(config.get(key, default))` for the integers that the node schemas admit. */
  function ConfigInt(config: Object, key: string, default: int): int {
    if key in config && config[key].Num? then config[key].n.Floor else default
  }

  /** `_max_attempts`: the number of tries Temporal gives one activity; for HTTP Poll also the poll limit. */
  function MaxAttempts(data: NodeData): (m: nat)
    ensures m >= 1
  {
    if data.nodeType == "http_poll" then Clamp(1, ConfigInt(data.config, "maxPolls", 60), 1000)
    else Clamp(1, ConfigInt(data.config, "maxAttempts", 1), 5)
  }

  /** A whole number given under `key`. */
  predicate Gives(config: Object, key: string, n: int) {
    key in config && config[key].Num? && config[key].n.Floor == n
  }

  /** The limit is the configured number where that lies within bounds, the nearer bound where it does not, and else the default. */
  lemma MaxAttemptsMeans(data: NodeData, n: int)
    ensures data.nodeType == "http_poll" && Gives(data.config, "maxPolls", n) ==>
              MaxAttempts(data) == if n < 1 then 1 else if n > 1000 then 1000 else n
    ensures data.nodeType == "http_poll" && "maxPolls" !in data.config ==> MaxAttempts(data) == 60
    ensures data.nodeType != "http_poll" && Gives(data.config, "maxAttempts", n) ==>
              MaxAttempts(data) == if n < 1 then 1 else if n > 5 then 5 else n
    ensures data.nodeType != "http_poll" && "maxAttempts" !in data.config ==> MaxAttempts(data) == 1
  {
  }

  // ----- HTTP Poll -----

  /** The deciding part of `HttpPollNode.execute`, after the request: matched, limit reached or pending. */
  function PollDecide(python: Python, coerce: (Json, Json) -> Json, config: Object, attempt: nat, response: Result<Object, string>): Try {
    match response
    case Err(error) => Raised(error)
    case Ok(payload) =>
      if "responsePath" !in config then Raised("KeyError") else
      var responsePath := python.text(config["responsePath"]);
      match GetPath(Obj(payload), responsePath)
      case None => Raised("Field does not exist in the node input")
      case Some(actual) =>
        var expected := coerce(Get(config, "expectedValue"), actual);
        var operator := if "operator" in config then python.text(config["operator"]) else "equals";
        var limit := Clamp(1, ConfigInt(config, "maxPolls", 60), 1000);
        if operator !in OPERATORS then Raised("Unsupported poll operator")
        else
          match python.compare(operator, actual, expected)
          case None => Raised("Cannot compare")
          case Some(matched) =>
            var output := payload["_poll" := Obj(map[
              "matched" := Bool(matched), "pollCount" := Num(attempt as real), "maxPolls" := Num(limit as real),
              "responsePath" := Str(responsePath), "observedValue" := actual, "operator" := Str(operator), "expectedValue" := expected])];
            if matched then Returned(output)
            else if attempt >= limit then Raised("Polling limit reached")
            else PollPending(output)
  }

  /** A poll is put off only below the limit, and returns only on a match. */
  lemma PollPutsOffBelowLimit(python: Python, coerce: (Json, Json) -> Json, data: NodeData, attempt: nat, response: Result<Object, string>)
    requires data.nodeType == "http_poll"
    ensures var t := PollDecide(python, coerce, data.config, attempt, response);
            && (t.PollPending? ==> attempt < MaxAttempts(data))
            && (t.Returned? || t.PollPending? ==>
                  var record := if t.Returned? then t.output else t.lastOutput;
                  "_poll" in record && record["_poll"].Obj? && "matched" in record["_poll"].fields
                  && record["_poll"].fields["matched"] == Bool(t.Returned?))
  {
  }

  /** The value that a response shows at the response path. */
  function Observed(python: Python, config: Object, response: Result<Object, string>): Option<Json> {
    if response.Ok? && "responsePath" in config then GetPath(Obj(response.value), python.text(config["responsePath"])) else None
  }

  /** What comparing the observed value comes to; `None` is an unknown operator or values that do not compare. */
  function Comparison(python: Python, coerce: (Json, Json) -> Json, config: Object, actual: Json): Option<bool> {
    var operator := if "operator" in config then python.text(config["operator"]) else "equals";
    if operator in {"equals", "not_equals", "greater_than", "greater_than_or_equal", "less_than", "less_than_or_equal", "contains"}
    then python.compare(operator, actual, coerce(Get(config, "expectedValue"), actual)) else None
  }

  /**
   A poll returns exactly when the observed value compares as expected, is put off exactly when it does not and the attempt is
   below the limit, and raises otherwise. Returned or put off, it hands on the response, with a record of what was compared.
   */
  lemma PollDecides(python: Python, coerce: (Json, Json) -> Json, data: NodeData, attempt: nat, response: Result<Object, string>)
    requires data.nodeType == "http_poll"
    ensures var t, actual := PollDecide(python, coerce, data.config, attempt, response), Observed(python, data.config, response);
            var verdict := if actual.Some? then Comparison(python, coerce, data.config, actual.value) else None;
            && (t.Returned? <==> verdict == Some(true))
            && (t.PollPending? <==> verdict == Some(false) && attempt < MaxAttempts(data))
    ensures var t, actual := PollDecide(python, coerce, data.config, attempt, response), Observed(python, data.config, response);
            t.Raised? || (
              var output := if t.Returned? then t.output else t.lastOutput;
              && response.Ok? && actual.Some? && output - {"_poll"} == response.value - {"_poll"}
              && "_poll" in output && output["_poll"].Obj?
              && var record := output["_poll"].fields;
                 && {"matched", "pollCount", "maxPolls", "observedValue", "expectedValue"} <= record.Keys
                 && record["matched"] == Bool(t.Returned?) && record["pollCount"] == Num(attempt as real)
                 && record["maxPolls"] == Num(MaxAttempts(data) as real) && record["observedValue"] == actual.value
                 && record["expectedValue"] == coerce(Get(data.config, "expectedValue"), actual.value))
  {
  }
}
