/**
 The callback wait: HTTP posts that race each other and the deadline under a row lock, the signal each
 accepted post sends to the workflow, and the workflow that consumes it. One wait of one node is followed
 through every interleaving of those steps; each locked request is one atomic step.
 */
module CallbackProtocol {
  import opened Wrappers
  import opened Json
  import opened Redaction

  datatype WaitStatus = Waiting | Received | Expired | Cancelled

  datatype Wait = Wait(status: WaitStatus, expiresAt: int, key: Option<string>, payload: Option<Object>, receivedAt: Option<int>)

  datatype NodeStatus = Pending | WaitingCallback | Succeeded | Failed

  datatype RunStatus = Running | RunWaitingCallback | RunFailed

  /** The database rows a request locks and changes. */
  datatype Rows = Rows(wait: Option<Wait>, node: NodeStatus, input: Object, output: Option<Object>, run: RunStatus)

  /** What a request brings; `authorized` is the verdict of `verify_callback_auth`, `body` the decoded JSON if it decodes. */
  datatype Request = Request(size: nat, key: Option<string>, authorized: bool, jsonContent: bool, body: Option<Json>)

  datatype Response = Accepted(idempotent: bool) | Refused(code: int)

  const MAX_CALLBACK_BYTES := 1_000_000

  predicate Given(key: Option<string>) {
    key.Some? && key.value != ""
  }

  function PayloadOf(body: Json): Object {
    RedactObject(if body.Obj? then body.fields else map["data" := body])
  }

  /** `_expire`: the wait runs out, and with it the node and the run that were waiting for it. */
  function Expire(rows: Rows): Rows
    requires rows.wait.Some?
  {
    var expired := rows.(wait := Some(rows.wait.value.(status := Expired)));
    if rows.node == WaitingCallback then expired.(node := Failed, run := RunFailed) else expired
  }

  /** `receive_callback` up to its commit: the rows, and the payload to signal if the post was accepted as new. */
  function Post(rows: Rows, attached: bool, request: Request, now: int, receivedAt: int): (Rows, Response, Option<Object>) {
    if request.size > MAX_CALLBACK_BYTES then (rows, Refused(413), None)
    else if rows.wait == None then (rows, Refused(404), None)
    else
      var wait := rows.wait.value;
      if Given(request.key) && |request.key.value| > 200 then (rows, Refused(422), None)
      else if wait.status == Received then
        if Given(request.key) && request.key == wait.key then (rows, Accepted(true), None) else (rows, Refused(409), None)
      else if wait.status == Expired || wait.status == Cancelled then (rows, Refused(410), None)
      else if wait.expiresAt <= now then (Expire(rows), Refused(410), None)
      else if !request.authorized then (rows, Refused(401), None)
      else if !request.jsonContent then (rows, Refused(415), None)
      else if request.body == None then (rows, Refused(400), None)
      else
        var payload := PayloadOf(request.body.value);
        var received := wait.(status := Received, key := request.key, payload := Some(payload), receivedAt := Some(receivedAt));
        (rows.(wait := Some(received)), if attached then Accepted(false) else Refused(409), Some(payload))
  }

  /** The rows under their lock; the methods are the source's requests. */
  class CallbackTable {
    var wait: Option<Wait>
    var node: NodeStatus
    var input: Object
    var output: Option<Object>
    var run: RunStatus

    function Contents(): Rows
      reads this
    {
      Rows(wait, node, input, output, run)
    }

    constructor (nodeInput: Object)
      ensures Contents() == Rows(None, Pending, nodeInput, None, Running)
    {
      wait, node, input, output, run := None, Pending, nodeInput, None, Running;
    }

    /** `_expire`. */
    method ExpireWait()
      requires wait.Some?
      modifies this
      ensures Contents() == Expire(old(Contents()))
    {
      wait := Some(wait.value.(status := Expired));
      if node == WaitingCallback {
        node := Failed;
        run := RunFailed;
      }
    }

    /** `receive_callback`, from the locked select to the commit. */
    method ReceiveCallback(attached: bool, request: Request, now: int, receivedAt: int) returns (response: Response, signal: Option<Object>)
      modifies this
      ensures (Contents(), response, signal) == Post(old(Contents()), attached, request, now, receivedAt)
    {
      signal := None;
      if request.size > MAX_CALLBACK_BYTES {
        return Refused(413), None;
      }
      if wait.None? {
        return Refused(404), None;
      }
      if Given(request.key) && |request.key.value| > 200 {
        return Refused(422), None;
      }
      if wait.value.status == Received {
        response := if Given(request.key) && request.key == wait.value.key then Accepted(true) else Refused(409);
        return;
      }
      if wait.value.status == Expired || wait.value.status == Cancelled {
        return Refused(410), None;
      }
      if wait.value.expiresAt <= now {
        ExpireWait();
        return Refused(410), None;
      }
      if !request.authorized {
        return Refused(401), None;
      }
      if !request.jsonContent {
        return Refused(415), None;
      }
      if request.body.None? {
        return Refused(400), None;
      }
      var payload := PayloadOf(request.body.value);
      wait := Some(wait.value.(status := Received, key := request.key, payload := Some(payload), receivedAt := Some(receivedAt)));
      response := if attached then Accepted(false) else Refused(409);
      signal := Some(payload);
    }

    /** Posts one after the other, whatever else the protocol does meanwhile: the rows go where the protocol's posts take them. */
    method ReceiveAll(ghost s: System, attached: bool, posts: seq<Step>) returns (responses: seq<Response>)
      requires Contents() == s.rows && attached == s.attached && forall i :: 0 <= i < |posts| ==> posts[i].ReceivePost?
      modifies this
      ensures Contents() == TakeAll(s, posts).rows && TakeAll(s, posts).log == s.log + responses
      ensures Invariant(s) && s.rows.wait.Some? && s.rows.wait.value.status == Waiting ==>
                var waited := s.rows.wait.value;
                wait == Some(match Decision(posts, waited.expiresAt) case None => waited case Some(post) => Decided(waited, post))
    {
      responses := [];
      for i := 0 to |posts|
        invariant Contents() == TakeAll(s, posts[..i]).rows && TakeAll(s, posts[..i]).attached == s.attached
        invariant TakeAll(s, posts[..i]).log == s.log + responses
      {
        assert posts[..i + 1][..i] == posts[..i];
        ghost var before := TakeAll(s, posts[..i]);
        var response, signal := ReceiveCallback(attached, posts[i].request, posts[i].now, posts[i].receivedAt);
        assert TakeAll(s, posts[..i + 1]) == Take(before, posts[i]);
        assert s.log + (responses + [response]) == (s.log + responses) + [response];
        responses := responses + [response];
      }
      assert posts[..|posts|] == posts;
      if Invariant(s) && s.rows.wait.Some? && s.rows.wait.value.status == Waiting {
        FirstDecisivePostDecides(s, posts);
      }
    }
  }

  // ----- the protocol -----

  /** Where the workflow stands with the node. */
  datatype Phase = NotReached | Blocked | Done

  /**
   `outbox`: payloads committed but not yet signalled, `sent`: signals on their way to the workflow, `signal`: the
   entry of `_callback_signals`; `log` and `signals` record every response and every signal ever sent.
   */
  datatype System = System(rows: Rows, attached: bool, outbox: seq<Object>, sent: seq<Object>, signal: Option<Object>,
                           phase: Phase, log: seq<Response>, signals: seq<Object>)

  datatype Step =
    | CreateWait(expiresAt: int, record: Json)
    | ReceivePost(request: Request, now: int, receivedAt: int)
    | SendSignal
    | LoseSignal
    | DeliverSignal
    | CompleteWait(callbackId: string, completedAt: string)

  function Start(input: Object, attached: bool): System {
    System(Rows(None, Pending, input, None, Running), attached, [], [], None, NotReached, [], [])
  }

  function CallbackRecord(callbackId: string, completedAt: string): Json {
    Obj(map["id" := Str(callbackId), "status" := Str("RECEIVED"), "receivedAt" := Str(completedAt)])
  }

  /** `complete_callback_wait_activity`: the input, overlaid by the redacted signal data and the callback's record. */
  function CompletedOutput(input: Object, data: Object, record: Json): Object {
    input + RedactObject(data) + map["_callback" := record]
  }

  /** One step; a step that is not possible changes nothing. */
  function Take(s: System, step: Step): System {
    match step
    case CreateWait(expiresAt, record) =>
      if s.phase != NotReached then s
      else s.(rows := s.rows.(wait := Some(Wait(Waiting, expiresAt, None, None, None)), node := WaitingCallback,
                              output := Some(map["_callback" := record]), run := RunWaitingCallback),
              phase := Blocked)
    case ReceivePost(request, now, receivedAt) =>
      var (rows, response, payload) := Post(s.rows, s.attached, request, now, receivedAt);
      s.(rows := rows, log := s.log + [response], outbox := s.outbox + if payload.Some? && s.attached then [payload.value] else [])
    case SendSignal =>
      if s.outbox == [] then s
      else s.(outbox := s.outbox[1..], sent := s.sent + [s.outbox[0]], signals := s.signals + [s.outbox[0]])
    case LoseSignal =>
      if s.outbox == [] then s else s.(outbox := s.outbox[1..])
    case DeliverSignal =>
      if s.sent == [] then s else s.(sent := s.sent[1..], signal := Some(s.sent[0]))
    case CompleteWait(callbackId, completedAt) =>
      if s.phase != Blocked || s.signal == None then s
      else
        var output := CompletedOutput(s.rows.input, s.signal.value, CallbackRecord(callbackId, completedAt));
        s.(rows := s.rows.(node := Succeeded, output := Some(output), run := Running), signal := None, phase := Done)
  }

  function TakeAll(s: System, steps: seq<Step>): System {
    if steps == [] then s else Take(TakeAll(s, steps[..|steps| - 1]), steps[|steps| - 1])
  }

  function CountNew(log: seq<Response>): nat {
    if log == [] then 0 else CountNew(log[..|log| - 1]) + if log[|log| - 1] == Accepted(false) then 1 else 0
  }

  // ----- what every interleaving keeps -----

  ghost predicate SecretFree(payload: Object) {
    RedactObject(payload) == payload
  }

  lemma RedactObjectIdempotent(payload: Object)
    ensures SecretFree(RedactObject(payload))
  {
    RedactIdempotent(Obj(payload));
    assert Redact(Obj(payload)) == Obj(RedactObject(payload));
    assert Redact(Obj(RedactObject(payload))) == Obj(RedactObject(RedactObject(payload)));
  }

  /** Signals of an accepted payload that are somewhere between the commit and the workflow's consumption. */
  function Afloat(s: System): nat {
    |s.outbox| + |s.sent| + (if s.signal.Some? then 1 else 0) + if s.phase == Done then 1 else 0
  }

  ghost predicate Quiet(s: System) {
    s.outbox == [] && s.sent == [] && s.signal == None && s.signals == [] && CountNew(s.log) == 0
  }

  ghost predicate Carry(signals: seq<Object>, payload: Object) {
    forall i :: 0 <= i < |signals| ==> signals[i] == payload
  }

  ghost predicate Invariant(s: System) {
    match s.rows.wait
    case None => s.phase == NotReached && s.rows.node == Pending && Quiet(s)
    case Some(wait) =>
      match wait.status
      case Waiting => s.phase == Blocked && s.rows.node == WaitingCallback && Quiet(s)
      case Expired => s.phase == Blocked && s.rows.node == Failed && s.rows.run == RunFailed && Quiet(s)
      case Cancelled => false
      case Received =>
        && wait.payload.Some? && wait.receivedAt.Some? && SecretFree(wait.payload.value)
        && Carry(s.outbox, wait.payload.value) && Carry(s.sent, wait.payload.value) && Carry(s.signals, wait.payload.value)
        && (s.signal.Some? ==> s.signal.value == wait.payload.value)
        && CountNew(s.log) <= 1 && Afloat(s) <= 1 && |s.signals| + |s.outbox| <= 1
        && |s.sent| + (if s.signal.Some? then 1 else 0) + (if s.phase == Done then 1 else 0) == |s.signals|
        && match s.phase
           case NotReached => false
           case Blocked => s.rows.node == WaitingCallback
           case Done =>
             && s.rows.node == Succeeded && s.rows.output.Some?
             && exists record :: s.rows.output.value == s.rows.input + wait.payload.value + map["_callback" := record]
  }

  /** A post leaves the rows alone, expires a waiting callback or receives it. */
  lemma PostCases(rows: Rows, attached: bool, request: Request, now: int, receivedAt: int)
    ensures var (after, response, payload) := Post(rows, attached, request, now, receivedAt);
            || (after == rows && payload == None && response != Accepted(false))
            || (rows.wait.Some? && rows.wait.value.status == Waiting && after == Expire(rows) && payload == None && response != Accepted(false))
            || (rows.wait.Some? && rows.wait.value.status == Waiting && payload.Some? && SecretFree(payload.value)
                && after == rows.(wait := Some(rows.wait.value.(status := Received, key := request.key, payload := payload, receivedAt := Some(receivedAt)))))
  {
    if request.body.Some? {
      RedactObjectIdempotent(if request.body.value.Obj? then request.body.value.fields else map["data" := request.body.value]);
    }
  }

  lemma PostKeepsInvariant(s: System, request: Request, now: int, receivedAt: int)
    requires Invariant(s)
    ensures Invariant(Take(s, ReceivePost(request, now, receivedAt)))
  {
    var next := Take(s, ReceivePost(request, now, receivedAt));
    assert next.log[..|next.log| - 1] == s.log;
    PostCases(s.rows, s.attached, request, now, receivedAt);
    var (after, response, payload) := Post(s.rows, s.attached, request, now, receivedAt);
    if payload == None {
      assert next.outbox == s.outbox && CountNew(next.log) == CountNew(s.log);
    } else {
      assert Quiet(s) && s.outbox == [];
    }
  }

  lemma CompleteKeepsInvariant(s: System, callbackId: string, completedAt: string)
    requires Invariant(s)
    ensures Invariant(Take(s, CompleteWait(callbackId, completedAt)))
  {
    if s.phase == Blocked && s.signal.Some? {
      var payload := s.rows.wait.value.payload.value;
      var record := CallbackRecord(callbackId, completedAt);
      assert CompletedOutput(s.rows.input, s.signal.value, record) == s.rows.input + payload + map["_callback" := record];
    }
  }

  lemma StepKeepsInvariant(s: System, step: Step)
    requires Invariant(s)
    ensures Invariant(Take(s, step))
  {
    match step
    case CreateWait(_, _) =>
    case ReceivePost(request, now, receivedAt) => PostKeepsInvariant(s, request, now, receivedAt);
    case SendSignal =>
    case LoseSignal =>
    case DeliverSignal =>
    case CompleteWait(callbackId, completedAt) => CompleteKeepsInvariant(s, callbackId, completedAt);
  }

  lemma {:induction false} EveryInterleavingKeepsInvariant(input: Object, attached: bool, steps: seq<Step>)
    ensures Invariant(TakeAll(Start(input, attached), steps))
  {
    if steps == [] {
    } else {
      EveryInterleavingKeepsInvariant(input, attached, steps[..|steps| - 1]);
      StepKeepsInvariant(TakeAll(Start(input, attached), steps[..|steps| - 1]), steps[|steps| - 1]);
    }
  }

  /**
   Exactly-once consumption: over every interleaving at most one post is accepted as new and at most one signal is
   ever sent; the node succeeds only through a received wait, and its output is then its input overlaid by the stored
   payload, apart from the `_callback` record; the node of an expired wait has failed.
   */
  lemma AtMostOnce(input: Object, attached: bool, steps: seq<Step>)
    ensures var s := TakeAll(Start(input, attached), steps);
            && CountNew(s.log) <= 1 && |s.signals| <= 1
            && (s.rows.node == Succeeded ==>
                  && s.rows.wait.Some? && s.rows.wait.value.status == Received && s.rows.wait.value.payload.Some?
                  && |s.signals| == 1 && s.signals[0] == s.rows.wait.value.payload.value
                  && s.rows.output.Some?
                  && s.rows.output.value - {"_callback"} == (input + s.rows.wait.value.payload.value) - {"_callback"})
            && (s.rows.wait.Some? && s.rows.wait.value.status == Expired ==> s.rows.node == Failed && s.signals == [])
  {
    EveryInterleavingKeepsInvariant(input, attached, steps);
    InputStays(input, attached, steps);
    var s := TakeAll(Start(input, attached), steps);
    if s.rows.node == Succeeded { OutputIsPayload(s); }
  }

  lemma WithoutRecord(merged: Object, record: Json)
    ensures (merged + map["_callback" := record]) - {"_callback"} == merged - {"_callback"}
  {
  }

  lemma OutputIsPayload(s: System)
    requires Invariant(s) && s.rows.node == Succeeded
    ensures s.rows.wait.Some? && s.rows.wait.value.status == Received && s.rows.wait.value.payload.Some? && s.rows.output.Some?
    ensures |s.signals| == 1 && s.signals[0] == s.rows.wait.value.payload.value
    ensures s.rows.output.value - {"_callback"} == (s.rows.input + s.rows.wait.value.payload.value) - {"_callback"}
  {
    assert s.phase == Done;
    var merged := s.rows.input + s.rows.wait.value.payload.value;
    var record :| s.rows.output.value == merged + map["_callback" := record];
    WithoutRecord(merged, record);
  }

  lemma {:induction false} InputStays(input: Object, attached: bool, steps: seq<Step>)
    ensures TakeAll(Start(input, attached), steps).rows.input == input
  {
    if steps == [] {
    } else {
      InputStays(input, attached, steps[..|steps| - 1]);
    }
  }

  lemma SettledStep(s: System, step: Step)
    requires Invariant(s) && s.rows.wait.Some? && s.rows.wait.value.status != Waiting
    ensures Take(s, step).rows.wait == s.rows.wait
  {
    if step.ReceivePost? { PostCases(s.rows, s.attached, step.request, step.now, step.receivedAt); }
  }

  /** A wait that is no longer waiting never changes again: neither its status nor its key nor its payload. */
  lemma {:induction false} SettledWaitStays(s: System, steps: seq<Step>)
    requires Invariant(s) && s.rows.wait.Some? && s.rows.wait.value.status != Waiting
    ensures TakeAll(s, steps).rows.wait == s.rows.wait && Invariant(TakeAll(s, steps))
  {
    if steps == [] {
    } else {
      var before := TakeAll(s, steps[..|steps| - 1]);
      SettledWaitStays(s, steps[..|steps| - 1]);
      SettledStep(before, steps[|steps| - 1]);
      StepKeepsInvariant(before, steps[|steps| - 1]);
    }
  }

  // ----- which post decides -----

  predicate WellSent(request: Request) {
    request.size <= MAX_CALLBACK_BYTES && (Given(request.key) ==> |request.key.value| <= 200)
  }

  /** A post that finds the deadline past, whatever else it brings. */
  predicate Late(step: Step, expiresAt: int) {
    step.ReceivePost? && WellSent(step.request) && step.now >= expiresAt
  }

  /** A post in time that passes every check. */
  predicate Good(step: Step, expiresAt: int) {
    && step.ReceivePost? && WellSent(step.request) && step.now < expiresAt
    && step.request.authorized && step.request.jsonContent && step.request.body.Some?
  }

  /** The first of the steps that is a good or a late post. */
  function Decision(steps: seq<Step>, expiresAt: int): (first: Option<Step>)
    ensures first.Some? ==> Good(first.value, expiresAt) || Late(first.value, expiresAt)
  {
    if steps == [] then None
    else
      var before, last := Decision(steps[..|steps| - 1], expiresAt), steps[|steps| - 1];
      if before.Some? then before else if Good(last, expiresAt) || Late(last, expiresAt) then Some(last) else None
  }

  /** The wait that a decisive post leaves behind. */
  function Decided(wait: Wait, post: Step): Wait
    requires Good(post, wait.expiresAt) || Late(post, wait.expiresAt)
  {
    if Late(post, wait.expiresAt) then wait.(status := Expired)
    else wait.(status := Received, key := post.request.key, payload := Some(PayloadOf(post.request.body.value)), receivedAt := Some(post.receivedAt))
  }

  lemma StepDecides(s: System, step: Step)
    requires Invariant(s) && s.rows.wait.Some? && s.rows.wait.value.status == Waiting
    ensures var wait := s.rows.wait.value;
            Take(s, step).rows.wait == Some(if Good(step, wait.expiresAt) || Late(step, wait.expiresAt) then Decided(wait, step) else wait)
  {
  }

  /**
   Over every interleaving from the creation of the wait on, its fate is that of the first post that is good or late:
   such a good post is received with its key and its redacted payload, such a late one lets the wait expire, and every
   other post, before and after, leaves the wait alone.
   */
  lemma {:induction false} FirstDecisivePostDecides(s: System, steps: seq<Step>)
    requires Invariant(s) && s.rows.wait.Some? && s.rows.wait.value.status == Waiting
    ensures var wait := s.rows.wait.value;
            TakeAll(s, steps).rows.wait == Some(match Decision(steps, wait.expiresAt) case None => wait case Some(post) => Decided(wait, post))
    ensures Invariant(TakeAll(s, steps))
  {
    if steps == [] {
    } else {
      var init, last := steps[..|steps| - 1], steps[|steps| - 1];
      FirstDecisivePostDecides(s, init);
      var before := TakeAll(s, init);
      StepKeepsInvariant(before, last);
      if Decision(init, s.rows.wait.value.expiresAt).Some? { SettledStep(before, last); } else { StepDecides(before, last); }
    }
  }

  /**
   Once received, and after any further steps, a well-sent post is answered as a repetition exactly if it carries the key
   of the post that was taken, and that key is not empty; any other is refused; none changes anything.
   */
  lemma RepliesOnceReceived(s: System, steps: seq<Step>, request: Request, now: int, receivedAt: int)
    requires Invariant(s) && s.rows.wait.Some? && s.rows.wait.value.status == Received && WellSent(request)
    ensures var later := TakeAll(s, steps);
            Post(later.rows, later.attached, request, now, receivedAt) ==
            (later.rows, if Given(request.key) && request.key == s.rows.wait.value.key then Accepted(true) else Refused(409), None)
  {
    SettledWaitStays(s, steps);
  }

  // ----- what each post is answered -----

  predicate KeyTooLong(request: Request) {
    request.key.Some? && |request.key.value| > 200
  }

  /** The answer to a post to a wait that is open until `expiresAt`: the first check that it fails decides. */
  function AnswerWhileWaiting(attached: bool, expiresAt: int, request: Request, now: int): Response {
    if now >= expiresAt then Refused(410)
    else if !request.authorized then Refused(401)
    else if !request.jsonContent then Refused(415)
    else if request.body == None then Refused(400)
    else if attached then Accepted(false)
    else Refused(409)
  }

  /** The answer to a post once `first` has decided the wait: a repetition, a conflict, or gone. */
  function AnswerOnceDecided(expiresAt: int, first: Step, request: Request): Response
    requires first.ReceivePost?
  {
    if first.now >= expiresAt then Refused(410)
    else if request.key == first.request.key && request.key.Some? && request.key.value != "" then Accepted(true)
    else Refused(409)
  }

  /** The answer to a post, from what came before it. */
  function Answer(attached: bool, expiresAt: int, before: seq<Step>, request: Request, now: int): Response {
    if request.size > 1_000_000 then Refused(413)
    else if KeyTooLong(request) then Refused(422)
    else
      match Decision(before, expiresAt)
      case None => AnswerWhileWaiting(attached, expiresAt, request, now)
      case Some(first) => AnswerOnceDecided(expiresAt, first, request)
  }

  lemma {:induction false} AttachedStays(s: System, steps: seq<Step>)
    ensures TakeAll(s, steps).attached == s.attached
  {
    if steps == [] {
    } else {
      AttachedStays(s, steps[..|steps| - 1]);
    }
  }

  /**
   Over every interleaving, from the creation of the wait on, every post is answered as the posts before it say: the deciding
   good post as new (or with 409 where the run is not attached), the deciding late post with 410, a post that fails a check with
   that check's code, and whatever follows the decision as a repetition, a conflict or gone.
   */
  lemma EveryPostIsAnswered(s: System, before: seq<Step>, post: Step)
    requires Invariant(s) && s.rows.wait.Some? && s.rows.wait.value.status == Waiting && post.ReceivePost?
    ensures TakeAll(s, before + [post]).log ==
            TakeAll(s, before).log + [Answer(s.attached, s.rows.wait.value.expiresAt, before, post.request, post.now)]
  {
    assert (before + [post])[..|before|] == before;
    FirstDecisivePostDecides(s, before);
    AttachedStays(s, before);
    AnswerNow(TakeAll(s, before), s.rows.wait.value, before, post);
  }

  lemma AnswerNow(s: System, wait: Wait, before: seq<Step>, post: Step)
    requires post.ReceivePost? && wait.status == Waiting
    requires s.rows.wait == Some(match Decision(before, wait.expiresAt) case None => wait case Some(first) => Decided(wait, first))
    ensures Take(s, post).log == s.log + [Answer(s.attached, wait.expiresAt, before, post.request, post.now)]
  {
    match Decision(before, wait.expiresAt)
    case None =>
    case Some(first) => assert s.rows.wait.value.status == if first.now >= wait.expiresAt then Expired else Received;
  }

  /** Before there is a wait, a post finds nothing. */
  lemma PostBeforeWait(s: System, post: Step)
    requires s.rows.wait == None && post.ReceivePost?
    ensures Take(s, post).log == s.log + [Refused(if post.request.size > 1_000_000 then 413 else 404)] && Take(s, post).rows == s.rows
  {
  }

  /** What a taken post stores: its body with secrets redacted, under `data` unless it is an object. */
  lemma StoredPayload(wait: Wait, post: Step)
    requires Good(post, wait.expiresAt)
    ensures var body, payload := post.request.body.value, Decided(wait, post).payload;
            payload.Some? && Obj(payload.value) == Redact(if body.Obj? then body else Obj(map["data" := body]))
  {
  }

  lemma CountNewSnoc(log: seq<Response>, response: Response)
    ensures CountNew(log + [response]) == CountNew(log) + if response == Accepted(false) then 1 else 0
  {
    assert (log + [response])[..|log|] == log;
  }

  predicate HasReceived(s: System) {
    s.rows.wait.Some? && s.rows.wait.value.status == Received
  }

  lemma PostCountsNew(s: System, post: Step)
    requires Invariant(s) && post.ReceivePost? && CountNew(s.log) == if s.attached && HasReceived(s) then 1 else 0
    ensures var next := Take(s, post); CountNew(next.log) == if s.attached && HasReceived(next) then 1 else 0
  {
    var (rows, response, payload) := Post(s.rows, s.attached, post.request, post.now, post.receivedAt);
    CountNewSnoc(s.log, response);
  }

  /** Exactly one post has been accepted as new if the run is attached and the wait was received, and none otherwise. */
  lemma {:induction false} NewIffReceived(input: Object, attached: bool, steps: seq<Step>)
    ensures var s := TakeAll(Start(input, attached), steps); CountNew(s.log) == if attached && HasReceived(s) then 1 else 0
  {
    if steps == [] {
    } else {
      var init, last := steps[..|steps| - 1], steps[|steps| - 1];
      NewIffReceived(input, attached, init);
      EveryInterleavingKeepsInvariant(input, attached, init);
      AttachedStays(Start(input, attached), init);
      if last.ReceivePost? { PostCountsNew(TakeAll(Start(input, attached), init), last); }
    }
  }

  // ----- nothing is lost but by a crash -----

  ghost predicate NoLoss(steps: seq<Step>) {
    forall i :: 0 <= i < |steps| ==> !steps[i].LoseSignal?
  }

  lemma StepKeepsAfloat(s: System, step: Step)
    requires Invariant(s) && s.attached && !step.LoseSignal? && (HasReceived(s) ==> Afloat(s) == 1)
    ensures HasReceived(Take(s, step)) ==> Afloat(Take(s, step)) == 1
  {
  }

  /** Without a crash between commit and signal, the payload of a received wait is always on its way, or consumed. */
  lemma {:induction false} PayloadStaysAfloat(input: Object, steps: seq<Step>)
    requires NoLoss(steps)
    ensures var s := TakeAll(Start(input, true), steps); HasReceived(s) ==> Afloat(s) == 1
  {
    if steps == [] {
    } else {
      var init, last := steps[..|steps| - 1], steps[|steps| - 1];
      PayloadStaysAfloat(input, init);
      EveryInterleavingKeepsInvariant(input, true, init);
      AttachedStays(Start(input, true), init);
      assert !last.LoseSignal?;
      StepKeepsAfloat(TakeAll(Start(input, true), init), last);
    }
  }

  /** And sending, delivering and consuming it completes the node. */
  lemma ReceivedCompletes(s: System, callbackId: string, completedAt: string)
    requires Invariant(s) && HasReceived(s) && Afloat(s) == 1
    ensures var done := Take(Take(Take(s, SendSignal), DeliverSignal), CompleteWait(callbackId, completedAt));
            done.phase == Done && done.rows.node == Succeeded && done.rows.run == (if s.phase == Done then s.rows.run else Running)
  {
  }

  /** The record that a completed callback leaves in the output. */
  lemma CompletedRecord(input: Object, data: Object, callbackId: string, completedAt: string)
    ensures var output := CompletedOutput(input, data, CallbackRecord(callbackId, completedAt));
            && "_callback" in output
            && output["_callback"] == Obj(map["id" := Str(callbackId), "status" := Str("RECEIVED"), "receivedAt" := Str(completedAt)])
  {
  }

  /** Without a Temporal workflow nothing is ever signalled. */
  lemma {:induction false} UnattachedNeverSignals(input: Object, steps: seq<Step>)
    ensures var s := TakeAll(Start(input, false), steps);
            !s.attached && s.outbox == [] && s.sent == [] && s.signals == [] && s.signal == None && s.phase != Done
  {
    if steps == [] {
    } else {
      UnattachedNeverSignals(input, steps[..|steps| - 1]);
    }
  }

  /** A wait begins with the node and the run waiting, and its record as a provisional output. */
  lemma WaitBegins(s: System, expiresAt: int, record: Json)
    requires s.phase == NotReached
    ensures var rows := Take(s, CreateWait(expiresAt, record)).rows;
            && rows.wait == Some(Wait(Waiting, expiresAt, None, None, None)) && rows.input == s.rows.input
            && rows.node == WaitingCallback && rows.run == RunWaitingCallback && rows.output == Some(map["_callback" := record])
  {
  }

  /** A crash between commit and signal drops the payload from what is on its way. */
  lemma CrashLoses(s: System)
    requires Invariant(s) && s.outbox != []
    ensures HasReceived(s) && HasReceived(Take(s, LoseSignal)) && Afloat(Take(s, LoseSignal)) == 0
  {
  }

  /** And then for good: over every interleaving the wait stays received, every further post is refused or repeated, and the node never completes. */
  lemma {:induction false} LossIsFinal(s: System, steps: seq<Step>)
    requires Invariant(s) && HasReceived(s) && Afloat(s) == 0
    ensures var later := TakeAll(s, steps);
            Invariant(later) && HasReceived(later) && Afloat(later) == 0 && later.rows.node == WaitingCallback && later.phase != Done
  {
    if steps == [] {
    } else {
      var before, last := TakeAll(s, steps[..|steps| - 1]), steps[|steps| - 1];
      LossIsFinal(s, steps[..|steps| - 1]);
      StepKeepsInvariant(before, last);
      SettledStep(before, last);
    }
  }
}
