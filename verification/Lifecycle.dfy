/**
 The life of one flow through its endpoints: editing and publishing, rolling back, pausing, starting runs by
 hand, by schedule and again, and patching a run's configuration. `Step` says what each operation does to the
 flow; the endpoints of `FlowRows`, which work on database rows, refine it. The lemmas follow whole histories.
 */
module Lifecycle {
  import opened Wrappers
  import opened Json
  import opened Digraphs
  import opened Flows
  import opened ValidatorRules
  import opened FlowConfig
  import opened Engine
  import opened EngineTheorems

  /** The registry, and JSON Schema validation as foreign predicates. */
  datatype Checks = Checks(registry: Registry, validInputSchema: Json -> bool, conforms: (Json, Object) -> bool)

  datatype FlowStatus = Draft | Active | Paused | Archived

  /** What an editor saves and what a version freezes. */
  datatype FlowDefinition = FlowDefinition(content: FlowContent, inputSchema: Json, configSchema: Json, defaultConfig: Object)

  datatype Version = Version(number: nat, definition: FlowDefinition)

  datatype Trigger = Manual | Scheduled | Rerun

  datatype RunRecord = RunRecord(version: nat, input: Object, config: Object, trigger: Trigger)

  datatype Schedule = Schedule(version: nat, input: Object, enabled: bool)

  datatype Store = Store(draft: FlowDefinition, currentVersion: nat, rowVersion: nat, status: FlowStatus,
                         versions: map<nat, Version>, runs: seq<RunRecord>, schedules: seq<Schedule>)

  /** The operations, with the verdicts of checks on things outside this model (credentials, cron text) as arguments. */
  datatype Operation =
    | UpdateDraft(draft: FlowDefinition, expectedRowVersion: nat)
    | Publish(credentialsAvailable: bool)
    | Rollback(number: nat)
    | UpdateStatus(status: FlowStatus)
    | CreateRun(versionNumber: Option<nat>, input: Object)
    | RerunRun(run: nat)
    | CreateSchedule(version: nat, input: Object, cronValid: bool, enabled: bool)
    | UpdateSchedule(schedule: nat, newVersion: Option<nat>, newInput: Option<Object>, cronValid: bool, newEnabled: Option<bool>)
    | TriggerSchedule(schedule: nat)
    | PatchConfig(run: nat, resolved: Json)

  /** `Some` is the HTTP status of a refusal, or 500 for an exception inside an activity. */
  type Refusal = Option<int>

  // ----- the effect of each operation -----

  function SaveDraft(checks: Checks, store: Store, draft: FlowDefinition, expectedRowVersion: nat): (Store, Refusal) {
    if store.rowVersion != expectedRowVersion then (store, Some(409))
    else if !checks.validInputSchema(draft.inputSchema) then (store, Some(422))
    else if !checks.conforms(draft.configSchema, draft.defaultConfig) then (store, Some(422))
    else (store.(draft := draft, rowVersion := store.rowVersion + 1), None)
  }

  ghost predicate Publishable(checks: Checks, definition: FlowDefinition) {
    && Accepted(checks.registry, definition.content)
    && checks.validInputSchema(definition.inputSchema)
    && checks.conforms(definition.configSchema, definition.defaultConfig)
  }

  function AddVersion(store: Store, definition: FlowDefinition): Store {
    var number := store.currentVersion + 1;
    store.(versions := store.versions[number := Version(number, definition)], currentVersion := number, status := Active)
  }

  ghost function PublishDraft(checks: Checks, store: Store, credentialsAvailable: bool): (Store, Refusal) {
    if !credentialsAvailable || !Publishable(checks, store.draft) then (store, Some(422))
    else (AddVersion(store, store.draft), None)
  }

  function RollbackTo(store: Store, number: nat): (Store, Refusal) {
    if number !in store.versions then (store, Some(404))
    else
      var restored := AddVersion(store, store.versions[number].definition);
      (restored.(draft := store.versions[number].definition, rowVersion := store.rowVersion + 1), None)
  }

  function SetStatus(store: Store, status: FlowStatus): (Store, Refusal) {
    if status == Draft then (store, Some(422))
    else if status == Active && store.currentVersion < 1 then (store, Some(409))
    else (store.(status := status, rowVersion := store.rowVersion + 1), None)
  }

  function AddRun(store: Store, run: RunRecord): Store {
    store.(runs := store.runs + [run])
  }

  function StartRun(checks: Checks, store: Store, versionNumber: Option<nat>, input: Object): (Store, Refusal) {
    if store.currentVersion < 1 || store.status != Active then (store, Some(409))
    else
      var number := if versionNumber.Some? then versionNumber.value else store.currentVersion;
      if number !in store.versions then (store, Some(404))
      else
        var definition := store.versions[number].definition;
        if !checks.conforms(definition.inputSchema, input) then (store, Some(422))
        else if !checks.conforms(definition.configSchema, definition.defaultConfig) then (store, Some(422))
        else (AddRun(store, RunRecord(number, input, definition.defaultConfig, Manual)), None)
  }

  function RunAgain(store: Store, run: nat): (Store, Refusal) {
    if run >= |store.runs| then (store, Some(404))
    else if store.status != Active then (store, Some(409))
    else (AddRun(store, store.runs[run].(trigger := Rerun)), None)
  }

  function AddSchedule(checks: Checks, store: Store, version: nat, input: Object, cronValid: bool, enabled: bool): (Store, Refusal) {
    if version !in store.versions then (store, Some(404))
    else if !checks.conforms(store.versions[version].definition.inputSchema, input) || !cronValid then (store, Some(422))
    else (store.(schedules := store.schedules + [Schedule(version, input, enabled)]), None)
  }

  function ChangeSchedule(checks: Checks, store: Store, schedule: nat, newVersion: Option<nat>, newInput: Option<Object>,
                          cronValid: bool, newEnabled: Option<bool>): (Store, Refusal)
  {
    if schedule >= |store.schedules| then (store, Some(404))
    else
      var saved := store.schedules[schedule];
      var version := if newVersion.Some? then newVersion.value else saved.version;
      var input := if newInput.Some? then newInput.value else saved.input;
      if version !in store.versions then (store, Some(404))
      else if !checks.conforms(store.versions[version].definition.inputSchema, input) || !cronValid then (store, Some(422))
      else
        var enabled := if newEnabled.Some? then newEnabled.value else saved.enabled;
        (store.(schedules := store.schedules[schedule := Schedule(version, input, enabled)]), None)
  }

  /** `create_scheduled_run_activity`: it looks at the schedule, not at the status of the flow. */
  function FireSchedule(store: Store, schedule: nat): (Store, Refusal) {
    if schedule >= |store.schedules| || !store.schedules[schedule].enabled then (store, Some(500))
    else
      var s := store.schedules[schedule];
      if s.version !in store.versions then (store, Some(500))
      else (AddRun(store, RunRecord(s.version, s.input, store.versions[s.version].definition.defaultConfig, Scheduled)), None)
  }

  /** Values that Python takes for false. */
  predicate Falsy(value: Json) {
    match value
    case Null => true
    case Bool(b) => !b
    case Num(n) => n == 0.0
    case Str(s) => s == ""
    case Arr(items) => items == []
    case Obj(fields) => fields == map[]
  }

  /** `_apply_flow_config_patch`, with its templates resolved. */
  function Patch(checks: Checks, store: Store, run: nat, resolved: Json): (Store, Refusal) {
    if run >= |store.runs| || store.runs[run].version !in store.versions then (store, Some(500))
    else if Falsy(resolved) then (store, None)
    else if !resolved.Obj? then (store, Some(500))
    else
      var next := Merge(store.runs[run].config, resolved.fields);
      if !checks.conforms(store.versions[store.runs[run].version].definition.configSchema, next) then (store, Some(500))
      else (store.(runs := store.runs[run := store.runs[run].(config := next)]), None)
  }

  ghost function Step(checks: Checks, store: Store, op: Operation): (Store, Refusal) {
    match op
    case UpdateDraft(draft, expected) => SaveDraft(checks, store, draft, expected)
    case Publish(credentialsAvailable) => PublishDraft(checks, store, credentialsAvailable)
    case Rollback(number) => RollbackTo(store, number)
    case UpdateStatus(status) => SetStatus(store, status)
    case CreateRun(number, input) => StartRun(checks, store, number, input)
    case RerunRun(run) => RunAgain(store, run)
    case CreateSchedule(version, input, cronValid, enabled) => AddSchedule(checks, store, version, input, cronValid, enabled)
    case UpdateSchedule(schedule, version, input, cronValid, enabled) => ChangeSchedule(checks, store, schedule, version, input, cronValid, enabled)
    case TriggerSchedule(schedule) => FireSchedule(store, schedule)
    case PatchConfig(run, resolved) => Patch(checks, store, run, resolved)
  }

  /** `create_flow`, for a definition that passes its checks. */
  function Created(draft: FlowDefinition): Store {
    Store(draft, 0, 1, Draft, map[], [], [])
  }

  ghost function After(checks: Checks, store: Store, ops: seq<Operation>): Store {
    if ops == [] then store else Step(checks, After(checks, store, ops[..|ops| - 1]), ops[|ops| - 1]).0
  }

  // ----- what every history keeps -----

  ghost predicate GoodVersions(checks: Checks, store: Store) {
    && (forall n :: n in store.versions <==> 1 <= n <= store.currentVersion)
    && forall n :: n in store.versions ==> store.versions[n].number == n && Publishable(checks, store.versions[n].definition)
  }

  ghost predicate GoodRun(checks: Checks, store: Store, run: RunRecord) {
    && run.version in store.versions
    && checks.conforms(store.versions[run.version].definition.inputSchema, run.input)
    && checks.conforms(store.versions[run.version].definition.configSchema, run.config)
  }

  ghost predicate GoodSchedule(checks: Checks, store: Store, schedule: Schedule) {
    && schedule.version in store.versions
    && checks.conforms(store.versions[schedule.version].definition.inputSchema, schedule.input)
  }

  ghost predicate Consistent(checks: Checks, store: Store) {
    && GoodVersions(checks, store)
    && (store.status == Active ==> store.currentVersion >= 1)
    && (forall i :: 0 <= i < |store.runs| ==> GoodRun(checks, store, store.runs[i]))
    && (forall i :: 0 <= i < |store.schedules| ==> GoodSchedule(checks, store, store.schedules[i]))
  }

  lemma AddVersionKeeps(checks: Checks, store: Store, definition: FlowDefinition)
    requires Consistent(checks, store) && Publishable(checks, definition)
    ensures Consistent(checks, AddVersion(store, definition))
  {
    var next := AddVersion(store, definition);
    forall n ensures n in next.versions <==> 1 <= n <= next.currentVersion {}
    forall i | 0 <= i < |next.runs| ensures GoodRun(checks, next, next.runs[i]) { assert GoodRun(checks, store, store.runs[i]); }
    forall i | 0 <= i < |next.schedules| ensures GoodSchedule(checks, next, next.schedules[i]) {
      assert GoodSchedule(checks, store, store.schedules[i]);
    }
  }

  lemma SameVersionsKeep(checks: Checks, store: Store, next: Store)
    requires Consistent(checks, store) && next.versions == store.versions && next.currentVersion == store.currentVersion
    requires next.status == Active ==> next.currentVersion >= 1
    requires forall i :: 0 <= i < |next.runs| ==> (i < |store.runs| && next.runs[i] == store.runs[i]) || GoodRun(checks, store, next.runs[i])
    requires forall i :: 0 <= i < |next.schedules| ==>
               (i < |store.schedules| && next.schedules[i] == store.schedules[i]) || GoodSchedule(checks, store, next.schedules[i])
    ensures Consistent(checks, next)
  {
    forall i | 0 <= i < |next.runs| ensures GoodRun(checks, next, next.runs[i]) { assert GoodRun(checks, store, next.runs[i]); }
    forall i | 0 <= i < |next.schedules| ensures GoodSchedule(checks, next, next.schedules[i]) {
      assert GoodSchedule(checks, store, next.schedules[i]);
    }
  }

  lemma RunStepKeeps(checks: Checks, store: Store, op: Operation)
    requires Consistent(checks, store) && (op.CreateRun? || op.RerunRun? || op.TriggerSchedule? || op.PatchConfig?)
    ensures Consistent(checks, Step(checks, store, op).0)
  {
    if op.RerunRun? && op.run < |store.runs| { assert GoodRun(checks, store, store.runs[op.run]); }
    if op.PatchConfig? && op.run < |store.runs| { assert GoodRun(checks, store, store.runs[op.run]); }
    if op.TriggerSchedule? && op.schedule < |store.schedules| { assert GoodSchedule(checks, store, store.schedules[op.schedule]); }
    SameVersionsKeep(checks, store, Step(checks, store, op).0);
  }

  lemma StepKeepsConsistent(checks: Checks, store: Store, op: Operation)
    requires Consistent(checks, store)
    ensures Consistent(checks, Step(checks, store, op).0)
  {
    match op
    case Publish(_) => if Publishable(checks, store.draft) { AddVersionKeeps(checks, store, store.draft); }
    case Rollback(number) => if number in store.versions { AddVersionKeeps(checks, store, store.versions[number].definition); }
    case UpdateDraft(_, _) => SameVersionsKeep(checks, store, Step(checks, store, op).0);
    case UpdateStatus(_) => SameVersionsKeep(checks, store, Step(checks, store, op).0);
    case CreateSchedule(_, _, _, _) => SameVersionsKeep(checks, store, Step(checks, store, op).0);
    case UpdateSchedule(_, _, _, _, _) => SameVersionsKeep(checks, store, Step(checks, store, op).0);
    case _ => RunStepKeeps(checks, store, op);
  }

  /**
   In every reachable state the versions are exactly 1 to the current one, all of them accepted by the validator
   with a default configuration that fits its schema; an active flow has a version; every run and every schedule has
   an input that fits the schema of its version, and every run a configuration that does.
   */
  lemma {:induction false} EveryHistoryIsConsistent(checks: Checks, start: Store, ops: seq<Operation>)
    requires Consistent(checks, start)
    ensures Consistent(checks, After(checks, start, ops))
  {
    if ops == [] {
    } else {
      EveryHistoryIsConsistent(checks, start, ops[..|ops| - 1]);
      StepKeepsConsistent(checks, After(checks, start, ops[..|ops| - 1]), ops[|ops| - 1]);
    }
  }

  /** A stored version is never changed or removed, and a run keeps its version, its input and its trigger. */
  lemma {:induction false} HistoryKeepsRecords(checks: Checks, start: Store, ops: seq<Operation>)
    requires Consistent(checks, start)
    ensures var after := After(checks, start, ops);
            && (forall n :: n in start.versions ==> n in after.versions && after.versions[n] == start.versions[n])
            && |start.runs| <= |after.runs| && start.currentVersion <= after.currentVersion
            && forall i :: 0 <= i < |start.runs| ==> after.runs[i].(config := start.runs[i].config) == start.runs[i]
  {
    if ops == [] {
    } else {
      HistoryKeepsRecords(checks, start, ops[..|ops| - 1]);
      EveryHistoryIsConsistent(checks, start, ops[..|ops| - 1]);
      StepKeepsRecords(checks, After(checks, start, ops[..|ops| - 1]), ops[|ops| - 1]);
    }
  }

  lemma StepKeepsRecords(checks: Checks, store: Store, op: Operation)
    requires Consistent(checks, store)
    ensures var after := Step(checks, store, op).0;
            && (forall n :: n in store.versions ==> n in after.versions && after.versions[n] == store.versions[n])
            && |store.runs| <= |after.runs| && store.currentVersion <= after.currentVersion
            && forall i :: 0 <= i < |store.runs| ==> after.runs[i].(config := store.runs[i].config) == store.runs[i]
  {
  }

  // ----- configurations -----

  /** One run followed on its own: the merge of its non-empty object patches, as far as the result fits the schema. */
  function ConfigFold(checks: Checks, schema: Json, config: Object, ops: seq<Operation>, run: nat): Object {
    if ops == [] then config
    else
      var before, last := ConfigFold(checks, schema, config, ops[..|ops| - 1], run), ops[|ops| - 1];
      if last.PatchConfig? && last.run == run && last.resolved.Obj? && last.resolved.fields != map[]
         && checks.conforms(schema, Merge(before, last.resolved.fields))
      then Merge(before, last.resolved.fields) else before
  }

  function ConfigSchema(store: Store, run: nat): Json
    requires run < |store.runs| && store.runs[run].version in store.versions
  {
    store.versions[store.runs[run].version].definition.configSchema
  }

  lemma StepFoldsConfig(checks: Checks, store: Store, op: Operation, run: nat)
    requires Consistent(checks, store) && run < |store.runs| && store.runs[run].version in store.versions
    ensures var after := Step(checks, store, op).0;
            run < |after.runs| && after.runs[run].config == ConfigFold(checks, ConfigSchema(store, run), store.runs[run].config, [op], run)
  {
    assert [op][..0] == [];
  }

  /** After any operations a run's configuration is the fold of its own conforming patches; nothing else has touched it. */
  lemma {:induction false} ConfigIsFoldOfPatches(checks: Checks, start: Store, ops: seq<Operation>, run: nat)
    requires Consistent(checks, start) && run < |start.runs| && start.runs[run].version in start.versions
    ensures var after := After(checks, start, ops);
            run < |after.runs| && after.runs[run].config == ConfigFold(checks, ConfigSchema(start, run), start.runs[run].config, ops, run)
  {
    if ops == [] {
    } else {
      var init, last := ops[..|ops| - 1], ops[|ops| - 1];
      ConfigIsFoldOfPatches(checks, start, init, run);
      EveryHistoryIsConsistent(checks, start, init);
      HistoryKeepsRecords(checks, start, init);
      var before := After(checks, start, init);
      assert before.runs[run].version == start.runs[run].version;
      assert ConfigSchema(before, run) == ConfigSchema(start, run);
      StepFoldsConfig(checks, before, last, run);
      assert [last][..0] == [];
    }
  }

  /** However much later, running a run again repeats its version and input, with the configuration its own patches left. */
  lemma RerunRepeats(checks: Checks, start: Store, ops: seq<Operation>, run: nat)
    requires Consistent(checks, start) && run < |start.runs| && start.runs[run].version in start.versions
    requires After(checks, start, ops).status == Active
    ensures var after, original := After(checks, start, ops), start.runs[run];
            var config := ConfigFold(checks, ConfigSchema(start, run), original.config, ops, run);
            Step(checks, after, RerunRun(run)) == (AddRun(after, RunRecord(original.version, original.input, config, Rerun)), None)
  {
    ConfigIsFoldOfPatches(checks, start, ops, run);
    HistoryKeepsRecords(checks, start, ops);
    var after := After(checks, start, ops);
    assert after.runs[run].(config := start.runs[run].config) == start.runs[run];
  }

  /**
   However much later, rolling back to a version succeeds, publishes its definition under the next number and makes it
   the draft, which can then be published as it is.
   */
  lemma RollbackRestores(checks: Checks, start: Store, ops: seq<Operation>, number: nat)
    requires Consistent(checks, start) && number in start.versions
    ensures var later, definition := After(checks, start, ops), start.versions[number].definition;
            var (restored, refusal) := Step(checks, later, Rollback(number));
            && refusal == None && restored.draft == definition && restored.status == Active
            && restored.versions == later.versions[later.currentVersion + 1 := Version(later.currentVersion + 1, definition)]
            && Step(checks, restored, Publish(true)) == (AddVersion(restored, definition), None)
  {
    HistoryKeepsRecords(checks, start, ops);
    EveryHistoryIsConsistent(checks, start, ops);
  }

  // ----- pinned versions -----

  /** However much later, a run of a version by hand has that version's definition to go by, as it was first stored. */
  lemma PinnedRun(checks: Checks, start: Store, ops: seq<Operation>, number: nat, input: Object)
    requires Consistent(checks, start) && number in start.versions && After(checks, start, ops).status == Active
    ensures var after, definition := After(checks, start, ops), start.versions[number].definition;
            Step(checks, after, CreateRun(Some(number), input)) ==
            if checks.conforms(definition.inputSchema, input)
            then (AddRun(after, RunRecord(number, input, definition.defaultConfig, Manual)), None) else (after, Some(422))
  {
    HistoryKeepsRecords(checks, start, ops);
    EveryHistoryIsConsistent(checks, start, ops);
  }

  ghost predicate LeavesSchedule(ops: seq<Operation>, schedule: nat) {
    forall i :: 0 <= i < |ops| ==> !(ops[i].UpdateSchedule? && ops[i].schedule == schedule)
  }

  lemma {:induction false} ScheduleStays(checks: Checks, start: Store, ops: seq<Operation>, schedule: nat)
    requires schedule < |start.schedules| && LeavesSchedule(ops, schedule)
    ensures var after := After(checks, start, ops);
            schedule < |after.schedules| && after.schedules[schedule] == start.schedules[schedule]
  {
    if ops == [] {
    } else {
      ScheduleStays(checks, start, ops[..|ops| - 1], schedule);
      assert !(ops[|ops| - 1].UpdateSchedule? && ops[|ops| - 1].schedule == schedule);
    }
  }

  /**
   An enabled schedule is pinned: until it is updated it starts runs of its version with its input and that version's
   default configuration, whatever is saved, published, rolled back, paused or patched meanwhile.
   */
  lemma PinnedSchedule(checks: Checks, start: Store, ops: seq<Operation>, schedule: nat)
    requires Consistent(checks, start) && schedule < |start.schedules| && LeavesSchedule(ops, schedule)
    requires start.schedules[schedule].enabled && start.schedules[schedule].version in start.versions
    ensures var after, s := After(checks, start, ops), start.schedules[schedule];
            Step(checks, after, TriggerSchedule(schedule)) ==
            (AddRun(after, RunRecord(s.version, s.input, start.versions[s.version].definition.defaultConfig, Scheduled)), None)
  {
    ScheduleStays(checks, start, ops, schedule);
    HistoryKeepsRecords(checks, start, ops);
  }

  // ----- the latest version -----

  /** The version an accepted publication or rollback adds. */
  function AddedDefinition(store: Store, op: Operation): FlowDefinition
    requires op.Publish? || (op.Rollback? && op.number in store.versions)
  {
    if op.Publish? then store.draft else store.versions[op.number].definition
  }

  ghost predicate AddsNoVersion(ops: seq<Operation>) {
    forall i :: 0 <= i < |ops| ==> !ops[i].Publish? && !ops[i].Rollback?
  }

  lemma {:induction false} CurrentVersionStays(checks: Checks, start: Store, ops: seq<Operation>)
    requires AddsNoVersion(ops)
    ensures After(checks, start, ops).currentVersion == start.currentVersion
  {
    if ops == [] {
    } else {
      CurrentVersionStays(checks, start, ops[..|ops| - 1]);
      assert !ops[|ops| - 1].Publish? && !ops[|ops| - 1].Rollback?;
    }
  }

  /**
   A run by hand that names no version is a run of the one last published or restored: however much later, as long as no other
   is added, it has that version's number and default configuration and is checked against its input schema.
   */
  lemma LatestRun(checks: Checks, store: Store, adding: Operation, ops: seq<Operation>, input: Object)
    requires Consistent(checks, store) && Step(checks, store, adding).1 == None
    requires adding.Publish? || (adding.Rollback? && adding.number in store.versions)
    requires AddsNoVersion(ops) && After(checks, Step(checks, store, adding).0, ops).status == Active
    ensures var after, definition := After(checks, Step(checks, store, adding).0, ops), AddedDefinition(store, adding);
            Step(checks, after, CreateRun(None, input)) ==
            if checks.conforms(definition.inputSchema, input)
            then (AddRun(after, RunRecord(store.currentVersion + 1, input, definition.defaultConfig, Manual)), None) else (after, Some(422))
  {
    var added := Step(checks, store, adding).0;
    StepKeepsConsistent(checks, store, adding);
    HistoryKeepsRecords(checks, added, ops);
    EveryHistoryIsConsistent(checks, added, ops);
    CurrentVersionStays(checks, added, ops);
    assert added.versions[store.currentVersion + 1].definition == AddedDefinition(store, adding);
  }

  ghost predicate SavesNothing(ops: seq<Operation>) {
    forall i :: 0 <= i < |ops| ==> !ops[i].UpdateDraft? && !ops[i].Rollback?
  }

  lemma {:induction false} DraftStays(checks: Checks, start: Store, ops: seq<Operation>)
    requires SavesNothing(ops)
    ensures After(checks, start, ops).draft == start.draft
  {
    if ops == [] {
    } else {
      DraftStays(checks, start, ops[..|ops| - 1]);
      assert !ops[|ops| - 1].UpdateDraft? && !ops[|ops| - 1].Rollback?;
    }
  }

  /**
   What is saved is what is published: however much later, as long as nothing else is saved or restored, a publication adds the
   saved draft under the next number and activates the flow, exactly if its credentials are there and it is publishable.
   */
  lemma SavedDraftIsPublished(checks: Checks, store: Store, draft: FlowDefinition, expected: nat, ops: seq<Operation>, credentialsAvailable: bool)
    requires Step(checks, store, UpdateDraft(draft, expected)).1 == None && SavesNothing(ops)
    ensures var later := After(checks, Step(checks, store, UpdateDraft(draft, expected)).0, ops);
            var (published, refusal) := Step(checks, later, Publish(credentialsAvailable));
            if credentialsAvailable && Publishable(checks, draft)
            then refusal == None && published.status == Active && published.currentVersion == later.currentVersion + 1
                 && published.versions == later.versions[later.currentVersion + 1 := Version(later.currentVersion + 1, draft)]
                 && published.draft == draft && published.runs == later.runs && published.schedules == later.schedules
            else refusal == Some(422) && published == later
  {
    DraftStays(checks, Step(checks, store, UpdateDraft(draft, expected)).0, ops);
  }

  // ----- answers and counters -----

  /** When each operation is refused, and with which status; a refusal changes nothing. */
  lemma Refusals(checks: Checks, store: Store, op: Operation)
    ensures var (after, refusal) := Step(checks, store, op);
            && (refusal.Some? ==> after == store)
            && match op
               case UpdateDraft(draft, expected) =>
                 && (refusal == Some(409) <==> store.rowVersion != expected)
                 && (refusal == None <==> store.rowVersion == expected && checks.validInputSchema(draft.inputSchema)
                                          && checks.conforms(draft.configSchema, draft.defaultConfig))
               case Publish(available) => refusal == None <==> available && Publishable(checks, store.draft)
               case Rollback(number) => refusal == if number in store.versions then None else Some(404)
               case UpdateStatus(status) => refusal == None <==> status != Draft && (status == Active ==> store.currentVersion >= 1)
               case CreateRun(number, input) =>
                 && (refusal == Some(409) <==> store.currentVersion < 1 || store.status != Active)
                 && (refusal == None <==>
                       && store.currentVersion >= 1 && store.status == Active
                       && var n := (match number case Some(v) => v case None => store.currentVersion);
                          && n in store.versions && checks.conforms(store.versions[n].definition.inputSchema, input)
                          && checks.conforms(store.versions[n].definition.configSchema, store.versions[n].definition.defaultConfig))
               case RerunRun(run) => refusal == if run >= |store.runs| then Some(404) else if store.status != Active then Some(409) else None
               case CreateSchedule(version, input, cronValid, _) =>
                 refusal == None <==> version in store.versions && cronValid && checks.conforms(store.versions[version].definition.inputSchema, input)
               case UpdateSchedule(schedule, version, input, cronValid, _) =>
                 refusal == None <==>
                   && schedule < |store.schedules| && cronValid
                   && var number := if version.Some? then version.value else store.schedules[schedule].version;
                      number in store.versions
                      && checks.conforms(store.versions[number].definition.inputSchema, if input.Some? then input.value else store.schedules[schedule].input)
               case TriggerSchedule(schedule) =>
                 refusal == None <==> schedule < |store.schedules| && store.schedules[schedule].enabled && store.schedules[schedule].version in store.versions
               case PatchConfig(run, resolved) =>
                 refusal == None <==>
                   && run < |store.runs| && store.runs[run].version in store.versions
                   && (resolved in {Null, Bool(false), Num(0.0), Str(""), Arr([]), Obj(map[])}
                       || (resolved.Obj? && checks.conforms(ConfigSchema(store, run), Merge(store.runs[run].config, resolved.fields))))
  {
  }

  /** The statuses of the refusals: 404 for what is not there, 409 for a conflict, 422 for what does not pass, 500 inside an activity. */
  lemma RefusalStatuses(checks: Checks, store: Store, op: Operation)
    ensures var refusal := Step(checks, store, op).1;
            refusal == None ||
            match op
            case UpdateDraft(_, expected) => refusal == Some(if store.rowVersion != expected then 409 else 422)
            case Publish(_) => refusal == Some(422)
            case Rollback(_) => refusal == Some(404)
            case UpdateStatus(status) => refusal == Some(if status == Draft then 422 else 409)
            case CreateRun(number, _) =>
              refusal == Some(if store.currentVersion < 1 || store.status != Active then 409
                              else if (match number case Some(v) => v case None => store.currentVersion) !in store.versions then 404 else 422)
            case RerunRun(run) => refusal == Some(if run >= |store.runs| then 404 else 409)
            case CreateSchedule(version, _, _, _) => refusal == Some(if version !in store.versions then 404 else 422)
            case UpdateSchedule(schedule, version, _, _, _) =>
              refusal == Some(if schedule >= |store.schedules| || (match version case Some(v) => v case None => store.schedules[schedule].version) !in store.versions
                              then 404 else 422)
            case TriggerSchedule(_) => refusal == Some(500)
            case PatchConfig(_, _) => refusal == Some(500)
  {
  }

  /** What an accepted operation on a schedule stores: what was given, and what was there where nothing was given. */
  lemma ScheduleStores(checks: Checks, store: Store, op: Operation)
    requires Step(checks, store, op).1 == None
    ensures var after := Step(checks, store, op).0.schedules;
            && (op.CreateSchedule? ==> after == store.schedules + [Schedule(op.version, op.input, op.enabled)])
            && (op.UpdateSchedule? ==>
                  && |after| == |store.schedules| && op.schedule < |after|
                  && (forall i :: 0 <= i < |after| && i != op.schedule ==> after[i] == store.schedules[i])
                  && var before, now := store.schedules[op.schedule], after[op.schedule];
                     && now.version == (match op.newVersion case Some(v) => v case None => before.version)
                     && now.input == (match op.newInput case Some(v) => v case None => before.input)
                     && now.enabled == (match op.newEnabled case Some(v) => v case None => before.enabled))
            && (!op.CreateSchedule? && !op.UpdateSchedule? ==> after == store.schedules)
  {
  }

  /** What an accepted change of status leaves. */
  lemma StatusStores(checks: Checks, store: Store, status: FlowStatus)
    requires Step(checks, store, UpdateStatus(status)).1 == None
    ensures Step(checks, store, UpdateStatus(status)).0 == store.(status := status, rowVersion := store.rowVersion + 1)
  {
  }

  /** How many of the operations are accepted and edit the flow's row, and how many are accepted and add a version. */
  ghost function Edits(checks: Checks, start: Store, ops: seq<Operation>): nat {
    if ops == [] then 0
    else
      var before, last := ops[..|ops| - 1], ops[|ops| - 1];
      Edits(checks, start, before)
      + if (last.UpdateDraft? || last.Rollback? || last.UpdateStatus?) && Step(checks, After(checks, start, before), last).1 == None then 1 else 0
  }

  ghost function Additions(checks: Checks, start: Store, ops: seq<Operation>): nat {
    if ops == [] then 0
    else
      var before, last := ops[..|ops| - 1], ops[|ops| - 1];
      Additions(checks, start, before)
      + if (last.Publish? || last.Rollback?) && Step(checks, After(checks, start, before), last).1 == None then 1 else 0
  }

  lemma StepCounts(checks: Checks, store: Store, op: Operation)
    ensures var (after, refusal) := Step(checks, store, op);
            && after.rowVersion == store.rowVersion + (if (op.UpdateDraft? || op.Rollback? || op.UpdateStatus?) && refusal == None then 1 else 0)
            && after.currentVersion == store.currentVersion + (if (op.Publish? || op.Rollback?) && refusal == None then 1 else 0)
  {
  }

  /** The row version counts the accepted saves, rollbacks and changes of status, the current version the accepted publications and rollbacks. */
  lemma {:induction false} CountersCount(checks: Checks, start: Store, ops: seq<Operation>)
    ensures After(checks, start, ops).rowVersion == start.rowVersion + Edits(checks, start, ops)
    ensures After(checks, start, ops).currentVersion == start.currentVersion + Additions(checks, start, ops)
  {
    if ops == [] {
    } else {
      CountersCount(checks, start, ops[..|ops| - 1]);
      StepCounts(checks, After(checks, start, ops[..|ops| - 1]), ops[|ops| - 1]);
    }
  }

  // ----- saves one after the other -----

  lemma {:induction false} RowVersionNeverFalls(checks: Checks, start: Store, ops: seq<Operation>)
    ensures After(checks, start, ops).rowVersion >= start.rowVersion
  {
    if ops == [] {
    } else {
      RowVersionNeverFalls(checks, start, ops[..|ops| - 1]);
    }
  }

  /**
   As long as requests do not overlap, a save is refused once another with the same expectation has succeeded.
   `DraftSaves` has what happens when they do.
   */
  lemma StaleSaveIsRefused(checks: Checks, store: Store, expected: nat, first: FlowDefinition, ops: seq<Operation>, second: FlowDefinition)
    requires Step(checks, store, UpdateDraft(first, expected)).1 == None
    ensures var later := After(checks, Step(checks, store, UpdateDraft(first, expected)).0, ops);
            Step(checks, later, UpdateDraft(second, expected)) == (later, Some(409))
  {
    RowVersionNeverFalls(checks, Step(checks, store, UpdateDraft(first, expected)).0, ops);
  }

  // ----- runs of flows that are not active -----

  ghost predicate StartsRun(checks: Checks, store: Store, op: Operation) {
    |Step(checks, store, op).0.runs| > |store.runs|
  }

  /** While a flow is not active, the only operation that starts a run is an enabled schedule that fires. */
  lemma InactiveFlowStartsRunIff(checks: Checks, store: Store, op: Operation)
    requires store.status != Active
    ensures StartsRun(checks, store, op) <==>
            && op.TriggerSchedule? && op.schedule < |store.schedules|
            && store.schedules[op.schedule].enabled && store.schedules[op.schedule].version in store.versions
  {
  }

  /**
   The documented promise that paused and archived flows reject manual, scheduled and rerun triggers: a reachable flow
   that is not active keeps it exactly as long as none of its schedules is enabled.
   */
  lemma InactiveFlowRejectsTriggersIff(checks: Checks, store: Store)
    requires Consistent(checks, store) && store.status != Active
    ensures (forall op :: !StartsRun(checks, store, op)) <==> forall i :: 0 <= i < |store.schedules| ==> !store.schedules[i].enabled
  {
    forall op ensures StartsRun(checks, store, op) ==> op.TriggerSchedule? && op.schedule < |store.schedules| && store.schedules[op.schedule].enabled {
      InactiveFlowStartsRunIff(checks, store, op);
    }
    forall i: nat | i < |store.schedules| && store.schedules[i].enabled ensures StartsRun(checks, store, TriggerSchedule(i)) {
      InactiveFlowStartsRunIff(checks, store, TriggerSchedule(i));
      assert GoodSchedule(checks, store, store.schedules[i]);
    }
  }

  lemma PausingSteps(checks: Checks, draft: FlowDefinition, input: Object) returns (published: Store, scheduled: Store, paused: Store)
    requires Publishable(checks, draft) && checks.conforms(draft.inputSchema, input)
    ensures Step(checks, Created(draft), Publish(true)).0 == published
    ensures Step(checks, published, CreateSchedule(1, input, true, true)).0 == scheduled
    ensures Step(checks, scheduled, UpdateStatus(Paused)).0 == paused
    ensures paused.status == Paused && paused.runs == [] && paused.schedules == [Schedule(1, input, true)]
    ensures 1 in paused.versions && paused.versions[1].definition == draft
  {
    published := AddVersion(Created(draft), draft);
    assert published.schedules + [Schedule(1, input, true)] == [Schedule(1, input, true)];
    scheduled := published.(schedules := [Schedule(1, input, true)]);
    paused := scheduled.(status := Paused, rowVersion := scheduled.rowVersion + 1);
  }

  lemma AfterThree(checks: Checks, start: Store, a: Operation, b: Operation, c: Operation)
    ensures After(checks, start, [a, b, c]) == Step(checks, Step(checks, Step(checks, start, a).0, b).0, c).0
  {
    AfterOneMore(checks, start, [], a);
    AfterOneMore(checks, start, [a], b);
    AfterOneMore(checks, start, [a, b], c);
    assert [] + [a] == [a] && [a] + [b] == [a, b] && [a, b] + [c] == [a, b, c];
  }

  /** A schedule set up while the flow was active fires after the flow was paused. */
  lemma PausedFlowRuns(checks: Checks, draft: FlowDefinition, input: Object)
    requires Publishable(checks, draft) && checks.conforms(draft.inputSchema, input)
    ensures var ops := [Publish(true), CreateSchedule(1, input, true, true), UpdateStatus(Paused), TriggerSchedule(0)];
            var after := After(checks, Created(draft), ops);
            after.status == Paused && after.runs == [RunRecord(1, input, draft.defaultConfig, Scheduled)]
  {
    var before := [Publish(true), CreateSchedule(1, input, true, true), UpdateStatus(Paused)];
    var published, scheduled, paused := PausingSteps(checks, draft, input);
    AfterThree(checks, Created(draft), Publish(true), CreateSchedule(1, input, true, true), UpdateStatus(Paused));
    AfterOneMore(checks, Created(draft), before, TriggerSchedule(0));
    assert before + [TriggerSchedule(0)] == [Publish(true), CreateSchedule(1, input, true, true), UpdateStatus(Paused), TriggerSchedule(0)];
  }

  lemma AfterOneMore(checks: Checks, start: Store, ops: seq<Operation>, op: Operation)
    ensures After(checks, start, ops + [op]) == Step(checks, After(checks, start, ops), op).0
  {
    assert (ops + [op])[..|ops|] == ops;
  }

  // ----- from the editor to the worker -----

  /** Run `i` can be executed, and does not end in "made no progress". */
  ghost predicate NeverStalls(store: Store, i: nat, handler: Handler, order: seq<NodeId>)
    requires i < |store.runs|
  {
    && store.runs[i].version in store.versions
    && var job := Job(store.versions[store.runs[i].version].definition.content, Obj(store.runs[i].input), handler);
       job.Runnable() && (Enumerates(order, job.Nodes().Keys) ==> !Execute(job, order).NoProgress?)
  }

  /**
   In no history does any run, started by hand, by schedule or again, end in "made no progress", whatever its
   handlers do and in whatever order its nodes are visited.
   */
  lemma NoRunEverStalls(checks: Checks, start: Store, ops: seq<Operation>, i: nat, handler: Handler, order: seq<NodeId>)
    requires Consistent(checks, start) && i < |After(checks, start, ops).runs|
    ensures NeverStalls(After(checks, start, ops), i, handler, order)
  {
    EveryHistoryIsConsistent(checks, start, ops);
    var after := After(checks, start, ops);
    assert GoodRun(checks, after, after.runs[i]);
    var content := after.versions[after.runs[i].version].definition.content;
    var job := Job(content, Obj(after.runs[i].input), handler);
    AcceptedIsRunnable(checks.registry, job);
    if Enumerates(order, job.Nodes().Keys) {
      AcceptedNeverStalls(checks.registry, job, order);
    }
  }

  /** All of this holds of a flow from its creation on, whatever its first draft. */
  lemma EveryFlowIsConsistent(checks: Checks, draft: FlowDefinition, ops: seq<Operation>)
    ensures var after := After(checks, Created(draft), ops);
            && Consistent(checks, after)
            && forall i: nat, handler, order :: i < |after.runs| ==> NeverStalls(after, i, handler, order)
  {
    EveryHistoryIsConsistent(checks, Created(draft), ops);
    var after := After(checks, Created(draft), ops);
    forall i: nat, handler, order | i < |after.runs| ensures NeverStalls(after, i, handler, order) {
      NoRunEverStalls(checks, Created(draft), ops, i, handler, order);
    }
  }
}
