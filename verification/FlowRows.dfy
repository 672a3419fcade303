/**
 The endpoints of one flow over its database rows (backend/app/group_api.py and activities.py): the flow's columns, its
 version rows, which are found by their number, and its runs and schedules, which point to a version row. The endpoints
 keep the version numbers at exactly 1 to the current one, once each, and refine the operations of `Lifecycle`.
 */
module FlowRows {
  import opened Wrappers
  import opened Json
  import opened Flows
  import opened ValidatorRules
  import opened Validator
  import opened FlowConfig
  import opened Lifecycle

  datatype VersionRow = VersionRow(number: nat, content: FlowContent, inputSchema: Json, configSchema: Json, defaultConfig: Object) {
    function Frozen(): Version {
      Version(number, FlowDefinition(content, inputSchema, configSchema, defaultConfig))
    }
  }

  /** `versionKey` is a foreign key: the position of a version row in its table, which only grows. */
  datatype RunRow = RunRow(versionKey: nat, input: Object, config: Object, trigger: Trigger)

  datatype ScheduleRow = ScheduleRow(versionKey: nat, input: Object, enabled: bool)

  // ----- what the rows stand for -----

  /** No two version rows have one number. */
  ghost predicate OnceEach(versions: seq<VersionRow>) {
    forall i, j :: 0 <= i < j < |versions| ==> versions[i].number != versions[j].number
  }

  ghost predicate HasNumber(versions: seq<VersionRow>, number: nat) {
    exists i :: 0 <= i < |versions| && versions[i].number == number
  }

  ghost predicate ExactlyTo(versions: seq<VersionRow>, current: nat) {
    forall n: nat :: HasNumber(versions, n) <==> 1 <= n <= current
  }

  ghost function VersionsOf(versions: seq<VersionRow>): map<nat, Version>
    requires OnceEach(versions)
  {
    map i | 0 <= i < |versions| :: versions[i].number := versions[i].Frozen()
  }

  function RunOf(versions: seq<VersionRow>, run: RunRow): RunRecord
    requires run.versionKey < |versions|
  {
    RunRecord(versions[run.versionKey].number, run.input, run.config, run.trigger)
  }

  function ScheduleOf(versions: seq<VersionRow>, schedule: ScheduleRow): Schedule
    requires schedule.versionKey < |versions|
  {
    Schedule(versions[schedule.versionKey].number, schedule.input, schedule.enabled)
  }

  ghost predicate RunsPoint(versions: seq<VersionRow>, runs: seq<RunRow>) {
    forall i :: 0 <= i < |runs| ==> runs[i].versionKey < |versions|
  }

  ghost predicate SchedulesPoint(versions: seq<VersionRow>, schedules: seq<ScheduleRow>) {
    forall i :: 0 <= i < |schedules| ==> schedules[i].versionKey < |versions|
  }

  ghost function RunsOf(versions: seq<VersionRow>, runs: seq<RunRow>): seq<RunRecord>
    requires RunsPoint(versions, runs)
  {
    seq(|runs|, i requires 0 <= i < |runs| => RunOf(versions, runs[i]))
  }

  ghost function SchedulesOf(versions: seq<VersionRow>, schedules: seq<ScheduleRow>): seq<Schedule>
    requires SchedulesPoint(versions, schedules)
  {
    seq(|schedules|, i requires 0 <= i < |schedules| => ScheduleOf(versions, schedules[i]))
  }

  lemma LookUp(versions: seq<VersionRow>, key: nat)
    requires OnceEach(versions) && key < |versions|
    ensures versions[key].number in VersionsOf(versions) && VersionsOf(versions)[versions[key].number] == versions[key].Frozen()
  {
  }

  /** A version row under a new number: the others keep their meaning, and so does everything that points to them. */
  lemma AppendVersionRow(versions: seq<VersionRow>, current: nat, row: VersionRow, runs: seq<RunRow>, schedules: seq<ScheduleRow>)
    requires OnceEach(versions) && ExactlyTo(versions, current) && row.number == current + 1
    requires RunsPoint(versions, runs) && SchedulesPoint(versions, schedules)
    ensures OnceEach(versions + [row]) && ExactlyTo(versions + [row], current + 1)
    ensures VersionsOf(versions + [row]) == VersionsOf(versions)[row.number := row.Frozen()]
    ensures RunsOf(versions + [row], runs) == RunsOf(versions, runs)
    ensures SchedulesOf(versions + [row], schedules) == SchedulesOf(versions, schedules)
  {
    var more := versions + [row];
    assert !HasNumber(versions, current + 1);
    forall i | 0 <= i < |versions| ensures versions[i].number != row.number {
      assert HasNumber(versions, versions[i].number);
    }
    assert OnceEach(more);
    forall n: nat ensures HasNumber(more, n) <==> HasNumber(versions, n) || n == row.number {
      if HasNumber(versions, n) {
        var i :| 0 <= i < |versions| && versions[i].number == n;
        assert more[i].number == n;
      }
      assert more[|versions|].number == row.number;
    }
    AppendMeans(versions, row);
  }

  lemma AppendMeans(versions: seq<VersionRow>, row: VersionRow)
    requires OnceEach(versions + [row]) && OnceEach(versions)
    ensures VersionsOf(versions + [row]) == VersionsOf(versions)[row.number := row.Frozen()]
  {
    var more := versions + [row];
    var before, after := VersionsOf(versions), VersionsOf(more);
    LookUp(more, |versions|);
    forall n | n in before ensures n in after {
      var i :| 0 <= i < |versions| && versions[i].number == n;
      assert more[i] == versions[i];
      LookUp(more, i);
    }
    forall n | n in after ensures n in before[row.number := row.Frozen()] && after[n] == before[row.number := row.Frozen()][n] {
      var i :| 0 <= i < |more| && more[i].number == n;
      LookUp(more, i);
      if i < |versions| {
        LookUp(versions, i);
        assert more[i].number != more[|versions|].number;
      }
    }
  }

  // ----- the rows and the endpoints -----

  class FlowTable {
    const checks: Checks
    var draftContent: FlowContent
    var inputSchema: Json
    var configSchema: Json
    var defaultConfig: Object
    var currentVersion: nat
    var rowVersion: nat
    var status: FlowStatus
    var versions: seq<VersionRow>
    var runs: seq<RunRow>
    var schedules: seq<ScheduleRow>

    /** The version numbers are exactly 1 to the current one, once each, and no foreign key dangles. */
    ghost predicate Valid()
      reads this
    {
      && OnceEach(versions) && ExactlyTo(versions, currentVersion)
      && RunsPoint(versions, runs) && SchedulesPoint(versions, schedules)
    }

    ghost function Contents(): Store
      requires Valid()
      reads this
    {
      Store(FlowDefinition(draftContent, inputSchema, configSchema, defaultConfig), currentVersion, rowVersion, status,
            VersionsOf(versions), RunsOf(versions, runs), SchedulesOf(versions, schedules))
    }

    /** `create_flow`, for a draft that passes its checks. */
    constructor (theChecks: Checks, draft: FlowDefinition)
      ensures checks == theChecks && Valid() && Contents() == Created(draft)
      ensures currentVersion == 0 && rowVersion == 1 && status == Draft && versions == [] && runs == [] && schedules == []
    {
      checks := theChecks;
      draftContent, inputSchema, configSchema, defaultConfig :=
        draft.content, draft.inputSchema, draft.configSchema, draft.defaultConfig;
      currentVersion, rowVersion, status := 0, 1, Draft;
      versions, runs, schedules := [], [], [];
    }

    /** The select for a version by its number. */
    method FindVersion(number: nat) returns (key: Option<nat>)
      requires Valid()
      ensures key.None? <==> number !in Contents().versions
      ensures key.Some? ==> key.value < |versions| && Contents().versions[number] == versions[key.value].Frozen()
    {
      for i := 0 to |versions|
        invariant forall j :: 0 <= j < i ==> versions[j].number != number
      {
        if versions[i].number == number {
          LookUp(versions, i);
          return Some(i);
        }
      }
      key := None;
    }

    method UpdateDraft(draft: FlowDefinition, expectedRowVersion: nat) returns (refusal: Refusal)
      requires Valid()
      modifies this
      ensures Valid() && (Contents(), refusal) == Step(checks, old(Contents()), Operation.UpdateDraft(draft, expectedRowVersion))
    {
      if rowVersion != expectedRowVersion {
        return Some(409);
      }
      if !checks.validInputSchema(draft.inputSchema) || !checks.conforms(draft.configSchema, draft.defaultConfig) {
        return Some(422);
      }
      draftContent := draft.content;
      inputSchema := draft.inputSchema;
      configSchema := draft.configSchema;
      defaultConfig := draft.defaultConfig;
      rowVersion := rowVersion + 1;
      refusal := None;
    }

    /** `publish_flow` runs the validator on the draft. */
    method Publish(credentialsAvailable: bool) returns (refusal: Refusal, issues: seq<Issue>)
      requires Valid()
      modifies this
      ensures Valid() && (Contents(), refusal) == Step(checks, old(Contents()), Operation.Publish(credentialsAvailable))
      ensures forall issue :: issue in issues <==> Raises(checks.registry, old(draftContent), issue)
    {
      issues := ValidateFlow(checks.registry, draftContent);
      if !credentialsAvailable || issues != [] || !checks.validInputSchema(inputSchema) || !checks.conforms(configSchema, defaultConfig) {
        return Some(422), issues;
      }
      var version := VersionRow(currentVersion + 1, draftContent, inputSchema, configSchema, defaultConfig);
      AppendVersionRow(versions, currentVersion, version, runs, schedules);
      versions := versions + [version];
      currentVersion := version.number;
      status := Active;
      refusal := None;
    }

    method Rollback(number: nat) returns (refusal: Refusal)
      requires Valid()
      modifies this
      ensures Valid() && (Contents(), refusal) == Step(checks, old(Contents()), Operation.Rollback(number))
    {
      var key := FindVersion(number);
      if key.None? {
        return Some(404);
      }
      var source := versions[key.value];
      var restored := source.(number := currentVersion + 1);
      AppendVersionRow(versions, currentVersion, restored, runs, schedules);
      versions := versions + [restored];
      draftContent := source.content;
      inputSchema := source.inputSchema;
      configSchema := source.configSchema;
      defaultConfig := source.defaultConfig;
      currentVersion := restored.number;
      rowVersion := rowVersion + 1;
      status := Active;
      refusal := None;
    }

    method UpdateStatus(newStatus: FlowStatus) returns (refusal: Refusal)
      requires Valid()
      modifies this
      ensures Valid() && (Contents(), refusal) == Step(checks, old(Contents()), Operation.UpdateStatus(newStatus))
    {
      if newStatus == Draft {
        return Some(422);
      }
      if newStatus == Active && currentVersion < 1 {
        return Some(409);
      }
      status := newStatus;
      rowVersion := rowVersion + 1;
      refusal := None;
    }

    /** `_create_run_projection` without the node rows, which are in `Workflow`. */
    method AddRunRow(run: RunRow)
      requires Valid() && run.versionKey < |versions|
      modifies this`runs
      ensures Valid() && Contents() == AddRun(old(Contents()), RunOf(versions, run))
    {
      runs := runs + [run];
      assert RunsOf(versions, runs) == RunsOf(versions, old(runs)) + [RunOf(versions, run)];
    }

    method CreateRun(versionNumber: Option<nat>, input: Object) returns (refusal: Refusal)
      requires Valid()
      modifies this
      ensures Valid() && (Contents(), refusal) == Step(checks, old(Contents()), Operation.CreateRun(versionNumber, input))
    {
      if currentVersion < 1 || status != Active {
        return Some(409);
      }
      var number := if versionNumber.Some? then versionNumber.value else currentVersion;
      var key := FindVersion(number);
      if key.None? {
        return Some(404);
      }
      var version := versions[key.value];
      if !checks.conforms(version.inputSchema, input) || !checks.conforms(version.configSchema, version.defaultConfig) {
        return Some(422);
      }
      LookUp(versions, key.value);
      AddRunRow(RunRow(key.value, input, version.defaultConfig, Manual));
      refusal := None;
    }

    method Rerun(run: nat) returns (refusal: Refusal)
      requires Valid()
      modifies this
      ensures Valid() && (Contents(), refusal) == Step(checks, old(Contents()), RerunRun(run))
    {
      if run >= |runs| {
        return Some(404);
      }
      if status != Active {
        return Some(409);
      }
      var original := runs[run];
      AddRunRow(RunRow(original.versionKey, original.input, original.config, Trigger.Rerun));
      refusal := None;
    }

    method CreateSchedule(version: nat, input: Object, cronValid: bool, enabled: bool) returns (refusal: Refusal)
      requires Valid()
      modifies this
      ensures Valid() && (Contents(), refusal) == Step(checks, old(Contents()), Operation.CreateSchedule(version, input, cronValid, enabled))
    {
      var key := FindVersion(version);
      if key.None? {
        return Some(404);
      }
      if !checks.conforms(versions[key.value].inputSchema, input) || !cronValid {
        return Some(422);
      }
      LookUp(versions, key.value);
      var row := ScheduleRow(key.value, input, enabled);
      schedules := schedules + [row];
      assert SchedulesOf(versions, schedules) == SchedulesOf(versions, old(schedules)) + [ScheduleOf(versions, row)];
      refusal := None;
    }

    /** The version a schedule is moved to, or the one it has. */
    method ChooseVersion(saved: nat, newVersion: Option<nat>) returns (key: Option<nat>)
      requires Valid() && saved < |versions|
      ensures var number := if newVersion.Some? then newVersion.value else versions[saved].number;
              && (key.None? <==> number !in Contents().versions)
              && (key.Some? ==> key.value < |versions| && versions[key.value].number == number
                                && Contents().versions[number] == versions[key.value].Frozen())
    {
      if newVersion.None? {
        LookUp(versions, saved);
        return Some(saved);
      }
      key := FindVersion(newVersion.value);
      if key.Some? {
        LookUp(versions, key.value);
      }
    }

    method SaveSchedule(schedule: nat, row: ScheduleRow)
      requires Valid() && schedule < |schedules| && row.versionKey < |versions|
      modifies this`schedules
      ensures Valid()
      ensures Contents() == old(Contents()).(schedules := old(Contents()).schedules[schedule := ScheduleOf(versions, row)])
    {
      schedules := schedules[schedule := row];
      assert SchedulesOf(versions, schedules) == SchedulesOf(versions, old(schedules))[schedule := ScheduleOf(versions, row)];
    }

    method UpdateSchedule(schedule: nat, newVersion: Option<nat>, newInput: Option<Object>, cronValid: bool, newEnabled: Option<bool>)
      returns (refusal: Refusal)
      requires Valid()
      modifies this
      ensures Valid()
      ensures (Contents(), refusal) == Step(checks, old(Contents()), Operation.UpdateSchedule(schedule, newVersion, newInput, cronValid, newEnabled))
    {
      if schedule >= |schedules| {
        return Some(404);
      }
      var row := schedules[schedule];
      assert Contents().schedules[schedule] == ScheduleOf(versions, row);
      var key := ChooseVersion(row.versionKey, newVersion);
      if key.None? {
        return Some(404);
      }
      var input := if newInput.Some? then newInput.value else row.input;
      if !checks.conforms(versions[key.value].inputSchema, input) || !cronValid {
        return Some(422);
      }
      SaveSchedule(schedule, ScheduleRow(key.value, input, if newEnabled.Some? then newEnabled.value else row.enabled));
      refusal := None;
    }

    /** `create_scheduled_run_activity` looks at the schedule and not at the flow's status. */
    method TriggerSchedule(schedule: nat) returns (refusal: Refusal)
      requires Valid()
      modifies this
      ensures Valid() && (Contents(), refusal) == Step(checks, old(Contents()), Operation.TriggerSchedule(schedule))
    {
      if schedule >= |schedules| || !schedules[schedule].enabled {
        return Some(500);
      }
      var row := schedules[schedule];
      LookUp(versions, row.versionKey);
      AddRunRow(RunRow(row.versionKey, row.input, versions[row.versionKey].defaultConfig, Scheduled));
      refusal := None;
    }

    /** `_apply_flow_config_patch`, with its templates resolved. */
    method PatchConfig(run: nat, resolved: Json) returns (refusal: Refusal)
      requires Valid()
      modifies this
      ensures Valid() && (Contents(), refusal) == Step(checks, old(Contents()), Operation.PatchConfig(run, resolved))
    {
      if run >= |runs| {
        return Some(500);
      }
      var row := runs[run];
      LookUp(versions, row.versionKey);
      if Falsy(resolved) {
        return None;
      }
      if !resolved.Obj? {
        return Some(500);
      }
      var next := DeepMerge(row.config, resolved.fields);
      if !checks.conforms(versions[row.versionKey].configSchema, next) {
        return Some(500);
      }
      runs := runs[run := row.(config := next)];
      assert RunsOf(versions, runs) == RunsOf(versions, old(runs))[run := RunOf(versions, runs[run])];
      refusal := None;
    }

    /** Requests as they come. */
    method Serve(op: Operation) returns (refusal: Refusal)
      requires Valid()
      modifies this
      ensures Valid() && (Contents(), refusal) == Step(checks, old(Contents()), op)
    {
      match op {
        case UpdateDraft(draft, expected) => refusal := UpdateDraft(draft, expected);
        case Publish(credentialsAvailable) => var issues; refusal, issues := Publish(credentialsAvailable);
        case Rollback(number) => refusal := Rollback(number);
        case UpdateStatus(newStatus) => refusal := UpdateStatus(newStatus);
        case CreateRun(number, input) => refusal := CreateRun(number, input);
        case RerunRun(run) => refusal := Rerun(run);
        case CreateSchedule(version, input, cronValid, enabled) => refusal := CreateSchedule(version, input, cronValid, enabled);
        case UpdateSchedule(schedule, version, input, cronValid, enabled) => refusal := UpdateSchedule(schedule, version, input, cronValid, enabled);
        case TriggerSchedule(schedule) => refusal := TriggerSchedule(schedule);
        case PatchConfig(run, resolved) => refusal := PatchConfig(run, resolved);
      }
    }

    /** Any sequence of requests takes the rows where the history of operations goes, so they have all its properties. */
    method ServeAll(ops: seq<Operation>)
      requires Valid() && Consistent(checks, Contents())
      modifies this
      ensures Valid() && Contents() == After(checks, old(Contents()), ops)
      ensures Consistent(checks, Contents())
    {
      for i := 0 to |ops|
        invariant Valid() && Contents() == After(checks, old(Contents()), ops[..i])
      {
        assert ops[..i + 1][..i] == ops[..i];
        var _ := Serve(ops[i]);
      }
      assert ops[..|ops|] == ops;
      EveryHistoryIsConsistent(checks, old(Contents()), ops);
    }
  }
}
