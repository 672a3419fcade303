/**
 Configuration dictionaries as objects. A scheduled run starts out holding the very dictionary of its version's
 default configuration; patches build a new dictionary instead of changing the one at hand.
 */
module SharedConfig {
  import opened Json
  import opened FlowConfig
  import opened Lifecycle

  class ConfigDict {
    var fields: Object

    constructor (initial: Object)
      ensures fields == initial
    {
      fields := initial;
    }

    /** `deepcopy`. */
    method Copy() returns (copy: ConfigDict)
      ensures fresh(copy) && copy.fields == fields
    {
      copy := new ConfigDict(fields);
    }

    /** `merged[key] = value`: the one operation that changes a dictionary in place. */
    method Put(key: string, value: Json)
      modifies this
      ensures fields == old(fields)[key := value]
    {
      fields := fields[key := value];
    }
  }

  class VersionRow {
    const configSchema: Json
    const defaultConfig: ConfigDict

    constructor (schema: Json, config: ConfigDict)
      ensures configSchema == schema && defaultConfig == config
    {
      configSchema, defaultConfig := schema, config;
    }
  }

  class RunRow {
    const version: VersionRow
    var flowConfig: ConfigDict

    /** `_create_run_projection` copies the configuration it is given. */
    constructor Manual(theVersion: VersionRow, config: ConfigDict)
      ensures version == theVersion && fresh(flowConfig) && flowConfig.fields == config.fields
    {
      version := theVersion;
      flowConfig := new ConfigDict(config.fields);
    }

    /** `create_scheduled_run_activity` does not. */
    constructor Scheduled(theVersion: VersionRow)
      ensures version == theVersion && flowConfig == theVersion.defaultConfig
    {
      version := theVersion;
      flowConfig := theVersion.defaultConfig;
    }

    /** `deep_merge` on the top level: a deep copy, changed key by key. */
    method Merged(resolved: Object) returns (merged: ConfigDict)
      ensures fresh(merged) && merged.fields == Merge(flowConfig.fields, resolved)
    {
      merged := flowConfig.Copy();
      var left := resolved.Keys;
      while left != {}
        invariant fresh(merged) && left <= resolved.Keys
        invariant merged.fields.Keys == flowConfig.fields.Keys + (resolved.Keys - left)
        invariant forall key :: key in merged.fields ==>
          merged.fields[key] == if key in resolved && key !in left then Merge(flowConfig.fields, resolved)[key] else flowConfig.fields[key]
      {
        var key :| key in left;
        left := left - {key};
        MergeAt(flowConfig.fields, resolved, key);
        if key in merged.fields && merged.fields[key].Obj? && resolved[key].Obj? {
          var inner := DeepMerge(merged.fields[key].fields, resolved[key].fields);
          assert Obj(inner) == Overlay(flowConfig.fields[key], resolved[key]);
          merged.Put(key, Obj(inner));
        } else {
          merged.Put(key, resolved[key]);
        }
      }
    }

    /** `_apply_flow_config_patch` for a patch that resolves to a non-empty object: only this run's reference changes. */
    method ApplyPatch(conforms: (Json, Object) -> bool, resolved: Object) returns (applied: bool)
      modifies this`flowConfig
      ensures applied <==> conforms(version.configSchema, Merge(old(flowConfig.fields), resolved))
      ensures applied ==> fresh(flowConfig) && flowConfig.fields == Merge(old(flowConfig.fields), resolved)
      ensures !applied ==> flowConfig == old(flowConfig)
      ensures old(flowConfig).fields == old(flowConfig.fields)
    {
      var next := Merged(resolved);
      applied := conforms(version.configSchema, next.fields);
      if applied {
        flowConfig := next;
      }
    }
  }

  /**
   Any runs of one version, scheduled ones sharing its default configuration among them, and any patches to them in any order:
   each run ends with the fold of its own patches, and the version keeps its default configuration.
   */
  method PatchRuns(checks: Checks, version: VersionRow, runs: seq<RunRow>, ops: seq<Operation>)
    requires forall i :: 0 <= i < |runs| ==> runs[i].version == version
    requires forall i, j :: 0 <= i < j < |runs| ==> runs[i] != runs[j]
    requires forall i :: 0 <= i < |ops| ==> ops[i].PatchConfig? && ops[i].run < |runs|
    modifies runs
    ensures version.defaultConfig.fields == old(version.defaultConfig.fields)
    ensures forall i: nat :: i < |runs| ==> runs[i].flowConfig == old(runs[i].flowConfig) || fresh(runs[i].flowConfig)
    ensures forall i: nat :: i < |runs| ==>
              runs[i].flowConfig.fields == ConfigFold(checks, version.configSchema, old(runs[i].flowConfig.fields), ops, i)
  {
    for k := 0 to |ops|
      invariant forall i: nat :: i < |runs| ==> runs[i].flowConfig == old(runs[i].flowConfig) || fresh(runs[i].flowConfig)
      invariant forall i: nat :: i < |runs| ==>
                  runs[i].flowConfig.fields == ConfigFold(checks, version.configSchema, old(runs[i].flowConfig.fields), ops[..k], i)
    {
      assert ops[..k + 1][..k] == ops[..k];
      var run, resolved := runs[ops[k].run], ops[k].resolved;
      if resolved.Obj? && resolved.fields != map[] {
        var applied := run.ApplyPatch(checks.conforms, resolved.fields);
      }
    }
    assert ops[..|ops|] == ops;
  }
}
