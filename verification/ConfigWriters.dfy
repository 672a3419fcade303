/**
 Configuration patches that overlap. `execute_node_activity` loads the run when it starts and `_apply_flow_config_patch` merges into the
 configuration loaded then, without a lock; the commit writes the column if the merge changed it, and the event shows the merge.
 */
module ConfigWriters {
  import opened Wrappers
  import opened Json
  import opened FlowConfig

  /** What a patch leaves: the column of the run, and the configuration in its FLOW_CONFIG_PATCHED event. */
  datatype Outcome = Outcome(column: Object, event: Object)

  /** A patch merged into the configuration its session loaded, committed when the column holds `current`; `None` is the refusal. */
  function Commit(conforms: Object -> bool, loaded: Object, current: Object, patch: Object): Option<Outcome> {
    var next := Merge(loaded, patch);
    if !conforms(next) then None else Some(Outcome(if next != loaded then next else current, next))
  }

  /** A column after an accepted or refused patch. */
  function Column(outcome: Option<Outcome>, current: Object): Object {
    match outcome case None => current case Some(o) => o.column
  }

  /**
   A patch that was merged into what its session had loaded has the effect it would have on the current configuration exactly
   if both are refused, or both are accepted, come to the same, and the patch changed what it was merged into or that is current.
   */
  lemma StalePatchIsSerialIff(conforms: Object -> bool, loaded: Object, current: Object, patch: Object)
    ensures var stale, anew := Merge(loaded, patch), Merge(current, patch);
            Commit(conforms, loaded, current, patch) == Commit(conforms, current, current, patch) <==>
            || (!conforms(stale) && !conforms(anew))
            || (conforms(stale) && stale == anew && (stale != loaded || loaded == current))
  {
  }

  /** Two overlapping patches that touch no common key: whatever the first one changed is lost as soon as the second changes anything. */
  lemma LostPatch(conforms: Object -> bool, base: Object, first: Object, second: Object, key: string)
    requires conforms(Merge(base, first)) && conforms(Merge(base, second)) && conforms(Merge(Merge(base, first), second))
    requires first.Keys !! second.Keys && key in first
    requires Merge(base, second) != base && (key in base ==> Merge(base, first)[key] != base[key])
    ensures var one := Column(Commit(conforms, base, base, first), base);
            var both := Column(Commit(conforms, base, one, second), one);
            var serial := Column(Commit(conforms, one, one, second), one);
            && both == Merge(base, second) && serial == Merge(Merge(base, first), second)
            && (key in both ==> key in base && both[key] == base[key])
            && key in serial && (key in both ==> serial[key] != both[key])
  {
    MergeAt(base, first, key);
    assert Merge(base, first) != base;
  }
}
