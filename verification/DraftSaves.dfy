/**
 Saves of one draft that overlap. `update_draft` reads the flow without a lock, compares row versions, and writes later: the columns
 it changed, and the row version it read plus one.
 */
module DraftSaves {
  import opened Wrappers
  import opened Lifecycle

  datatype Row = Row(draft: FlowDefinition, rowVersion: nat)

  /** A request between its check, which it passed, and its commit. */
  datatype Session = Session(read: Row, draft: FlowDefinition)

  datatype System = System(row: Row, open: seq<Session>)

  /** A save arrives; or one of the open sessions commits. */
  datatype Step = Load(expected: nat, draft: FlowDefinition) | Commit(session: nat)

  /** A save that arrives now goes through: nothing stops it after its check. */
  predicate Accepts(s: System, expected: nat) {
    s.row.rowVersion == expected
  }

  function Changed<T(==)>(read: T, saved: T, current: T): T {
    if saved != read then saved else current
  }

  /** The commit updates the columns that differ from what the session read. */
  function Overwrite(read: FlowDefinition, saved: FlowDefinition, current: FlowDefinition): FlowDefinition {
    FlowDefinition(Changed(read.content, saved.content, current.content),
                   Changed(read.inputSchema, saved.inputSchema, current.inputSchema),
                   Changed(read.configSchema, saved.configSchema, current.configSchema),
                   Changed(read.defaultConfig, saved.defaultConfig, current.defaultConfig))
  }

  function Take(s: System, step: Step): System {
    match step
    case Load(expected, draft) => if Accepts(s, expected) then s.(open := s.open + [Session(s.row, draft)]) else s
    case Commit(k) =>
      if k >= |s.open| then s
      else
        var session := s.open[k];
        System(Row(Overwrite(session.read.draft, session.draft, s.row.draft), session.read.rowVersion + 1), s.open[..k] + s.open[k + 1..])
  }

  function TakeAll(s: System, steps: seq<Step>): System
    decreases steps
  {
    if steps == [] then s else TakeAll(Take(s, steps[0]), steps[1..])
  }

  /** One of the steps is a commit that takes effect. */
  predicate Commits(s: System, steps: seq<Step>)
    decreases steps
  {
    steps != [] && ((steps[0].Commit? && steps[0].session < |s.open|) || Commits(Take(s, steps[0]), steps[1..]))
  }

  /** The row version that the session of the last effective commit had read. */
  function LastCommit(s: System, steps: seq<Step>): Option<nat>
    decreases steps
  {
    if steps == [] then None
    else
      var later := LastCommit(Take(s, steps[0]), steps[1..]);
      if later.Some? then later
      else if steps[0].Commit? && steps[0].session < |s.open| then Some(s.open[steps[0].session].read.rowVersion)
      else None
  }

  /**
   Over every interleaving, from any state: a save with some expectation goes through exactly if nothing was committed and
   the row has that version, or the last session that committed had read the version before it.
   */
  lemma {:induction false} SaveGoesThroughIff(s: System, expected: nat, steps: seq<Step>)
    ensures Accepts(TakeAll(s, steps), expected) <==>
            match LastCommit(s, steps) case None => s.row.rowVersion == expected case Some(read) => read + 1 == expected
    decreases steps
  {
    if steps == [] {
    } else {
      SaveGoesThroughIff(Take(s, steps[0]), expected, steps[1..]);
    }
  }

  /** No open session read an older row version than the expected one. */
  ghost predicate NoneOlder(s: System, expected: nat) {
    forall k :: 0 <= k < |s.open| ==> s.open[k].read.rowVersion >= expected
  }

  lemma StepKeepsNoneOlder(s: System, expected: nat, step: Step)
    requires NoneOlder(s, expected) && s.row.rowVersion >= expected
    ensures NoneOlder(Take(s, step), expected) && Take(s, step).row.rowVersion >= expected
    ensures s.row.rowVersion > expected ==> Take(s, step).row.rowVersion > expected
    ensures step.Commit? && step.session < |s.open| ==> Take(s, step).row.rowVersion > expected
  {
  }

  lemma {:induction false} PassedStays(s: System, expected: nat, steps: seq<Step>)
    requires NoneOlder(s, expected) && s.row.rowVersion > expected
    ensures !Accepts(TakeAll(s, steps), expected)
    decreases steps
  {
    if steps == [] {
    } else {
      StepKeepsNoneOlder(s, expected, steps[0]);
      PassedStays(Take(s, steps[0]), expected, steps[1..]);
    }
  }

  /**
   Where no open session read an older row version, a save that expects the current one goes through exactly if it is read before
   the first commit. So of two such saves both go through when they overlap, and the later is refused when they do not.
   */
  lemma {:induction false} FirstCommitDecides(s: System, expected: nat, steps: seq<Step>)
    requires Accepts(s, expected) && NoneOlder(s, expected)
    ensures Accepts(TakeAll(s, steps), expected) <==> !Commits(s, steps)
    decreases steps
  {
    if steps == [] {
    } else {
      StepKeepsNoneOlder(s, expected, steps[0]);
      if steps[0].Commit? && steps[0].session < |s.open| {
        PassedStays(Take(s, steps[0]), expected, steps[1..]);
      } else {
        FirstCommitDecides(Take(s, steps[0]), expected, steps[1..]);
      }
    }
  }

  /** Two saves that overlap both succeed as one new row version; where both changed a column, the first one's work is lost. */
  lemma OverlappingSaves(row: Row, first: FlowDefinition, second: FlowDefinition)
    ensures var after := TakeAll(System(row, []), [Load(row.rowVersion, first), Load(row.rowVersion, second), Commit(0), Commit(0)]);
            && after.open == [] && after.row.rowVersion == row.rowVersion + 1
            && after.row.draft.content == (if second.content != row.draft.content then second.content else first.content)
            && after.row.draft.inputSchema == (if second.inputSchema != row.draft.inputSchema then second.inputSchema else first.inputSchema)
            && after.row.draft.configSchema == (if second.configSchema != row.draft.configSchema then second.configSchema else first.configSchema)
            && after.row.draft.defaultConfig == (if second.defaultConfig != row.draft.defaultConfig then second.defaultConfig else first.defaultConfig)
  {
    var s := System(row, []);
    var a, b, c := Load(row.rowVersion, first), Load(row.rowVersion, second), Commit(0);
    var s1 := Take(s, a);
    var s2 := Take(s1, b);
    var s3 := Take(s2, c);
    var s4 := Take(s3, c);
    assert [a, b, c, c][1..] == [b, c, c] && [b, c, c][1..] == [c, c] && [c, c][1..] == [c] && [c][1..] == [];
    assert s2.open == [Session(row, first), Session(row, second)];
    assert s3.open == [Session(row, second)] && s3.row.draft == first;
    assert TakeAll(s3, [c]) == TakeAll(s4, []) == s4;
    assert TakeAll(s2, [c, c]) == s4;
    assert TakeAll(s1, [b, c, c]) == s4;
  }

  // ----- when an expectation is used up for good -----

  /** Saves one after the other take the row version up to any later one. */
  lemma {:induction false} Climb(s: System, target: nat) returns (steps: seq<Step>)
    requires s.row.rowVersion <= target
    ensures Accepts(TakeAll(s, steps), target)
    decreases target - s.row.rowVersion
  {
    if s.row.rowVersion == target {
      steps := [];
    } else {
      var load, commit := Load(s.row.rowVersion, s.row.draft), Commit(|s.open|);
      var loaded := Take(s, load);
      var next := Take(loaded, commit);
      var rest := Climb(next, target);
      steps := [load] + ([commit] + rest);
      assert steps[1..] == [commit] + rest && ([commit] + rest)[1..] == rest;
      assert TakeAll(s, steps) == TakeAll(loaded, [commit] + rest) == TakeAll(next, rest);
    }
  }

  /** No save with that expectation will ever go through. */
  ghost predicate UsedUp(s: System, expected: nat) {
    forall steps: seq<Step> :: !Accepts(TakeAll(s, steps), expected)
  }

  /**
   Once the row version has passed an expectation, no save with that expectation will ever go through again exactly if no
   open session read an older row version: such a session's commit sets the row version back.
   */
  lemma ExpectationIsUsedUpIff(s: System, expected: nat)
    requires s.row.rowVersion > expected
    ensures UsedUp(s, expected) <==> NoneOlder(s, expected)
  {
    if NoneOlder(s, expected) {
      forall steps: seq<Step> ensures !Accepts(TakeAll(s, steps), expected) { PassedStays(s, expected, steps); }
    } else {
      var k :| 0 <= k < |s.open| && s.open[k].read.rowVersion < expected;
      var back := Take(s, Commit(k));
      var rest := Climb(back, expected);
      var steps := [Commit(k)] + rest;
      assert steps[0] == Commit(k) && steps[1..] == rest;
      assert TakeAll(s, steps) == TakeAll(back, rest);
      assert Accepts(TakeAll(s, steps), expected);
    }
  }
}
