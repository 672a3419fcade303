/**
 Several activities writing variables of one run. The lock on the run row lets one write at a time, but an activity has
 loaded the run's variable rows before, and its session keeps the rows that it has: the locked select of `set_variable` finds
 a row that is in the session already without reading it again. Only a variable that the session has not seen is read fresh.
 */
module VariableWriters {
  import opened Wrappers
  import opened Json
  import opened RunVariables

  /** Before the lock, with the rows loaded so far; inside the transaction, with the row that was read; and after it. */
  datatype Phase = Open(loaded: map<string, Row>) | Holding(read: Option<Row>) | Finished

  datatype System = System(store: Store, holder: Option<nat>, phases: seq<Phase>)

  /** `Load` selects all variable rows of the run; a session may do so any number of times. */
  datatype Step = Load(writer: nat) | Acquire(writer: nat) | Commit(writer: nat) | Abort(writer: nat)

  function Changed<T(==)>(read: T, computed: T, current: T): T {
    if computed != read then computed else current
  }

  /** The row after the commit: a new row is inserted, of a row that was read the columns that changed are written. */
  function Written(current: Option<Row>, read: Option<Row>, next: Row): Row {
    if current.None? || read.None? then next
    else
      Row(Changed(read.value.value, next.value, current.value.value),
          Changed(read.value.valueType, next.valueType, current.value.valueType),
          Changed(read.value.updatedBy, next.updatedBy, current.value.updatedBy),
          next.revision)
  }

  /** A committing transaction writes what it computed from the row it read, and its event. */
  function WriteBack(store: Store, read: Option<Row>, write: Write): Store {
    match NextRow(read, write)
    case None => store
    case Some(next) =>
      Store(store.variables[write.name := Written(RowAt(store, write.name), read, next)], store.events + [EventOf(write, next)])
  }

  predicate Enabled(s: System, step: Step) {
    && step.writer < |s.phases|
    && match step
       case Load(w) => s.phases[w].Open?
       case Acquire(w) => s.phases[w].Open? && s.holder == None
       case Commit(w) => s.phases[w].Holding?
       case Abort(w) => s.phases[w].Holding?
  }

  /** The row that the locked select yields: the session's own where it has one. */
  function Seen(store: Store, loaded: map<string, Row>, name: string): Option<Row> {
    if name in loaded then Some(loaded[name]) else RowAt(store, name)
  }

  function Take(s: System, writes: seq<Write>, step: Step): System
    requires |writes| == |s.phases| && Enabled(s, step)
  {
    match step
    case Load(w) => s.(phases := s.phases[w := Open(s.store.variables + s.phases[w].loaded)])
    case Acquire(w) => s.(holder := Some(w), phases := s.phases[w := Holding(Seen(s.store, s.phases[w].loaded, writes[w].name))])
    case Commit(w) => System(WriteBack(s.store, s.phases[w].read, writes[w]), None, s.phases[w := Finished])
    case Abort(w) => s.(holder := None, phases := s.phases[w := Finished])
  }

  /** The steps that are enabled, in order, taken from the start. */
  function Trace(initial: Store, writes: seq<Write>, steps: seq<Step>): (s: System)
    ensures |s.phases| == |writes|
  {
    if steps == [] then System(initial, None, seq(|writes|, _ => Open(map[])))
    else
      var s := Trace(initial, writes, steps[..|steps| - 1]);
      if Enabled(s, steps[|steps| - 1]) then Take(s, writes, steps[|steps| - 1]) else s
  }

  predicate Commits(s: System, step: Step) {
    step.Commit? && Enabled(s, step)
  }

  /** The writes in the order in which their writers committed. */
  function CommitOrder(initial: Store, writes: seq<Write>, steps: seq<Step>): seq<Write> {
    if steps == [] then []
    else
      var init, last := steps[..|steps| - 1], steps[|steps| - 1];
      CommitOrder(initial, writes, init) + if Commits(Trace(initial, writes, init), last) then [writes[last.writer]] else []
  }

  // ----- one commit -----

  function Serially(store: Store, write: Write): Store {
    match Apply(store, write) case Some(next) => next case None => store
  }

  /** A commit is sound: the row that it read is still the current one, or the write is refused either way. */
  predicate SoundCommit(store: Store, read: Option<Row>, write: Write) {
    || read == RowAt(store, write.name)
    || (NextRow(read, write) == None && NextRow(RowAt(store, write.name), write) == None)
  }

  lemma SoundCommitIsSerial(store: Store, read: Option<Row>, write: Write)
    requires SoundCommit(store, read, write)
    ensures WriteBack(store, read, write) == Serially(store, write)
  {
  }

  /**
   A write that its loaded row accepts has the effect it would have on the current row exactly if the loaded revision is
   the current one, as long as equal revisions mean equal rows.
   */
  lemma CommitIsSerialIff(store: Store, read: Row, write: Write)
    requires write.name in store.variables && NextRow(Some(read), write).Some?
    requires read.revision == store.variables[write.name].revision ==> read == store.variables[write.name]
    ensures WriteBack(store, Some(read), write) == Serially(store, write) <==> read.revision == store.variables[write.name].revision
  {
    var actual, serial := WriteBack(store, Some(read), write), Serially(store, write);
    if actual == serial {
      assert actual.events[|store.events|].revision == read.revision + 1;
      assert serial.events[|store.events|].revision == store.variables[write.name].revision + 1;
    }
  }

  /** Column by column: a commit writes what differs from the row it read, always the revision, and leaves the other columns as they are. */
  lemma WrittenColumns(store: Store, read: Row, write: Write)
    requires write.name in store.variables && NextRow(Some(read), write).Some?
    ensures var next, after := NextRow(Some(read), write).value, WriteBack(store, Some(read), write).variables;
            var current := store.variables[write.name];
            && after.Keys == store.variables.Keys && (forall name :: name in after && name != write.name ==> after[name] == store.variables[name])
            && after[write.name].value == (if next.value != read.value then next.value else current.value)
            && after[write.name].valueType == (if ValueType(next.value) != read.valueType then ValueType(next.value) else current.valueType)
            && after[write.name].updatedBy == (if write.nodeId != read.updatedBy then write.nodeId else current.updatedBy)
            && after[write.name].revision == read.revision + 1
  {
  }

  // ----- all interleavings -----

  /** Every commit of the trace is sound. */
  predicate AllSound(initial: Store, writes: seq<Write>, steps: seq<Step>) {
    steps == []
    || (var init, last := steps[..|steps| - 1], steps[|steps| - 1];
        var s := Trace(initial, writes, init);
        AllSound(initial, writes, init) && (Commits(s, last) ==> SoundCommit(s.store, s.phases[last.writer].read, writes[last.writer])))
  }

  lemma {:induction false} SoundIsSerial(initial: Store, writes: seq<Write>, steps: seq<Step>)
    requires AllSound(initial, writes, steps)
    ensures Trace(initial, writes, steps).store == ApplyAll(initial, CommitOrder(initial, writes, steps))
  {
    if steps == [] {
    } else {
      var init, last := steps[..|steps| - 1], steps[|steps| - 1];
      SoundIsSerial(initial, writes, init);
      var s, order := Trace(initial, writes, init), CommitOrder(initial, writes, init);
      if Commits(s, last) {
        SoundCommitIsSerial(s.store, s.phases[last.writer].read, writes[last.writer]);
        assert (order + [writes[last.writer]])[..|order|] == order;
      } else {
        assert CommitOrder(initial, writes, steps) == order;
      }
    }
  }

  // ----- how a lost update shows -----

  /** The revisions in a variable's events do not count up from one. */
  ghost predicate Miscounted(events: seq<Event>) {
    exists name, i :: 0 <= i < |EventsOf(events, name)| && EventsOf(events, name)[i].revision != i + 1
  }

  ghost predicate Differ(a: seq<Event>, b: seq<Event>) {
    exists i :: 0 <= i < |a| && i < |b| && a[i] != b[i]
  }

  predicate ShortOf(a: seq<Event>, b: seq<Event>) {
    |a| < |b| && a == b[..|a|]
  }

  /** The log can no longer become that of the serial order: it is miscounted, differs somewhere, or lacks an event. */
  ghost predicate Parted(actual: seq<Event>, serial: seq<Event>) {
    Miscounted(actual) || Differ(actual, serial) || ShortOf(actual, serial)
  }

  lemma MiscountedStays(events: seq<Event>, event: Event)
    requires Miscounted(events)
    ensures Miscounted(events + [event])
  {
    var name, i :| 0 <= i < |EventsOf(events, name)| && EventsOf(events, name)[i].revision != i + 1;
    EventsOfSnoc(events, event, name);
    assert EventsOf(events + [event], name)[i] == EventsOf(events, name)[i];
  }

  lemma DifferStays(a: seq<Event>, b: seq<Event>, more: seq<Event>, others: seq<Event>)
    requires Differ(a, b)
    ensures Differ(a + more, b + others)
  {
    var i :| 0 <= i < |a| && i < |b| && a[i] != b[i];
    assert (a + more)[i] != (b + others)[i];
  }

  predicate Fits(mode: Mode, value: Json) {
    match mode
    case Replace => true
    case Merge => value.Obj?
    case Append => value.Arr?
    case Increment => value.Num?
  }

  /** The last event of a log names a variable whose value fits the event's mode. */
  lemma {:induction false} LastEventFits(writes: seq<Write>)
    ensures var store := ApplyAll(EMPTY, writes);
            store.events != [] ==>
              var last := store.events[|store.events| - 1];
              last.name in store.variables && Fits(last.mode, store.variables[last.name].value)
  {
    if writes == [] {
    } else {
      LastEventFits(writes[..|writes| - 1]);
    }
  }

  /** What some row accepts is accepted by every row that fits its mode. */
  lemma FittingRowAccepts(read: Option<Row>, current: Row, write: Write)
    requires NextRow(read, write).Some? && Fits(ParseMode(write.mode).value, current.value)
    ensures NextRow(Some(current), write).Some?
  {
  }

  lemma SerialLogCounts(writes: seq<Write>)
    ensures !Miscounted(ApplyAll(EMPTY, writes).events)
  {
    var store := ApplyAll(EMPTY, writes);
    forall name, i | 0 <= i < |EventsOf(store.events, name)| ensures EventsOf(store.events, name)[i].revision == i + 1 {
      StoreShowsHistory(writes, name);
    }
  }

  lemma PartedDiffers(actual: seq<Event>, writes: seq<Write>)
    requires Parted(actual, ApplyAll(EMPTY, writes).events)
    ensures actual != ApplyAll(EMPTY, writes).events
  {
    SerialLogCounts(writes);
  }

  lemma ShortOfStays(actual: seq<Event>, order: seq<Write>, read: Option<Row>, write: Write)
    requires var serial := ApplyAll(EMPTY, order);
             ShortOf(actual, serial.events) && NextRow(read, write).Some?
    ensures Parted(actual + [EventOf(write, NextRow(read, write).value)], Serially(ApplyAll(EMPTY, order), write).events)
  {
    var serial := ApplyAll(EMPTY, order);
    var event := EventOf(write, NextRow(read, write).value);
    var longer, after := actual + [event], Serially(serial, write).events;
    assert after[..|serial.events|] == serial.events;
    if event != serial.events[|actual|] {
      assert longer[|actual|] != after[|actual|];
    } else {
      assert longer == serial.events[..|actual| + 1];
      if |longer| == |serial.events| {
        LastEventFits(order);
        FittingRowAccepts(read, serial.variables[write.name], write);
      }
      assert longer == after[..|longer|];
    }
  }

  lemma PartedStays(actual: Store, order: seq<Write>, read: Option<Row>, write: Write)
    requires Parted(actual.events, ApplyAll(EMPTY, order).events)
    ensures Parted(WriteBack(actual, read, write).events, Serially(ApplyAll(EMPTY, order), write).events)
  {
    var serial := ApplyAll(EMPTY, order);
    var after, next := WriteBack(actual, read, write).events, Serially(serial, write).events;
    assert next[..|serial.events|] == serial.events;
    if Miscounted(actual.events) {
      if NextRow(read, write).Some? { MiscountedStays(actual.events, EventOf(write, NextRow(read, write).value)); }
    } else if Differ(actual.events, serial.events) {
      assert after == actual.events + after[|actual.events|..] && next == serial.events + next[|serial.events|..];
      DifferStays(actual.events, serial.events, after[|actual.events|..], next[|serial.events|..]);
    } else if NextRow(read, write).Some? {
      ShortOfStays(actual.events, order, read, write);
    } else {
      assert ShortOf(after, next);
    }
  }

  /** A row that some session holds: the current one, or one of an earlier revision. */
  ghost predicate OnceCurrent(store: Store, name: string, row: Row) {
    name in store.variables && (row == store.variables[name] || row.revision < store.variables[name].revision)
  }

  /** The first commit that is not sound leaves its mark in the log. */
  lemma UnsoundParts(order: seq<Write>, read: Option<Row>, write: Write)
    requires var store := ApplyAll(EMPTY, order);
             && !SoundCommit(store, read, write)
             && (match read case None => write.name !in store.variables case Some(row) => OnceCurrent(store, write.name, row))
    ensures var store := ApplyAll(EMPTY, order);
            Parted(WriteBack(store, read, write).events, Serially(store, write).events)
  {
    var store := ApplyAll(EMPTY, order);
    if NextRow(read, write).Some? {
      var event := EventOf(write, NextRow(read, write).value);
      StoreShowsHistory(order, write.name);
      EventsOfSnoc(store.events, event, write.name);
      var log := EventsOf(store.events + [event], write.name);
      assert log[|log| - 1] == event && event.revision != |log|;
      assert Miscounted(store.events + [event]);
    } else {
      assert ShortOf(WriteBack(store, read, write).events, Serially(store, write).events);
    }
  }

  /** One writer holds the lock at most, and every row in a session was current once. */
  ghost predicate KnownRows(s: System, writes: seq<Write>)
    requires |writes| == |s.phases|
  {
    forall w :: 0 <= w < |s.phases| ==>
      match s.phases[w]
      case Open(loaded) => forall name :: name in loaded ==> OnceCurrent(s.store, name, loaded[name])
      case Holding(None) => s.holder == Some(w) && writes[w].name !in s.store.variables
      case Holding(Some(row)) => s.holder == Some(w) && OnceCurrent(s.store, writes[w].name, row)
      case Finished => true
  }

  lemma SerialStepKeepsRows(store: Store, write: Write, name: string, row: Row)
    requires OnceCurrent(store, name, row)
    ensures OnceCurrent(Serially(store, write), name, row)
  {
  }

  lemma StepKeepsKnownRows(s: System, writes: seq<Write>, step: Step)
    requires |writes| == |s.phases| && KnownRows(s, writes) && Enabled(s, step)
    requires step.Commit? ==> SoundCommit(s.store, s.phases[step.writer].read, writes[step.writer])
    ensures KnownRows(Take(s, writes, step), writes)
  {
    var next := Take(s, writes, step);
    if step.Commit? {
      SoundCommitIsSerial(s.store, s.phases[step.writer].read, writes[step.writer]);
      forall w, name | 0 <= w < |s.phases| && next.phases[w].Open? && name in next.phases[w].loaded
        ensures OnceCurrent(next.store, name, next.phases[w].loaded[name])
      {
        SerialStepKeepsRows(s.store, writes[step.writer], name, s.phases[w].loaded[name]);
      }
    }
  }

  /** Up to the first unsound commit the store is that of the commit order; after it their logs have parted for good. */
  lemma {:induction false} TraceState(writes: seq<Write>, steps: seq<Step>)
    ensures var s, order := Trace(EMPTY, writes, steps), CommitOrder(EMPTY, writes, steps);
            if AllSound(EMPTY, writes, steps) then KnownRows(s, writes) && s.store == ApplyAll(EMPTY, order)
            else Parted(s.store.events, ApplyAll(EMPTY, order).events)
  {
    if steps == [] {
    } else {
      var init, last := steps[..|steps| - 1], steps[|steps| - 1];
      TraceState(writes, init);
      var s, order := Trace(EMPTY, writes, init), CommitOrder(EMPTY, writes, init);
      if !Enabled(s, last) || !last.Commit? {
        assert CommitOrder(EMPTY, writes, steps) == order;
        if Enabled(s, last) && AllSound(EMPTY, writes, init) { StepKeepsKnownRows(s, writes, last); }
      } else {
        CommitState(writes, steps);
      }
    }
  }

  lemma CommitState(writes: seq<Write>, steps: seq<Step>)
    requires steps != []
    requires var init, last := steps[..|steps| - 1], steps[|steps| - 1];
             var s, order := Trace(EMPTY, writes, init), CommitOrder(EMPTY, writes, init);
             && Commits(s, last)
             && if AllSound(EMPTY, writes, init) then KnownRows(s, writes) && s.store == ApplyAll(EMPTY, order)
                else Parted(s.store.events, ApplyAll(EMPTY, order).events)
    ensures var s, order := Trace(EMPTY, writes, steps), CommitOrder(EMPTY, writes, steps);
            if AllSound(EMPTY, writes, steps) then KnownRows(s, writes) && s.store == ApplyAll(EMPTY, order)
            else Parted(s.store.events, ApplyAll(EMPTY, order).events)
  {
    var init, last := steps[..|steps| - 1], steps[|steps| - 1];
    var s, order := Trace(EMPTY, writes, init), CommitOrder(EMPTY, writes, init);
    var read, write := s.phases[last.writer].read, writes[last.writer];
    assert (order + [write])[..|order|] == order;
    assert ApplyAll(EMPTY, order + [write]) == Serially(ApplyAll(EMPTY, order), write);
    if !AllSound(EMPTY, writes, init) {
      PartedStays(s.store, order, read, write);
    } else if SoundCommit(s.store, read, write) {
      SoundCommitIsSerial(s.store, read, write);
      StepKeepsKnownRows(s, writes, last);
    } else {
      UnsoundParts(order, read, write);
    }
  }

  /**
   Over every interleaving of writers of a run, rows and events are those of the serial order of the commits exactly if
   every commit was sound: the row it had read was still the current one, which holds of a variable that the session had
   not loaded and of one that nobody wrote since, or the write was refused and would have been in turn. (Earlier writes
   of the run are writers that have finished.)
   */
  lemma WritesAreSerialIff(writes: seq<Write>, steps: seq<Step>)
    ensures Trace(EMPTY, writes, steps).store == ApplyAll(EMPTY, CommitOrder(EMPTY, writes, steps)) <==> AllSound(EMPTY, writes, steps)
  {
    TraceState(writes, steps);
    if !AllSound(EMPTY, writes, steps) {
      PartedDiffers(Trace(EMPTY, writes, steps).store.events, CommitOrder(EMPTY, writes, steps));
    }
  }

  /** As long as all commits were sound, a row in a session is still current exactly if its revision is. */
  lemma RevisionTellsStaleness(writes: seq<Write>, steps: seq<Step>, writer: nat)
    requires AllSound(EMPTY, writes, steps) && writer < |writes| && Trace(EMPTY, writes, steps).phases[writer].Holding?
    ensures var s, name := Trace(EMPTY, writes, steps), writes[writer].name;
            match s.phases[writer].read
            case None => name !in s.store.variables
            case Some(row) =>
              && name in s.store.variables
              && (Some(row) == RowAt(s.store, name) <==> row.revision == s.store.variables[name].revision)
              && s.store.variables[name].revision == Follow(CommitOrder(EMPTY, writes, steps), name).accepted
  {
    TraceState(writes, steps);
    StoreShowsHistory(CommitOrder(EMPTY, writes, steps), writes[writer].name);
  }

  // ----- reads under the lock -----

  ghost predicate NoLoads(steps: seq<Step>) {
    forall i :: 0 <= i < |steps| ==> !steps[i].Load?
  }

  /** Sessions that have loaded nothing read under the lock what is there. */
  ghost predicate Exclusive(s: System, writes: seq<Write>)
    requires |writes| == |s.phases|
  {
    forall w :: 0 <= w < |s.phases| ==>
      match s.phases[w]
      case Open(loaded) => loaded == map[]
      case Holding(read) => s.holder == Some(w) && read == RowAt(s.store, writes[w].name)
      case Finished => true
  }

  lemma {:induction false} NoLoadsAreSound(initial: Store, writes: seq<Write>, steps: seq<Step>)
    requires NoLoads(steps)
    ensures Exclusive(Trace(initial, writes, steps), writes) && AllSound(initial, writes, steps)
  {
    if steps == [] {
    } else {
      NoLoadsAreSound(initial, writes, steps[..|steps| - 1]);
      assert !steps[|steps| - 1].Load?;
    }
  }

  /** If no session had loaded rows before its write, any interleaving of locked writers leaves the store of their commit order. */
  lemma FreshReadsAreSerial(initial: Store, writes: seq<Write>, steps: seq<Step>)
    requires NoLoads(steps)
    ensures Trace(initial, writes, steps).store == ApplyAll(initial, CommitOrder(initial, writes, steps))
  {
    NoLoadsAreSound(initial, writes, steps);
    SoundIsSerial(initial, writes, steps);
  }

  /** Loading again adds the rows that are new to the session and leaves those that it has. */
  lemma LoadKeepsRows(s: System, writes: seq<Write>, writer: nat, name: string)
    requires |writes| == |s.phases| && Enabled(s, Load(writer))
    ensures var next, loaded := Take(s, writes, Load(writer)), s.phases[writer].loaded;
            && next.store == s.store && next.phases[writer].Open?
            && var after := next.phases[writer].loaded;
               && (name in after <==> name in loaded || name in s.store.variables)
               && (name in loaded ==> after[name] == loaded[name])
               && (name !in loaded && name in s.store.variables ==> after[name] == s.store.variables[name])
  {
  }

  // ----- two overlapping activities -----

  /** Both load the run's variables before either writes. */
  const OVERLAP := [Load(0), Load(1), Acquire(0), Commit(0), Acquire(1), Commit(1)]

  lemma OneMoreStep(initial: Store, writes: seq<Write>, init: seq<Step>, last: Step)
    ensures var s := Trace(initial, writes, init);
            && Trace(initial, writes, init + [last]) == (if Enabled(s, last) then Take(s, writes, last) else s)
            && CommitOrder(initial, writes, init + [last]) ==
               CommitOrder(initial, writes, init) + if Commits(s, last) then [writes[last.writer]] else []
  {
    assert (init + [last])[..|init|] == init;
  }

  lemma FirstOverlappingWrite(initial: Store, first: Write, second: Write)
    requires first.name in initial.variables
    ensures var row, d := RowAt(initial, first.name), OVERLAP[..4];
            Trace(initial, [first, second], d) == System(WriteBack(initial, row, first), None, [Finished, Open(initial.variables)])
    ensures CommitOrder(initial, [first, second], OVERLAP[..4]) == [first]
  {
    var writes, row := [first, second], RowAt(initial, first.name);
    var a := [Load(0)];
    var b := a + [Load(1)];
    var c := b + [Acquire(0)];
    var loaded := initial.variables;
    assert loaded + map[] == loaded && [] + [Load(0)] == a;
    OneMoreStep(initial, writes, [], Load(0));
    assert Trace(initial, writes, a) == System(initial, None, [Open(loaded), Open(map[])]);
    OneMoreStep(initial, writes, a, Load(1));
    assert Trace(initial, writes, b) == System(initial, None, [Open(loaded), Open(loaded)]);
    OneMoreStep(initial, writes, b, Acquire(0));
    assert Trace(initial, writes, c) == System(initial, Some(0), [Holding(row), Open(loaded)]);
    OneMoreStep(initial, writes, c, Commit(0));
    assert c + [Commit(0)] == OVERLAP[..4];
  }

  lemma OverlappingWrites(initial: Store, first: Write, second: Write)
    requires first.name == second.name && first.name in initial.variables
    ensures var row := RowAt(initial, first.name);
            Trace(initial, [first, second], OVERLAP).store == WriteBack(WriteBack(initial, row, first), row, second)
    ensures CommitOrder(initial, [first, second], OVERLAP) == [first, second]
  {
    var writes, row := [first, second], RowAt(initial, first.name);
    var d := OVERLAP[..4];
    var e := d + [Acquire(1)];
    FirstOverlappingWrite(initial, first, second);
    var store := WriteBack(initial, row, first);
    OneMoreStep(initial, writes, d, Acquire(1));
    assert Trace(initial, writes, e) == System(store, Some(1), [Finished, Holding(row)]);
    OneMoreStep(initial, writes, e, Commit(1));
    assert e + [Commit(1)] == OVERLAP;
  }

  ghost predicate Increments(write: Write, step: real) {
    ValidName(write.name) && ParseMode(write.mode) == Some(Increment) && write.value == Num(step)
  }

  /** Two increments that overlap: both are accepted and logged under one revision, and the first one's part is lost. */
  lemma LostUpdate(initial: Store, first: Write, second: Write, a: real, b: real)
    requires first.name == second.name && Increments(first, a) && Increments(second, b) && a != 0.0 && b != 0.0
    requires first.name in initial.variables && initial.variables[first.name].value.Num?
    ensures var row, after := initial.variables[first.name], Trace(initial, [first, second], OVERLAP).store;
            var serial := ApplyAll(initial, CommitOrder(initial, [first, second], OVERLAP));
            && first.name in after.variables && after.variables[first.name].value == Num(row.value.n + b)
            && after.variables[first.name].revision == row.revision + 1
            && |after.events| == |initial.events| + 2
            && first.name in serial.variables && serial.variables[first.name].value == Num(row.value.n + a + b)
            && serial.variables[first.name].revision == row.revision + 2
  {
    OverlappingWrites(initial, first, second);
    assert [first, second][..1] == [first] && [first][..0] == [];
    assert ApplyAll(initial, [first]) == Serially(initial, first);
  }

  /** A text written in between: the increment is accepted on the number it loaded, and its row says that it is a string. */
  lemma MistypedRow(initial: Store, first: Write, second: Write, text: string, step: real)
    requires first.name == second.name && ValidName(first.name) && ParseMode(first.mode) == Some(Replace) && first.value == Str(text)
    requires Increments(second, step) && step != 0.0
    requires first.name in initial.variables && initial.variables[first.name].value.Num? && initial.variables[first.name].valueType == "number"
    ensures var row, after := initial.variables[first.name], Trace(initial, [first, second], OVERLAP).store;
            && first.name in after.variables && after.variables[first.name].value == Num(row.value.n + step)
            && after.variables[first.name].valueType == "string"
  {
    OverlappingWrites(initial, first, second);
    assert "number"[0] != "string"[0];
  }

  /** A number written over a text in between: the increment is refused on the text it loaded, which is no longer there. */
  lemma StaleRefusal(initial: Store, first: Write, second: Write, number: real, step: real)
    requires first.name == second.name && ValidName(first.name) && ParseMode(first.mode) == Some(Replace) && first.value == Num(number)
    requires Increments(second, step)
    requires first.name in initial.variables && initial.variables[first.name].value.Str?
    ensures var after := Trace(initial, [first, second], OVERLAP).store;
            && after == Serially(initial, first) && first.name in after.variables && after.variables[first.name].value == Num(number)
            && Apply(after, second).Some?
  {
    OverlappingWrites(initial, first, second);
  }
}
