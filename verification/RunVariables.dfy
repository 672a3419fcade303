/** Typed, mode-directed writes to the variables of one run, with revisions and an event log. */
module RunVariables {
  import opened Wrappers
  import opened Json

  datatype Mode = Replace | Merge | Append | Increment

  function UpperChar(c: char): char {
    if 'a' <= c <= 'z' then (c as int - 32) as char else c
  }

  function Upper(s: string): string {
    seq(|s|, i requires 0 <= i < |s| => UpperChar(s[i]))
  }

  function ParseMode(text: string): Option<Mode> {
    var mode := Upper(text);
    if mode == "REPLACE" then Some(Replace)
    else if mode == "MERGE" then Some(Merge)
    else if mode == "APPEND" then Some(Append)
    else if mode == "INCREMENT" then Some(Increment)
    else None
  }

  predicate Letter(c: char) {
    'a' <= c <= 'z' || 'A' <= c <= 'Z'
  }

  /** The pattern VARIABLE_NAME. */
  predicate ValidName(name: string) {
    && 1 <= |name| <= 200
    && (Letter(name[0]) || name[0] == '_')
    && forall i :: 1 <= i < |name| ==> Letter(name[i]) || '0' <= name[i] <= '9' || name[i] in {'_', '.', '-'}
  }

  function ValueType(value: Json): string {
    match value
    case Null => "null"
    case Bool(_) => "boolean"
    case Num(_) => "number"
    case Str(_) => "string"
    case Arr(_) => "array"
    case Obj(_) => "object"
  }

  lemma ValueTypes(b: bool, n: real, s: string, items: seq<Json>, fields: Object)
    ensures ValueType(Null) == "null" && ValueType(Bool(b)) == "boolean" && ValueType(Num(n)) == "number"
    ensures ValueType(Str(s)) == "string" && ValueType(Arr(items)) == "array" && ValueType(Obj(fields)) == "object"
  {
  }

  /** `_apply_mode`; `None` stands for its `ValueError`, and an unset variable reads as `Null`. */
  function ApplyMode(existing: Json, incoming: Json, mode: Mode): Option<Json> {
    match mode
    case Replace => Some(incoming)
    case Merge =>
      if !incoming.Obj? || !(existing.Null? || existing.Obj?) then None
      else Some(Obj((if existing.Obj? then existing.fields else map[]) + incoming.fields))
    case Append =>
      if !(existing.Null? || existing.Arr?) then None
      else Some(Arr((if existing.Arr? then existing.items else []) + (if incoming.Arr? then incoming.items else [incoming])))
    case Increment =>
      if !incoming.Num? || !(existing.Null? || existing.Num?) then None
      else Some(Num((if existing.Num? then existing.n else 0.0) + incoming.n))
  }

  /** The names of the modes, in any case; there are no others. */
  lemma ModeNames(text: string)
    ensures ParseMode("REPLACE") == Some(Replace) && ParseMode("MERGE") == Some(Merge)
    ensures ParseMode("APPEND") == Some(Append) && ParseMode("INCREMENT") == Some(Increment)
    ensures ParseMode(text) == ParseMode(Upper(text))
    ensures ParseMode(text).Some? ==> Upper(text) in {"REPLACE", "MERGE", "APPEND", "INCREMENT"}
    ensures |Upper(text)| == |text|
    ensures forall i :: 0 <= i < |text| ==> Upper(text)[i] == if 'a' <= text[i] <= 'z' then (text[i] as int - 32) as char else text[i]
  {
    assert Upper("REPLACE") == "REPLACE" && Upper("MERGE") == "MERGE";
    assert Upper("APPEND") == "APPEND" && Upper("INCREMENT") == "INCREMENT";
    assert "REPLACE"[0] == 'R' && "MERGE"[0] == 'M' && "APPEND"[0] == 'A' && "INCREMENT"[0] == 'I';
    assert Upper(Upper(text)) == Upper(text);
  }

  /** Names start with a letter or an underscore, go on with letters, digits, dots, dashes and underscores, and are at most 200 long. */
  lemma NamesAtTheEdges(name: string)
    ensures ValidName("score.1-a_b") && ValidName("_")
    ensures !ValidName("") && !ValidName("1a") && !ValidName(".a") && !ValidName("a b") && !ValidName("-a")
    ensures ValidName(name) && |name| < 200 ==> ValidName(name + "9") && ValidName(name + ".") && !ValidName(name + " ")
    ensures |name| > 200 ==> !ValidName(name)
  {
    assert "a b"[1] == ' ';
    assert ValidName(name) && |name| < 200 ==> (name + " ")[|name|] == ' ';
  }

  /** Apply two writes of one mode after each other. */
  function ApplyTwice(existing: Json, first: Json, second: Json, mode: Mode): Option<Json> {
    match ApplyMode(existing, first, mode)
    case None => None
    case Some(next) => ApplyMode(next, second, mode)
  }

  /** Increments add up in any order; appended lists concatenate; of merged fields the later wins and the others stay. */
  lemma ModesCompose(existing: Json, first: Json, second: Json)
    ensures first.Num? && second.Num? ==>
              && ApplyTwice(existing, first, second, Increment) == ApplyTwice(existing, second, first, Increment)
              && ApplyTwice(existing, first, second, Increment) == ApplyMode(existing, Num(first.n + second.n), Increment)
    ensures first.Arr? && second.Arr? ==> ApplyTwice(existing, first, second, Append) == ApplyMode(existing, Arr(first.items + second.items), Append)
    ensures !first.Arr? ==> ApplyMode(existing, first, Append) == ApplyMode(existing, Arr([first]), Append)
    ensures first.Obj? && second.Obj? ==> ApplyTwice(existing, first, second, Merge) == ApplyMode(existing, Obj(first.fields + second.fields), Merge)
    ensures ApplyTwice(existing, first, second, Replace) == Some(second)
  {
    if first.Arr? && second.Arr? && (existing.Null? || existing.Arr?) {
      var items := if existing.Arr? then existing.items else [];
      assert (items + first.items) + second.items == items + (first.items + second.items);
    }
    if first.Obj? && second.Obj? && (existing.Null? || existing.Obj?) {
      var fields := if existing.Obj? then existing.fields else map[];
      assert (fields + first.fields) + second.fields == fields + (first.fields + second.fields);
    }
  }

  /** The first write to a variable, and what each mode refuses. */
  lemma ModesAtTheEdges(existing: Json, incoming: Json)
    ensures ApplyMode(Null, incoming, Append) == Some(if incoming.Arr? then incoming else Arr([incoming]))
    ensures incoming.Obj? ==> ApplyMode(Null, incoming, Merge) == Some(incoming)
    ensures incoming.Num? ==> ApplyMode(Null, incoming, Increment) == Some(incoming)
    ensures ApplyMode(existing, incoming, Merge) == None <==> !incoming.Obj? || ValueType(existing) !in {"null", "object"}
    ensures ApplyMode(existing, incoming, Append) == None <==> ValueType(existing) !in {"null", "array"}
    ensures ApplyMode(existing, incoming, Increment) == None <==> !incoming.Num? || ValueType(existing) !in {"null", "number"}
  {
    if incoming.Arr? { assert [] + incoming.items == incoming.items; } else { assert [] + [incoming] == [incoming]; }
    if incoming.Obj? { assert map[] + incoming.fields == incoming.fields; }
  }

  datatype Row = Row(value: Json, valueType: string, updatedBy: string, revision: nat)

  /** A VARIABLE_SET event. */
  datatype Event = Event(name: string, mode: Mode, revision: nat, nodeId: string)

  datatype Store = Store(variables: map<string, Row>, events: seq<Event>)

  const EMPTY := Store(map[], [])

  datatype Write = Write(nodeId: string, name: string, value: Json, mode: string)

  function RowAt(store: Store, name: string): Option<Row> {
    if name in store.variables then Some(store.variables[name]) else None
  }

  /** The row that `set_variable` makes of the one it read; `None` when it raises. */
  function NextRow(read: Option<Row>, write: Write): Option<Row> {
    if !ValidName(write.name) then None
    else
      match ParseMode(write.mode)
      case None => None
      case Some(mode) =>
        match ApplyMode(if read.Some? then read.value.value else Null, write.value, mode)
        case None => None
        case Some(next) => Some(Row(next, ValueType(next), write.nodeId, if read.Some? then read.value.revision + 1 else 1))
  }

  function EventOf(write: Write, row: Row): Event
    requires ParseMode(write.mode).Some?
  {
    Event(write.name, ParseMode(write.mode).value, row.revision, write.nodeId)
  }

  /** The effect of `set_variable`; `None` when it raises. */
  function Apply(store: Store, write: Write): Option<Store> {
    match NextRow(RowAt(store, write.name), write)
    case None => None
    case Some(row) => Some(Store(store.variables[write.name := row], store.events + [EventOf(write, row)]))
  }

  /** The variable rows and the event log of an existing run. */
  class VariableTable {
    var variables: map<string, Row>
    var events: seq<Event>

    function Contents(): Store
      reads this
    {
      Store(variables, events)
    }

    constructor ()
      ensures Contents() == EMPTY
    {
      variables, events := map[], [];
    }

    /** `set_variable`, from the locked select to the flush. */
    method SetVariable(nodeId: string, name: string, value: Json, mode: string) returns (r: Option<Row>)
      modifies this
      ensures match Apply(old(Contents()), Write(nodeId, name, value, mode))
              case Some(next) => Contents() == next && r == Some(next.variables[name])
              case None => Contents() == old(Contents()) && r == None
      ensures r.Some? ==>
                && variables == old(variables)[name := r.value] && r.value.updatedBy == nodeId && r.value.valueType == ValueType(r.value.value)
                && r.value.revision == (if name in old(variables) then old(variables)[name].revision else 0) + 1
                && |events| == |old(events)| + 1 && events[..|old(events)|] == old(events)
                && events[|old(events)|].name == name && events[|old(events)|].nodeId == nodeId
                && events[|old(events)|].revision == r.value.revision && ParseMode(mode) == Some(events[|old(events)|].mode)
    {
      if !ValidName(name) {
        return None;
      }
      var parsed := ParseMode(mode);
      if parsed.None? {
        return None;
      }
      var existing := if name in variables then variables[name].value else Null;
      var next := ApplyMode(existing, value, parsed.value);
      if next.None? {
        return None;
      }
      var row := Row(next.value, ValueType(next.value), nodeId, 1);
      if name in variables {
        row := row.(revision := variables[name].revision + 1);
      }
      variables := variables[name := row];
      events := events + [Event(name, parsed.value, row.revision, nodeId)];
      r := Some(row);
    }

    /** Writes one after the other: from an empty table, every variable and its events show the fold of its own writes. */
    method SetAll(writes: seq<Write>)
      modifies this
      ensures Contents() == ApplyAll(old(Contents()), writes)
      ensures old(Contents()) == EMPTY ==> forall name :: Shows(Contents(), name, Follow(writes, name))
    {
      for i := 0 to |writes|
        invariant Contents() == ApplyAll(old(Contents()), writes[..i])
      {
        assert writes[..i + 1][..i] == writes[..i];
        var _ := SetVariable(writes[i].nodeId, writes[i].name, writes[i].value, writes[i].mode);
      }
      assert writes[..|writes|] == writes;
      if old(Contents()) == EMPTY {
        forall name ensures Shows(Contents(), name, Follow(writes, name)) {
          StoreShowsHistory(writes, name);
        }
      }
    }
  }

  // ----- a run's whole history of writes -----

  /** All writes in order; a write that raises leaves the store as it was. */
  function ApplyAll(store: Store, writes: seq<Write>): Store {
    if writes == [] then store
    else
      var before := ApplyAll(store, writes[..|writes| - 1]);
      match Apply(before, writes[|writes| - 1])
      case Some(next) => next
      case None => before
  }

  /** One variable followed on its own: the fold of `ApplyMode` over its accepted writes, and their number. */
  datatype Track = Track(value: Option<Json>, accepted: nat)

  function FollowWrite(track: Track, write: Write, name: string): Track {
    if write.name != name || !ValidName(name) || ParseMode(write.mode) == None then track
    else
      match ApplyMode(if track.value.Some? then track.value.value else Null, write.value, ParseMode(write.mode).value)
      case Some(next) => Track(Some(next), track.accepted + 1)
      case None => track
  }

  function Follow(writes: seq<Write>, name: string): Track {
    if writes == [] then Track(None, 0) else FollowWrite(Follow(writes[..|writes| - 1], name), writes[|writes| - 1], name)
  }

  function EventsOf(events: seq<Event>, name: string): seq<Event> {
    if events == [] then []
    else
      var init, last := events[..|events| - 1], events[|events| - 1];
      EventsOf(init, name) + if last.name == name then [last] else []
  }

  lemma EventsOfSnoc(events: seq<Event>, event: Event, name: string)
    ensures EventsOf(events + [event], name) == EventsOf(events, name) + if event.name == name then [event] else []
  {
    assert (events + [event])[..|events|] == events;
  }

  /** What the store and the log show of one variable. */
  ghost predicate Shows(store: Store, name: string, track: Track) {
    var log := EventsOf(store.events, name);
    && (name in store.variables <==> track.value.Some?) && (track.value.Some? <==> track.accepted > 0)
    && (name in store.variables ==>
          && store.variables[name].value == track.value.value
          && store.variables[name].valueType == ValueType(track.value.value)
          && store.variables[name].revision == track.accepted)
    && |log| == track.accepted
    && forall i :: 0 <= i < |log| ==> log[i].revision == i + 1
  }

  lemma WriteShows(store: Store, name: string, track: Track, write: Write)
    requires Shows(store, name, track) && Apply(store, write).Some?
    ensures Shows(Apply(store, write).value, name, FollowWrite(track, write, name))
  {
    EventsOfSnoc(store.events, EventOf(write, NextRow(RowAt(store, write.name), write).value), name);
  }

  lemma RefusalShows(store: Store, name: string, track: Track, write: Write)
    requires Shows(store, name, track) && Apply(store, write) == None
    ensures FollowWrite(track, write, name) == track
  {
  }

  /**
   After any writes to a run, each variable holds the fold of its own accepted writes, with its revision and
   its VARIABLE_SET events counting them; the writes to other variables and the rejected ones leave no mark.
   */
  lemma {:induction false} StoreShowsHistory(writes: seq<Write>, name: string)
    ensures Shows(ApplyAll(EMPTY, writes), name, Follow(writes, name))
  {
    if writes == [] {
    } else {
      var init, last := writes[..|writes| - 1], writes[|writes| - 1];
      StoreShowsHistory(init, name);
      var before := ApplyAll(EMPTY, init);
      match Apply(before, last)
      case None => RefusalShows(before, name, Follow(init, name), last);
      case Some(_) => WriteShows(before, name, Follow(init, name), last);
    }
  }
}
