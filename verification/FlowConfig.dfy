/** `deep_merge`: recursive configuration merge, and its algebra. */
module FlowConfig {
  import opened Wrappers
  import opened Json
  import opened Paths

  /** Merge on JSON values: two objects merge key by key, anything else is replaced. */
  function Overlay(base: Json, over: Json): Json
    decreases over
  {
    if base.Obj? && over.Obj? then
      Obj(map key | key in base.fields.Keys + over.fields.Keys ::
        if key !in over.fields then base.fields[key]
        else if key !in base.fields then over.fields[key]
        else Overlay(base.fields[key], over.fields[key]))
    else over
  }

  function Merge(base: Object, overrides: Object): Object {
    Overlay(Obj(base), Obj(overrides)).fields
  }

  lemma MergeAt(base: Object, overrides: Object, key: string)
    requires key in overrides
    ensures key in Merge(base, overrides)
    ensures Merge(base, overrides)[key] == if key in base then Overlay(base[key], overrides[key]) else overrides[key]
  {
  }

  /** The loop of `deep_merge`, lines 20-27. */
  method DeepMerge(base: Object, overrides: Object) returns (merged: Object)
    ensures merged == Merge(base, overrides)
    decreases Obj(overrides)
  {
    merged := base;
    var left := overrides.Keys;
    while left != {}
      invariant left <= overrides.Keys && merged.Keys == base.Keys + (overrides.Keys - left)
      invariant forall key :: key in merged ==>
        merged[key] == if key in overrides && key !in left then Merge(base, overrides)[key] else base[key]
    {
      var key :| key in left;
      left := left - {key};
      var value := overrides[key];
      assert key in merged ==> merged[key] == base[key];
      if value.Obj? && key in merged && merged[key].Obj? {
        assert value < Obj(overrides);
        var inner := DeepMerge(merged[key].fields, value.fields);
        assert Obj(inner) == Overlay(base[key], value);
        merged := merged[key := Obj(inner)];
      } else {
        merged := merged[key := value];
      }
      MergeAt(base, overrides, key);
    }
  }

  // ----- units and idempotence -----

  lemma EmptyIsUnit(config: Object)
    ensures Merge(config, map[]) == config
    ensures Merge(map[], config) == config
  {
  }

  /** Applying the same overrides again changes nothing. */
  lemma {:induction false} OverlayIdempotent(base: Json, over: Json)
    ensures Overlay(Overlay(base, over), over) == Overlay(base, over)
    decreases over
  {
    if base.Obj? && over.Obj? {
      forall key | key in over.fields
        ensures key in base.fields ==> Overlay(Overlay(base.fields[key], over.fields[key]), over.fields[key]) == Overlay(base.fields[key], over.fields[key])
        ensures Overlay(over.fields[key], over.fields[key]) == over.fields[key]
      {
        if key in base.fields { OverlayIdempotent(base.fields[key], over.fields[key]); }
        OverlaySelf(over.fields[key]);
      }
    } else {
      OverlaySelf(over);
    }
  }

  lemma {:induction false} OverlaySelf(value: Json)
    ensures Overlay(value, value) == value
  {
    if value.Obj? {
      forall key | key in value.fields ensures Overlay(value.fields[key], value.fields[key]) == value.fields[key] {
        OverlaySelf(value.fields[key]);
      }
      assert Overlay(value, value).fields == value.fields;
    }
  }

  lemma OverridesIdempotent(base: Object, overrides: Object)
    ensures Merge(Merge(base, overrides), overrides) == Merge(base, overrides)
  {
    OverlayIdempotent(Obj(base), Obj(overrides));
  }

  // ----- the path law -----

  /** `over` holds something that is not an object at a proper prefix of `path`, so nothing can lie at `path`. */
  predicate Cuts(over: Json, path: seq<string>) {
    path != [] && (!over.Obj? || (path[0] in over.fields && Cuts(over.fields[path[0]], path[1..])))
  }

  /**
   What lies at a path after a merge: an override wins there (merging if both sides hold objects); where the
   override is silent the base stays, unless the override cut the path off further up.
   */
  lemma {:induction false} PathLaw(base: Json, over: Json, path: seq<string>)
    ensures var was, now := Walk(base, path), Walk(over, path);
            Walk(Overlay(base, over), path) ==
              if now.Some? then Some(if was.Some? then Overlay(was.value, now.value) else now.value)
              else if Cuts(over, path) then None
              else was
    decreases path
  {
    if path != [] && base.Obj? && over.Obj? {
      if path[0] in base.fields && path[0] in over.fields {
        PathLaw(base.fields[path[0]], over.fields[path[0]], path[1..]);
      } else if path[0] in over.fields {
        WalkNothing(over.fields[path[0]], path[1..]);
      }
    } else if path != [] && over.Obj? && path[0] in over.fields {
      WalkNothing(over.fields[path[0]], path[1..]);
    }
  }

  lemma {:induction false} WalkNothing(over: Json, path: seq<string>)
    ensures Cuts(over, path) ==> Walk(over, path) == None
    decreases path
  {
    if path != [] && over.Obj? && path[0] in over.fields {
      WalkNothing(over.fields[path[0]], path[1..]);
    }
  }

  /** A leaf of the overrides wins. */
  lemma OverrideLeafWins(base: Object, overrides: Object, path: seq<string>)
    requires Walk(Obj(overrides), path).Some? && !Walk(Obj(overrides), path).value.Obj?
    ensures Walk(Obj(Merge(base, overrides)), path) == Walk(Obj(overrides), path)
  {
    PathLaw(Obj(base), Obj(overrides), path);
  }

  // ----- associativity -----

  /** Everything `lower` says is overridden by `upper`, object keys included. */
  predicate Absorbed(lower: Json, upper: Json)
    decreases upper
  {
    lower.Obj? && upper.Obj? ==>
      forall key :: key in lower.fields ==> key in upper.fields && Absorbed(lower.fields[key], upper.fields[key])
  }

  lemma {:induction false} AbsorbedIff(lower: Json, upper: Json)
    ensures Overlay(lower, upper) == upper <==> Absorbed(lower, upper)
    decreases upper
  {
    if lower.Obj? && upper.Obj? {
      var merged := Overlay(lower, upper);
      forall key | key in lower.fields && key in upper.fields
        ensures Overlay(lower.fields[key], upper.fields[key]) == upper.fields[key] <==> Absorbed(lower.fields[key], upper.fields[key])
      {
        AbsorbedIff(lower.fields[key], upper.fields[key]);
      }
      if merged == upper {
        forall key | key in lower.fields ensures key in upper.fields && Absorbed(lower.fields[key], upper.fields[key]) {
          assert key in merged.fields;
          assert merged.fields[key] == upper.fields[key];
        }
      }
      if Absorbed(lower, upper) {
        assert merged.fields == upper.fields;
      }
    }
  }

  /**
   Wherever `a`, `b` and `c` hold an object, a non-object and an object at one key path, what `a` says there is
   absorbed by `c`.
   */
  predicate NothingRevives(a: Json, b: Json, c: Json)
    decreases c
  {
    a.Obj? && c.Obj? ==>
      if b.Obj? then
        forall key :: key in a.fields && key in b.fields && key in c.fields ==> NothingRevives(a.fields[key], b.fields[key], c.fields[key])
      else Absorbed(a, c)
  }

  /** Merging is associative exactly when nothing the middle configuration replaced comes back. */
  lemma {:induction false} AssociativeIff(a: Json, b: Json, c: Json)
    ensures Overlay(Overlay(a, b), c) == Overlay(a, Overlay(b, c)) <==> NothingRevives(a, b, c)
    decreases c
  {
    if a.Obj? && c.Obj? {
      if b.Obj? {
        AssociativeByKey(a, b, c);
      } else {
        AbsorbedIff(a, c);
      }
    }
  }

  lemma {:induction false} AssociativeByKey(a: Json, b: Json, c: Json)
    requires a.Obj? && b.Obj? && c.Obj?
    ensures Overlay(Overlay(a, b), c) == Overlay(a, Overlay(b, c)) <==> NothingRevives(a, b, c)
    decreases c, 0
  {
    var left, right := Overlay(Overlay(a, b), c), Overlay(a, Overlay(b, c));
    forall key | key in a.fields && key in b.fields && key in c.fields
      ensures left.fields[key] == right.fields[key] <==> NothingRevives(a.fields[key], b.fields[key], c.fields[key])
    {
      AssociativeIff(a.fields[key], b.fields[key], c.fields[key]);
    }
    assert left.fields.Keys == right.fields.Keys;
    if left == right {
      forall key | key in a.fields && key in b.fields && key in c.fields
        ensures NothingRevives(a.fields[key], b.fields[key], c.fields[key])
      {
        assert left.fields[key] == right.fields[key];
      }
    }
    if NothingRevives(a, b, c) {
      assert left.fields == right.fields;
    }
  }

  /** No key path holds object, non-object, object across the three. */
  predicate NoConflict(a: Json, b: Json, c: Json)
    decreases c
  {
    a.Obj? && c.Obj? ==>
      b.Obj? && forall key :: key in a.fields && key in b.fields && key in c.fields ==> NoConflict(a.fields[key], b.fields[key], c.fields[key])
  }

  /** Without such a conflict merging is associative; the conflict alone does not break it. */
  lemma {:induction false} NoConflictAssociates(a: Json, b: Json, c: Json)
    ensures NoConflict(a, b, c) ==> NothingRevives(a, b, c)
    decreases c
  {
    if NoConflict(a, b, c) && a.Obj? && c.Obj? {
      forall key | key in a.fields && key in b.fields && key in c.fields
        ensures NothingRevives(a.fields[key], b.fields[key], c.fields[key])
      {
        NoConflictAssociates(a.fields[key], b.fields[key], c.fields[key]);
      }
    }
  }

  /** A replaced setting can come back: `{k: {x: true}}`, `{k: null}`, `{k: {}}` merge differently in the two orders. */
  lemma AssociativityFails()
    ensures var a, b, c := map["k" := Obj(map["x" := Bool(true)])], map["k" := Null], map["k" := Obj(map[])];
            && Merge(Merge(a, b), c) == c
            && Merge(a, Merge(b, c)) == a
            && a != c
  {
    var a, b, c := map["k" := Obj(map["x" := Bool(true)])], map["k" := Null], map["k" := Obj(map[])];
    assert Merge(a, b) == b;
    assert Merge(b, c) == c;
    EmptyIsUnit(map["x" := Bool(true)]);
    assert Merge(a, c)["k"] == a["k"];
    assert Merge(a, c) == a;
    assert a["k"].fields != c["k"].fields by { assert "x" in a["k"].fields; }
  }

  /** With `{k: {}}` as the outer two the same pattern of types is harmless. */
  lemma ConflictCanBeHarmless()
    ensures var a, b, c := Obj(map["k" := Obj(map[])]), Obj(map["k" := Null]), Obj(map["k" := Obj(map[])]);
            !NoConflict(a, b, c) && Overlay(Overlay(a, b), c) == Overlay(a, Overlay(b, c))
  {
    var a, b, c := Obj(map["k" := Obj(map[])]), Obj(map["k" := Null]), Obj(map["k" := Obj(map[])]);
    assert !NoConflict(a.fields["k"], b.fields["k"], c.fields["k"]);
    AssociativeIff(a, b, c);
  }
}
